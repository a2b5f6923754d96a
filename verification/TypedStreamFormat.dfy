/**
 The typedstream format of `StreamTypedCoder` (src/util.rs): what is written for a tree of
 values and how it is read back, relative to the caches of shared strings and objects.

 None stands for a panic.  Strings are their UTF-8 bytes (`IsUtf8` is
 Rust's invariant of them) and floats their bit patterns.
 */
module TypedStreamFormat {
  import opened Bytes
  import opened Floats

  /** `StCollapsedValue` */
  datatype Value =
    | String(text: bytes)
    | CString(text: bytes)
    | Object(name: bytes, fields: seq<Group>)
    | Bool(truth: bool)
    | Byte(octet: byte)
    | Int(number: u32, signed: bool)
    | Float(float: float32)
    | Double(double: float64)
    | Array(data: bytes)
    | Nil

  /** One group of values under a common type string. */
  datatype Group = Group(values: seq<Value>)

  /** `StreamTypedValue`: objects are named by their index in a cache. */
  datatype Typed =
    | TObject(index: Option<nat>)
    | TString(text: bytes)
    | TBool(truth: bool)
    | TByte(octet: byte)
    | TInt(number: u32, signed: bool)
    | TFloat(float: float32)
    | TDouble(double: float64)
    | TArray(data: bytes)

  /** `StreamTypedObject` */
  datatype Cached =
    | Class(parent: Option<nat>, tag: u32, name: bytes)
    | Instance(cls: nat, members: seq<seq<Typed>>)
    | Placeholder
    | SharedText(text: bytes)

  const TAG_START: byte := 0x84
  const TAG_EMPTY: byte := 0x85
  const FIELDS_END: byte := 0x86
  const REF_START := 0x92

  predicate InTagRange(n: int) {
    0x80 <= n < 0x92
  }

  // ----- text -----

  type ascii = s: string | forall i :: 0 <= i < |s| ==> s[i] < 128 as char

  function Ascii(s: ascii): (r: bytes)
    ensures |r| == |s| && forall i :: 0 <= i < |r| ==> r[i] < 0x80
  {
    seq(|s|, i requires 0 <= i < |s| => s[i] as int)
  }

  datatype LegacyClass = LegacyClass(name: ascii, classes: seq<ascii>, version: u32)

  const LEGACY_SPECS: seq<LegacyClass> :=
    [ LegacyClass("NSAttributedString", ["NSAttributedString", "NSObject"], 0),
      LegacyClass("NSString", ["NSString", "NSObject"], 1),
      LegacyClass("NSNumber", ["NSNumber", "NSValue", "NSObject"], 0),
      LegacyClass("NSDictionary", ["NSDictionary", "NSObject"], 0) ]

  /** The names of a class list as they are written. */
  function Names(classes: seq<ascii>): (r: seq<bytes>)
    ensures |r| == |classes|
    ensures forall k :: 0 <= k < |classes| ==> r[k] == Ascii(classes[k])
  {
    seq(|classes|, k requires 0 <= k < |classes| => Ascii(classes[k]))
  }

  function FindLegacy(specs: seq<LegacyClass>, name: bytes): (r: Option<LegacyClass>)
    ensures r.Some? ==> r.value in specs && Ascii(r.value.name) == name
  {
    if specs == [] then None
    else if Ascii(specs[0].name) == name then Some(specs[0])
    else FindLegacy(specs[1..], name)
  }

  /** The decimal digits of `n`. */
  function Decimal(n: nat): (r: bytes)
    ensures r != []
    ensures forall i :: 0 <= i < |r| ==> 0x30 <= r[i] <= 0x39
  {
    if n < 10 then [0x30 + n] else Decimal(n / 10) + [0x30 + n % 10]
  }

  /** A number written in decimal digits; None when a byte is no digit or nothing is left. */
  function ParseDecimal(s: bytes): Option<nat> {
    if s == [] || !(0x30 <= s[|s| - 1] <= 0x39) then None
    else if |s| == 1 then Some(s[0] - 0x30)
    else
      var high :- ParseDecimal(s[..|s| - 1]);
      Some(10 * high + (s[|s| - 1] - 0x30))
  }

  /** A size as `usize::from_str` reads it: a plus sign may come first. */
  function ParseSize(s: bytes): Option<nat> {
    if s != [] && s[0] == 0x2B then ParseDecimal(s[1..]) else ParseDecimal(s)
  }

  lemma {:induction false} ParseOfDecimal(n: nat)
    ensures ParseDecimal(Decimal(n)) == Some(n)
  {
    if n >= 10 {
      ParseOfDecimal(n / 10);
      assert Decimal(n)[..|Decimal(n)| - 1] == Decimal(n / 10);
    }
  }

  // ----- numbers -----

  function WriteNumber(n: u32): (r: bytes)
    ensures |r| >= 1
  {
    if n < 0x80 then [n]
    else if n < 0x1_0000 then [0x81] + LittleEndian(n, 2)
    else [0x82] + LittleEndian(n, 4)
  }

  function WriteReference(index: nat): (r: bytes)
    ensures |r| >= 1
  {
    var n := (REF_START + index) % U32;
    if n < 0x100 && !InTagRange(n) then [n]
    else if n < 0x1_0000 then [0x81] + LittleEndian(n, 2)
    else [0x82] + LittleEndian(n, 4)
  }

  /** `tag` has been read; None where the data ends or the tag is no number. */
  function ReadNumber(tag: byte, data: bytes): (r: Option<(u32, bytes)>)
    ensures r.Some? ==> |r.value.1| <= |data|
  {
    if tag == 0x81 then
      if |data| < 2 then None
      else
        FitsU32(data[..2]);
        Some((FromLittleEndian(data[..2]), data[2..]))
    else if tag == 0x82 then
      if |data| < 4 then None
      else
        FitsU32(data[..4]);
        Some((FromLittleEndian(data[..4]), data[4..]))
    else if InTagRange(tag) then None
    else Some((tag, data))
  }

  lemma FitsU32(s: bytes)
    requires |s| == 2 || |s| == 4
    ensures FromLittleEndian(s) < U32
  {
    FromLittleEndianBound(s);
    assert Pow256(2) == 0x1_0000;
    assert Pow256(4) == 0x1_0000 * Pow256(2);
  }

  /** The cache index a reference tag names. */
  function ReadReference(tag: byte, data: bytes): (r: Option<(nat, bytes)>)
    ensures r.Some? ==> |r.value.1| <= |data|
  {
    var (n, rest) :- ReadNumber(tag, data);
    if n < REF_START then None else Some((n - REF_START, rest))
  }

  // ----- writing -----

  /** The shared strings and objects; an object is known by what it is looked up by. */
  datatype Caches = Caches(strings: seq<bytes>, objects: seq<Slot>)

  /** The bytes of one item, and the caches after it. */
  datatype Written = Written(out: bytes, caches: Caches)

  /** What an entry of the object cache is looked up by. */
  datatype Slot = ClassSlot(name: bytes) | TextSlot(text: bytes) | InstanceSlot

  function SlotOf(c: Cached): Slot {
    match c
    case Class(_, _, name) => ClassSlot(name)
    case SharedText(text) => TextSlot(text)
    case Instance(_, _) => InstanceSlot
    case Placeholder => InstanceSlot
  }

  function FirstIndex<T(==)>(s: seq<T>, x: T): (r: Option<nat>)
    ensures r.Some? <==> x in s
    ensures r.Some? ==> r.value < |s| && s[r.value] == x && x !in s[..r.value]
  {
    if s == [] then None
    else if s[0] == x then Some(0)
    else
      var i :- FirstIndex(s[1..], x);
      assert s[..i + 1] == [s[0]] + s[1..][..i];
      Some(i + 1)
  }

  predicate Extends(c: Caches, d: Caches) {
    |c.strings| <= |d.strings| && |c.objects| <= |d.objects|
  }

  function WriteRawString(s: bytes): (r: bytes)
    ensures |r| >= 1
  {
    WriteNumber(|s| % U32) + s
  }

  function WriteString(c: Caches, s: bytes): (w: Written)
    ensures Extends(c, w.caches) && |w.out| >= 1
  {
    match FirstIndex(c.strings, s)
    case Some(i) => Written(WriteReference(i), c)
    case None => Written([TAG_START] + WriteRawString(s), c.(strings := c.strings + [s]))
  }

  /** A class and its superclasses, down to the first one already cached. */
  function WriteClasses(c: Caches, classes: seq<bytes>, version: u32): (w: Written)
    ensures Extends(c, w.caches) && |w.out| >= 1
    decreases |classes|
  {
    if classes == [] then Written([TAG_EMPTY], c)
    else
      match FirstIndex(c.objects, ClassSlot(classes[0]))
      case Some(i) => Written(WriteReference(i), c)
      case None =>
        var name := WriteString(c, classes[0]);
        var known := name.caches.(objects := name.caches.objects + [ClassSlot(classes[0])]);
        var supers := WriteClasses(known, classes[1..], version);
        Written([TAG_START] + (name.out + (WriteNumber(version) + supers.out)), supers.caches)
  }

  function WriteCString(c: Caches, text: bytes): (w: Written)
    ensures Extends(c, w.caches) && |w.out| >= 1
  {
    match FirstIndex(c.objects, TextSlot(text))
    case Some(i) => Written(WriteReference(i), c)
    case None =>
      var name := WriteString(c, text);
      Written([TAG_START] + name.out, name.caches.(objects := name.caches.objects + [TextSlot(text)]))
  }

  /** The type of one value, as it appears in a type string. */
  function TypeCode(v: Value): (r: bytes)
    ensures r != []
    ensures !v.Array? ==> |r| == 1 && r[0] != 0x5B
  {
    match v
    case CString(_) => [0x2A]                                  // *
    case Object(_, _) => [0x40]                                // @
    case Nil => [0x40]
    case Array(data) => [0x5B] + Decimal(|data|) + [0x63, 0x5D]  // [nc]
    case String(_) => [0x2B]                                   // +
    case Bool(_) => [0x42]                                     // B
    case Byte(_) => [0x63]                                     // c
    case Int(_, signed) => if signed then [0x69] else [0x49]   // i, I
    case Float(_) => [0x66]                                    // f
    case Double(_) => [0x64]                                   // d
  }

  function TypeCodes(group: seq<Value>): bytes {
    if group == [] then [] else TypeCode(group[0]) + TypeCodes(group[1..])
  }

  function WriteValue(specs: seq<LegacyClass>, c: Caches, v: Value): (w: Option<Written>)
    ensures w.Some? ==> Extends(c, w.value.caches)
    decreases v, 0
  {
    match v
    case CString(text) => Some(WriteCString(c, text))
    case Object(name, fields) =>
      var meta :- FindLegacy(specs, name);                     // "Unknown name"
      var classes := WriteClasses(c.(objects := c.objects + [InstanceSlot]), Names(meta.classes), meta.version);
      var members :- WriteFields(specs, classes.caches, fields);
      Some(Written([TAG_START] + (classes.out + (members.out + [FIELDS_END])), members.caches))
    case Nil => Some(Written([TAG_EMPTY], c))
    case Array(data) => Some(Written(data, c))
    case String(text) => Some(Written(WriteRawString(text), c))
    case Bool(truth) => Some(Written([if truth then 1 else 0], c))
    case Byte(octet) => Some(Written([octet], c))
    case Int(n, _) => Some(Written(WriteNumber(n), c))
    case Float(bits) => Some(Written([0x83] + bits, c))
    case Double(bits) => Some(Written([0x83] + bits, c))
  }

  function WriteFields(specs: seq<LegacyClass>, c: Caches, fields: seq<Group>): (w: Option<Written>)
    ensures w.Some? ==> Extends(c, w.value.caches)
    decreases fields, 0
  {
    if fields == [] then Some(Written([], c))
    else
      var first :- WriteGroup(specs, c, fields[0].values);
      var others :- WriteFields(specs, first.caches, fields[1..]);
      Some(Written(first.out + others.out, others.caches))
  }

  function WriteGroup(specs: seq<LegacyClass>, c: Caches, group: seq<Value>): (w: Option<Written>)
    ensures w.Some? ==> Extends(c, w.value.caches) && |w.value.out| >= 1
    decreases group, 1
  {
    var codes := WriteString(c, TypeCodes(group));
    var values :- WriteValues(specs, codes.caches, group);
    Some(Written(codes.out + values.out, values.caches))
  }

  function WriteValues(specs: seq<LegacyClass>, c: Caches, group: seq<Value>): (w: Option<Written>)
    ensures w.Some? ==> Extends(c, w.value.caches)
    decreases group, 0
  {
    if group == [] then Some(Written([], c))
    else
      var first :- WriteValue(specs, c, group[0]);
      var others :- WriteValues(specs, first.caches, group[1..]);
      Some(Written(first.out + others.out, others.caches))
  }

  const VERSION: byte := 4
  const SYSTEM := 1000

  /** "streamtyped" */
  const HEADER: bytes := [0x73, 0x74, 0x72, 0x65, 0x61, 0x6D, 0x74, 0x79, 0x70, 0x65, 0x64]

  /** `coder_encode_flattened` */
  function Encode(specs: seq<LegacyClass>, values: seq<Value>): Option<Written> {
    var group :- WriteGroup(specs, Caches([], []), values);
    Some(Written([VERSION] + (WriteRawString(HEADER) + (WriteNumber(SYSTEM) + group.out)), group.caches))
  }

  // ----- reading -----

  /** What is left to read, and the caches rebuilt so far. */
  datatype Input = Input(data: bytes, strings: seq<bytes>, objects: seq<Cached>)

  function ReadRawString(data: bytes): (r: Option<(bytes, bytes)>)
    ensures r.Some? ==> |r.value.1| < |data|
  {
    if data == [] then None
    else
      var (n, rest) :- ReadNumber(data[0], data[1..]);
      if n > |rest| || !IsUtf8(rest[..n]) then None else Some((rest[..n], rest[n..]))
  }

  /** `tag` has been read; the string itself may be absent (TAG_EMPTY). */
  function ReadString(tag: byte, i: Input): (r: Option<(Option<bytes>, Input)>)
    ensures r.Some? ==> |r.value.1.data| <= |i.data|
  {
    if tag == TAG_START then
      var (s, rest) :- ReadRawString(i.data);
      Some((Some(s), Input(rest, i.strings + [s], i.objects)))
    else if tag == TAG_EMPTY then Some((None, i))
    else
      var (k, rest) :- ReadReference(tag, i.data);
      if k >= |i.strings| then None else Some((Some(i.strings[k]), i.(data := rest)))
  }

  /** A string that must be present; its tag is the next byte. */
  function ReadName(i: Input): (r: Option<(bytes, Input)>)
    ensures r.Some? ==> |r.value.1.data| < |i.data|
  {
    if i.data == [] then None
    else
      var (s, next) :- ReadString(i.data[0], i.(data := i.data[1..]));
      if s.None? then None else Some((s.value, next))
  }

  function InsertAt<T>(s: seq<T>, k: nat, x: T): seq<T>
    requires k <= |s|
  {
    s[..k] + [x] + s[k..]
  }

  /** A class is inserted where the cache ended before its superclasses were read. */
  function ReadClasses(i: Input): (r: Option<(Option<nat>, Input)>)
    ensures r.Some? ==> |r.value.1.data| < |i.data| && |i.objects| <= |r.value.1.objects|
    decreases |i.data|
  {
    if i.data == [] then None
    else
      var tag, next := i.data[0], i.(data := i.data[1..]);
      if tag == TAG_START then
        var (name, named) :- ReadName(next);
        if named.data == [] then None
        else
          var (version, rest) :- ReadNumber(named.data[0], named.data[1..]);
          var (parent, last) :- ReadClasses(named.(data := rest));
          Some((Some(|i.objects|), last.(objects := InsertAt(last.objects, |i.objects|, Class(parent, version, name)))))
      else if tag == TAG_EMPTY then Some((None, next))
      else
        var (k, rest) :- ReadReference(tag, next.data);
        Some((Some(k), next.(data := rest)))
  }

  function ReadCString(i: Input): (r: Option<(Option<nat>, Input)>)
    ensures r.Some? ==> |r.value.1.data| < |i.data| && |i.objects| <= |r.value.1.objects|
  {
    if i.data == [] then None
    else
      var tag, next := i.data[0], i.(data := i.data[1..]);
      if tag == TAG_START then
        var (text, last) :- ReadName(next);
        Some((Some(|last.objects|), last.(objects := last.objects + [SharedText(text)])))
      else if tag == TAG_EMPTY then Some((None, next))
      else
        var (k, rest) :- ReadReference(tag, next.data);
        Some((Some(k), next.(data := rest)))
  }

  function ReadObject(i: Input): (r: Option<(Option<nat>, Input)>)
    ensures r.Some? ==> |r.value.1.data| < |i.data| && |i.objects| <= |r.value.1.objects|
    decreases |i.data|, 0, 0
  {
    if i.data == [] then None
    else
      var tag, next := i.data[0], i.(data := i.data[1..]);
      if tag == TAG_START then
        var (cls, classed) :- ReadClasses(next.(objects := next.objects + [Placeholder]));
        if cls.None? then None                                 // "No class list?"
        else
          var (members, last) :- ReadMembers(classed);
          Some((Some(|i.objects|), last.(objects := last.objects[|i.objects| := Instance(cls.value, members)])))
      else if tag == TAG_EMPTY then Some((None, next))
      else
        var (k, rest) :- ReadReference(tag, next.data);
        Some((Some(k), next.(data := rest)))
  }

  /** Groups up to FIELDS_END. */
  function ReadMembers(i: Input): (r: Option<(seq<seq<Typed>>, Input)>)
    ensures r.Some? ==> |r.value.1.data| < |i.data| && |i.objects| <= |r.value.1.objects|
    decreases |i.data|, 3, 0
  {
    if i.data == [] then None
    else
      var tag, next := i.data[0], i.(data := i.data[1..]);
      if tag == FIELDS_END then Some(([], next))
      else
        var (group, more) :- ReadGroup(tag, next);
        var (groups, last) :- ReadMembers(more);
        Some(([group] + groups, last))
  }

  /** `decode_type`: a type string, whose tag has been read, and the values it describes. */
  function ReadGroup(tag: byte, i: Input): (r: Option<(seq<Typed>, Input)>)
    ensures r.Some? ==> |r.value.1.data| <= |i.data| && |i.objects| <= |r.value.1.objects|
    decreases |i.data|, 2, 0
  {
    var (s, next) :- ReadString(tag, i);
    if s.None? then None else ReadTypes(s.value, next)         // "Type string cannot be nil"
  }

  /** The values of a type string. */
  function ReadTypes(types: bytes, i: Input): (r: Option<(seq<Typed>, Input)>)
    ensures r.Some? ==> |r.value.1.data| <= |i.data| && |i.objects| <= |r.value.1.objects|
    decreases |i.data|, 1, |types| + 1
  {
    if IsArrayType(types) then
      var size :- ParseSize(types[1..|types| - 2]);
      if size > |i.data| then None
      else Some(([TArray(i.data[..size])], i.(data := i.data[size..])))
    else ReadValues(types, i)
  }

  /** "[" ... "c]" */
  predicate IsArrayType(s: bytes) {
    |s| >= 3 && s[0] == 0x5B && s[|s| - 2] == 0x63 && s[|s| - 1] == 0x5D
  }

  function ReadValues(codes: bytes, i: Input): (r: Option<(seq<Typed>, Input)>)
    ensures r.Some? ==> |r.value.1.data| <= |i.data| && |i.objects| <= |r.value.1.objects|
    decreases |i.data|, 1, |codes|
  {
    if codes == [] then Some(([], i))
    else
      var (v, next) :- ReadValue(codes[0], i);
      var (vs, last) :- ReadValues(codes[1..], next);
      Some(([v] + vs, last))
  }

  function ReadValue(code: byte, i: Input): (r: Option<(Typed, Input)>)
    ensures r.Some? ==> |r.value.1.data| <= |i.data| && |i.objects| <= |r.value.1.objects|
    decreases |i.data|, 1, 0
  {
    if code == 0x40 then
      var (k, next) :- ReadObject(i);
      Some((TObject(k), next))
    else if code == 0x2A then
      var (k, next) :- ReadCString(i);
      Some((TObject(k), next))
    else if code == 0x2B then
      var (s, rest) :- ReadRawString(i.data);
      Some((TString(s), i.(data := rest)))
    else if i.data == [] then None
    else ReadScalar(code, i.data[0], i.(data := i.data[1..]))
  }

  predicate IsSigned(code: byte) {
    code == 0x73 || code == 0x69 || code == 0x6C || code == 0x71    // s, i, l, q
  }

  predicate IsUnsigned(code: byte) {
    code == 0x53 || code == 0x49 || code == 0x4C || code == 0x51    // S, I, L, Q
  }

  /** Behind any tag but 0x83 a float is stored as a number. */
  function ReadFloat(tag: byte, data: bytes): (r: Option<(float32, bytes)>)
    ensures r.Some? ==> |r.value.1| <= |data|
  {
    if tag == 0x83 then
      if |data| < 4 then None else Some((data[..4], data[4..]))
    else
      var (n, rest) :- ReadNumber(tag, data);
      Some((ToFloat(n), rest))
  }

  function ReadDouble(tag: byte, data: bytes): (r: Option<(float64, bytes)>)
    ensures r.Some? ==> |r.value.1| <= |data|
  {
    if tag == 0x83 then
      if |data| < 8 then None else Some((data[..8], data[8..]))
    else
      var (n, rest) :- ReadNumber(tag, data);
      Some((ToDouble(n), rest))
  }

  /** A value that starts with the byte `b`. */
  function ReadScalar(code: byte, b: byte, i: Input): (r: Option<(Typed, Input)>)
    ensures r.Some? ==> |r.value.1.data| <= |i.data| && r.value.1.objects == i.objects
  {
    if code == 0x42 then Some((TBool(b == 1), i))
    else if code == 0x43 || code == 0x63 then Some((TByte(b), i))   // C, c
    else if IsSigned(code) || IsUnsigned(code) then
      var (n, rest) :- ReadNumber(b, i.data);
      Some((TInt(n, IsSigned(code)), i.(data := rest)))
    else if code == 0x66 then                                       // f
      var (float, rest) :- ReadFloat(b, i.data);
      Some((TFloat(float), i.(data := rest)))
    else if code == 0x64 then                                       // d
      var (double, rest) :- ReadDouble(b, i.data);
      Some((TDouble(double), i.(data := rest)))
    else None
  }

  /** The stream's typed values and the rebuilt object cache. */
  function Decode(data: bytes): Option<(seq<Typed>, seq<Cached>)> {
    if data == [] || data[0] != VERSION then None
    else
      var (header, d1) :- ReadRawString(data[1..]);
      if header != HEADER || d1 == [] then None
      else
        var (system, d2) :- ReadNumber(d1[0], d1[1..]);
        if system != SYSTEM || d2 == [] then None
        else
          var (group, last) :- ReadGroup(d2[0], Input(d2[1..], [], []));
          Some((group, last.objects))
  }

  /** `type_to_value`; `depth` bounds how deep instances nest, as the stack does. */
  function Collapse(objects: seq<Cached>, t: Typed, depth: nat): Option<Value>
    decreases depth, 0, 0
  {
    match t
    case TArray(data) => Some(Array(data))
    case TBool(truth) => Some(Bool(truth))
    case TByte(octet) => Some(Byte(octet))
    case TInt(n, signed) => Some(Int(n, signed))
    case TFloat(bits) => Some(Float(bits))
    case TDouble(bits) => Some(Double(bits))
    case TString(text) => Some(String(text))
    case TObject(None) => Some(Nil)
    case TObject(Some(k)) =>
      if k >= |objects| then None
      else
        match objects[k]
        case SharedText(text) => Some(CString(text))
        case Class(_, _, _) => None                            // "Class Item??"
        case Placeholder => None                               // "what?? placeholder"
        case Instance(cls, members) =>
          if depth == 0 || cls >= |objects| || !objects[cls].Class? then None
          else
            var fields :- CollapseGroups(objects, members, depth - 1);
            Some(Object(objects[cls].name, fields))
  }

  function CollapseGroups(objects: seq<Cached>, groups: seq<seq<Typed>>, depth: nat): Option<seq<Group>>
    decreases depth, 2, |groups|
  {
    if groups == [] then Some([])
    else
      var first :- CollapseAll(objects, groups[0], depth);
      var others :- CollapseGroups(objects, groups[1..], depth);
      Some([Group(first)] + others)
  }

  function CollapseAll(objects: seq<Cached>, ts: seq<Typed>, depth: nat): Option<seq<Value>>
    decreases depth, 1, |ts|
  {
    if ts == [] then Some([])
    else
      var first :- Collapse(objects, ts[0], depth);
      var others :- CollapseAll(objects, ts[1..], depth);
      Some([first] + others)
  }

  /** `coder_decode_flattened` */
  function DecodeFlattened(data: bytes, depth: nat): Option<seq<Value>> {
    var (group, objects) :- Decode(data);
    CollapseAll(objects, group, depth)
  }
}
