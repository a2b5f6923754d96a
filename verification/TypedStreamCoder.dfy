/**
 `StreamTypedCoder` (src/util.rs) as it runs: a buffer is read or written and the caches and
 the arena of objects to encode change in place.  Every method is proved equal to the format
 function of module TypedStreamFormat, so the round trip holds of the coder itself.
 */
module TypedStreamCoder {
  import opened Bytes
  import opened Floats
  import opened TypedStreamFormat
  import opened TypedStreamRoundTrip

  // ----- what the methods are proved equal to -----

  /** A reading method's result and the state it leaves are the ones the format gives; None is a panic. */
  ghost predicate Took<T>(r: Option<T>, wanted: Option<(T, Input)>, after: Input) {
    match wanted
    case None => r.None?
    case Some((v, i)) => r == Some(v) && after == i
  }

  /** A tag already read, or the next byte. */
  function TagFrom(tag: Option<byte>, i: Input): Option<(byte, Input)> {
    if tag.Some? then Some((tag.value, i))
    else if i.data == [] then None
    else Some((i.data[0], i.(data := i.data[1..])))
  }

  function NumberFrom(tag: Option<byte>, i: Input): Option<(u32, Input)> {
    var (t, next) :- TagFrom(tag, i);
    var (n, rest) :- ReadNumber(t, next.data);
    Some((n, next.(data := rest)))
  }

  function FloatFrom(i: Input): Option<(float32, Input)> {
    var (t, next) :- TagFrom(None, i);
    var (float, rest) :- ReadFloat(t, next.data);
    Some((float, next.(data := rest)))
  }

  function DoubleFrom(i: Input): Option<(float64, Input)> {
    var (t, next) :- TagFrom(None, i);
    var (double, rest) :- ReadDouble(t, next.data);
    Some((double, next.(data := rest)))
  }

  function ReferenceFrom(tag: byte, i: Input): Option<(nat, Input)> {
    var (k, rest) :- ReadReference(tag, i.data);
    Some((k, i.(data := rest)))
  }

  function RawStringFrom(i: Input): Option<(bytes, Input)> {
    var (s, rest) :- ReadRawString(i.data);
    Some((s, i.(data := rest)))
  }

  function StringFrom(tag: Option<byte>, i: Input): Option<(Option<bytes>, Input)> {
    var (t, next) :- TagFrom(tag, i);
    ReadString(t, next)
  }

  function GroupFrom(tag: Option<byte>, i: Input): Option<(seq<Typed>, Input)> {
    var (t, next) :- TagFrom(tag, i);
    ReadGroup(t, next)
  }

  /** Items already read, then the rest of the read. */
  ghost function After<T>(done: seq<T>, r: Option<(seq<T>, Input)>): Option<(seq<T>, Input)> {
    match r
    case None => None
    case Some((more, i)) => Some((done + more, i))
  }

  lemma AfterNothing<T>(r: Option<(seq<T>, Input)>)
    ensures After([], r) == r
  {
    if r.Some? {
      assert [] + r.value.0 == r.value.0;
    }
  }

  lemma AfterTwice<T>(done: seq<T>, x: T, r: Option<(seq<T>, Input)>)
    ensures After(done, After([x], r)) == After(done + [x], r)
  {
    if r.Some? {
      assert done + ([x] + r.value.0) == done + [x] + r.value.0;
    }
  }

  lemma MembersStep(done: seq<seq<Typed>>, i: Input)
    requires i.data != [] && i.data[0] != FIELDS_END
    ensures var group := ReadGroup(i.data[0], i.(data := i.data[1..]));
      After(done, ReadMembers(i))
      == if group.None? then None else After(done + [group.value.0], ReadMembers(group.value.1))
  {
    var group := ReadGroup(i.data[0], i.(data := i.data[1..]));
    if group.Some? {
      AfterTwice(done, group.value.0, ReadMembers(group.value.1));
    }
  }

  lemma ValuesStep(done: seq<Typed>, codes: bytes, k: nat, i: Input)
    requires k < |codes|
    ensures var v := ReadValue(codes[k], i);
      After(done, ReadValues(codes[k..], i))
      == if v.None? then None else After(done + [v.value.0], ReadValues(codes[k + 1..], v.value.1))
  {
    var v := ReadValue(codes[k], i);
    assert codes[k..][1..] == codes[k + 1..];
    if v.Some? {
      AfterTwice(done, v.value.0, ReadValues(codes[k + 1..], v.value.1));
    }
  }

  // ----- the arena of values to encode -----

  /** `t` stands for `v`: objects and C strings are named by their index in the arena. */
  ghost predicate Denotes(arena: seq<Cached>, t: Typed, v: Value)
    decreases v, 0
  {
    match v
    case CString(text) =>
      t.TObject? && t.index.Some? && t.index.value < |arena| && arena[t.index.value] == SharedText(text)
    case Object(name, fields) =>
      && t.TObject? && t.index.Some? && t.index.value < |arena|
      && arena[t.index.value].Instance?
      && IsClassAt(arena, arena[t.index.value].cls, name)
      && DenotesFields(arena, arena[t.index.value].members, fields)
    case Nil => t == TObject(None)
    case Array(data) => t == TArray(data)
    case String(text) => t == TString(text)
    case Bool(truth) => t == TBool(truth)
    case Byte(octet) => t == TByte(octet)
    case Int(n, signed) => t == TInt(n, signed)
    case Float(bits) => t == TFloat(bits)
    case Double(bits) => t == TDouble(bits)
  }

  ghost predicate DenotesFields(arena: seq<Cached>, groups: seq<seq<Typed>>, fields: seq<Group>)
    decreases fields, 0
  {
    && |groups| == |fields|
    && forall k :: 0 <= k < |groups| ==> DenotesAll(arena, groups[k], fields[k].values)
  }

  ghost predicate DenotesAll(arena: seq<Cached>, ts: seq<Typed>, values: seq<Value>)
    decreases values, 1
  {
    |ts| == |values| && forall k :: 0 <= k < |ts| ==> Denotes(arena, ts[k], values[k])
  }

  /** Adding to the arena changes nothing that is denoted. */
  lemma {:induction false} DenotesMore(arena: seq<Cached>, later: seq<Cached>, t: Typed, v: Value)
    requires arena <= later && Denotes(arena, t, v)
    ensures Denotes(later, t, v)
    decreases v, 0
  {
    if v.Object? {
      DenotesFieldsMore(arena, later, arena[t.index.value].members, v.fields);
    }
  }

  lemma {:induction false} DenotesFieldsMore(arena: seq<Cached>, later: seq<Cached>, groups: seq<seq<Typed>>, fields: seq<Group>)
    requires arena <= later && DenotesFields(arena, groups, fields)
    ensures DenotesFields(later, groups, fields)
    decreases fields, 0
  {
    forall k | 0 <= k < |groups| ensures DenotesAll(later, groups[k], fields[k].values) {
      DenotesAllMore(arena, later, groups[k], fields[k].values);
    }
  }

  lemma {:induction false} DenotesAllMore(arena: seq<Cached>, later: seq<Cached>, ts: seq<Typed>, values: seq<Value>)
    requires arena <= later && DenotesAll(arena, ts, values)
    ensures DenotesAll(later, ts, values)
    decreases values, 1
  {
    forall k | 0 <= k < |ts| ensures Denotes(later, ts[k], values[k]) {
      DenotesMore(arena, later, ts[k], values[k]);
    }
  }

  // ----- writing steps -----

  /** Bytes already written, then the rest of the write. */
  ghost function Continue(done: bytes, w: Option<Written>): Option<Written> {
    match w
    case None => None
    case Some(Written(out, caches)) => Some(Written(done + out, caches))
  }

  lemma ContinueNothing(w: Option<Written>)
    ensures Continue([], w) == w
  {
    if w.Some? {
      assert [] + w.value.out == w.value.out;
    }
  }

  lemma ContinueTwice(a: bytes, b: bytes, w: Option<Written>)
    ensures Continue(a, Continue(b, w)) == Continue(a + b, w)
  {
    if w.Some? {
      assert a + (b + w.value.out) == a + b + w.value.out;
    }
  }

  lemma FourParts(a: bytes, b: bytes, c: bytes, d: bytes)
    ensures a + b + c + d == a + (b + c + d)
  {
  }

  lemma FiveParts(a: bytes, b: bytes, c: bytes, d: bytes, e: bytes)
    ensures a + (b + (c + (d + e))) == a + (b + c + d) + e
  {
  }

  lemma ObjectParts(a: bytes, b: bytes, c: bytes, d: bytes, e: bytes)
    ensures a + (b + c) + d + e == a + (b + (c + (d + e)))
  {
  }

  lemma ClassesStep(done: bytes, c: Caches, names: seq<bytes>, k: nat, version: u32)
    requires k < |names| && FirstIndex(c.objects, ClassSlot(names[k])).None?
    ensures var name := WriteString(c, names[k]);
      var known := name.caches.(objects := name.caches.objects + [ClassSlot(names[k])]);
      Continue(done, Some(WriteClasses(c, names[k..], version)))
      == Continue(done + ([TAG_START] + name.out + WriteNumber(version)), Some(WriteClasses(known, names[k + 1..], version)))
  {
    var name := WriteString(c, names[k]);
    var known := name.caches.(objects := name.caches.objects + [ClassSlot(names[k])]);
    var supers := WriteClasses(known, names[k + 1..], version).out;
    assert names[k..][0] == names[k] && names[k..][1..] == names[k + 1..];
    FiveParts(done, [TAG_START], name.out, WriteNumber(version), supers);
  }

  /** A class already cached ends the list, and so does the last class. */
  lemma ClassesEnd(done: bytes, c: Caches, names: seq<bytes>, k: nat, version: u32)
    requires k <= |names|
    ensures var end := Continue(done, Some(WriteClasses(c, names[k..], version)));
      && (k == |names| ==> end == Some(Written(done + [TAG_EMPTY], c)))
      && (k < |names| && FirstIndex(c.objects, ClassSlot(names[k])).Some? ==>
            end == Some(Written(done + WriteReference(FirstIndex(c.objects, ClassSlot(names[k])).value), c)))
  {
    if k < |names| {
      assert names[k..][0] == names[k];
    }
  }

  lemma GroupsStep(done: bytes, specs: seq<LegacyClass>, c: Caches, fields: seq<Group>, k: nat)
    requires k < |fields|
    ensures var first := WriteGroup(specs, c, fields[k].values);
      Continue(done, WriteFields(specs, c, fields[k..]))
      == if first.None? then None
         else Continue(done + first.value.out, WriteFields(specs, first.value.caches, fields[k + 1..]))
  {
    var first := WriteGroup(specs, c, fields[k].values);
    assert fields[k..][0] == fields[k] && fields[k..][1..] == fields[k + 1..];
    if first.Some? {
      ContinueTwice(done, first.value.out, WriteFields(specs, first.value.caches, fields[k + 1..]));
    }
  }

  lemma WriteValuesStep(done: bytes, specs: seq<LegacyClass>, c: Caches, values: seq<Value>, k: nat)
    requires k < |values|
    ensures var first := WriteValue(specs, c, values[k]);
      Continue(done, WriteValues(specs, c, values[k..]))
      == if first.None? then None
         else Continue(done + first.value.out, WriteValues(specs, first.value.caches, values[k + 1..]))
  {
    var first := WriteValue(specs, c, values[k]);
    assert values[k..][0] == values[k] && values[k..][1..] == values[k + 1..];
    if first.Some? {
      ContinueTwice(done, first.value.out, WriteValues(specs, first.value.caches, values[k + 1..]));
    }
  }

  lemma {:induction false} TypeCodesAppend(group: seq<Value>, v: Value)
    ensures TypeCodes(group + [v]) == TypeCodes(group) + TypeCode(v)
  {
    if group == [] {
      assert [v][1..] == [];
      assert TypeCode(v) + [] == TypeCode(v);
    } else {
      assert (group + [v])[1..] == group[1..] + [v];
      TypeCodesAppend(group[1..], v);
    }
  }

  class Coder {
    var buffer: bytes
    var stringCache: seq<bytes>
    var objectCache: seq<Cached>
    var encodeObjects: seq<Cached>
    const specs: seq<LegacyClass>

    constructor (buffer: bytes, specs: seq<LegacyClass>)
      ensures this.buffer == buffer && this.specs == specs
      ensures stringCache == [] && objectCache == [] && encodeObjects == []
    {
      this.buffer, this.specs := buffer, specs;
      stringCache, objectCache, encodeObjects := [], [], [];
    }

    // ----- reading -----

    ghost function In(): Input
      reads this
    {
      Input(buffer, stringCache, objectCache)
    }

    method ReadTag(tag: Option<byte>) returns (r: Option<byte>)
      modifies this`buffer
      ensures Took(r, TagFrom(tag, old(In())), In())
    {
      if tag.Some? {
        return tag;
      }
      if buffer == [] {
        return None;
      }
      r := Some(buffer[0]);
      buffer := buffer[1..];
    }

    method ReadVec(count: nat) returns (r: Option<bytes>)
      modifies this`buffer
      ensures count <= |old(buffer)| ==> r == Some(old(buffer)[..count]) && buffer == old(buffer)[count..]
      ensures count > |old(buffer)| ==> r == None
    {
      if count > |buffer| {
        return None;
      }
      r := Some(buffer[..count]);
      buffer := buffer[count..];
    }

    method ReadU32(tag: Option<byte>) returns (r: Option<u32>)
      modifies this`buffer
      ensures Took(r, NumberFrom(tag, old(In())), In())
    {
      var t :- ReadTag(tag);
      if t == 0x81 {
        var data :- ReadVec(2);
        FitsU32(data);
        r := Some(FromLittleEndian(data));
      } else if t == 0x82 {
        var data :- ReadVec(4);
        FitsU32(data);
        r := Some(FromLittleEndian(data));
      } else if InTagRange(t) {
        r := None;
      } else {
        r := Some(t);
      }
    }

    method ReadF32() returns (r: Option<float32>)
      modifies this`buffer
      ensures Took(r, FloatFrom(old(In())), In())
    {
      var t :- ReadTag(None);
      if t == 0x83 {
        var data :- ReadVec(4);
        r := Some(data);
      } else {
        var n :- ReadU32(Some(t));
        r := Some(ToFloat(n));
      }
    }

    method ReadF64() returns (r: Option<float64>)
      modifies this`buffer
      ensures Took(r, DoubleFrom(old(In())), In())
    {
      var t :- ReadTag(None);
      if t == 0x83 {
        var data :- ReadVec(8);
        r := Some(data);
      } else {
        var n :- ReadU32(Some(t));
        r := Some(ToDouble(n));
      }
    }

    /** The cache index of a reference; `tag` has been read. */
    method ReadRef(tag: byte) returns (r: Option<nat>)
      modifies this`buffer
      ensures Took(r, ReferenceFrom(tag, old(In())), In())
    {
      var n :- ReadU32(Some(tag));
      r := if n < REF_START then None else Some(n - REF_START);
    }

    method ReadStringRaw() returns (r: Option<bytes>)
      modifies this`buffer
      ensures Took(r, RawStringFrom(old(In())), In())
    {
      var len :- ReadU32(None);
      var s :- ReadVec(len);
      r := if IsUtf8(s) then Some(s) else None;
    }

    method ReadText(tag: Option<byte>) returns (r: Option<Option<bytes>>)
      modifies this`buffer, this`stringCache
      ensures Took(r, StringFrom(tag, old(In())), In())
    {
      var t :- ReadTag(tag);
      if t == TAG_START {
        var s :- ReadStringRaw();
        stringCache := stringCache + [s];
        r := Some(Some(s));
      } else if t == TAG_EMPTY {
        r := Some(None);
      } else {
        var k :- ReadRef(t);
        r := if k < |stringCache| then Some(Some(stringCache[k])) else None;
      }
    }

    method DecodeClassList() returns (r: Option<Option<nat>>)
      modifies this`buffer, this`stringCache, this`objectCache
      ensures Took(r, ReadClasses(old(In())), In())
      decreases |buffer|
    {
      var t :- ReadTag(None);
      if t == TAG_START {
        var currentLen := |objectCache|;
        var name :- ReadText(None);
        if name.None? {
          return None;
        }
        var version :- ReadU32(None);
        var parent :- DecodeClassList();
        objectCache := InsertAt(objectCache, currentLen, Class(parent, version, name.value));
        r := Some(Some(currentLen));
      } else if t == TAG_EMPTY {
        r := Some(None);
      } else {
        var k :- ReadRef(t);
        r := Some(Some(k));
      }
    }

    method DecodeCString() returns (r: Option<Option<nat>>)
      modifies this`buffer, this`stringCache, this`objectCache
      ensures Took(r, ReadCString(old(In())), In())
    {
      var t :- ReadTag(None);
      if t == TAG_START {
        var text :- ReadText(None);
        if text.None? {
          return None;
        }
        var size := |objectCache|;
        objectCache := objectCache + [SharedText(text.value)];
        r := Some(Some(size));
      } else if t == TAG_EMPTY {
        r := Some(None);
      } else {
        var k :- ReadRef(t);
        r := Some(Some(k));
      }
    }

    method DecodeObject() returns (r: Option<Option<nat>>)
      modifies this`buffer, this`stringCache, this`objectCache
      ensures Took(r, ReadObject(old(In())), In())
      decreases |buffer|, 0
    {
      var t :- ReadTag(None);
      if t == TAG_START {
        var index := |objectCache|;
        objectCache := objectCache + [Placeholder];
        var cls :- DecodeClassList();
        if cls.None? {
          return None;
        }
        var members :- DecodeMembers();
        objectCache := objectCache[index := Instance(cls.value, members)];
        r := Some(Some(index));
      } else if t == TAG_EMPTY {
        r := Some(None);
      } else {
        var k :- ReadRef(t);
        r := Some(Some(k));
      }
    }

    /** The groups up to the end tag. */
    method DecodeMembers() returns (r: Option<seq<seq<Typed>>>)
      modifies this`buffer, this`stringCache, this`objectCache
      ensures Took(r, ReadMembers(old(In())), In())
      decreases |buffer|, 4
    {
      var members: seq<seq<Typed>> := [];
      ghost var wanted := ReadMembers(In());
      AfterNothing(wanted);
      while true
        invariant wanted == After(members, ReadMembers(In()))
        invariant |buffer| <= |old(buffer)|
        decreases |buffer|
      {
        ghost var before := In();
        var next :- ReadTag(None);
        if next == FIELDS_END {
          assert members + [] == members;
          return Some(members);
        }
        MembersStep(members, before);
        var group :- DecodeType(Some(next));
        members := members + [group];
      }
    }

    method DecodeType(tag: Option<byte>) returns (r: Option<seq<Typed>>)
      modifies this`buffer, this`stringCache, this`objectCache
      ensures Took(r, GroupFrom(tag, old(In())), In())
      decreases |buffer|, 3
    {
      var types :- ReadText(tag);
      if types.None? {
        return None;
      }
      r := DecodeAs(types.value);
    }

    /** The values that a type string announces. */
    method DecodeAs(types: bytes) returns (r: Option<seq<Typed>>)
      modifies this`buffer, this`stringCache, this`objectCache
      ensures Took(r, ReadTypes(types, old(In())), In())
      decreases |buffer|, 2, 1
    {
      if IsArrayType(types) {
        var size :- ParseSize(types[1..|types| - 2]);
        var data :- ReadVec(size);
        r := Some([TArray(data)]);
      } else {
        r := DecodeEach(types);
      }
    }

    /** One value for each character of the type string. */
    method DecodeEach(codes: bytes) returns (r: Option<seq<Typed>>)
      modifies this`buffer, this`stringCache, this`objectCache
      ensures Took(r, ReadValues(codes, old(In())), In())
      decreases |buffer|, 2, 0
    {
      var values: seq<Typed> := [];
      ghost var wanted := ReadValues(codes, In());
      AfterNothing(wanted);
      assert codes[0..] == codes;
      for k := 0 to |codes|
        invariant wanted == After(values, ReadValues(codes[k..], In()))
        invariant |buffer| <= |old(buffer)|
      {
        ValuesStep(values, codes, k, In());
        var v :- DecodeValue(codes[k]);
        values := values + [v];
      }
      assert values + [] == values;
      r := Some(values);
    }

    method DecodeValue(code: byte) returns (r: Option<Typed>)
      modifies this`buffer, this`stringCache, this`objectCache
      ensures Took(r, ReadValue(code, old(In())), In())
      decreases |buffer|, 1
    {
      if code == 0x40 {
        var k :- DecodeObject();
        r := Some(TObject(k));
      } else if code == 0x2A {
        var k :- DecodeCString();
        r := Some(TObject(k));
      } else if code == 0x2B {
        var s :- ReadStringRaw();
        r := Some(TString(s));
      } else if code == 0x42 {
        var b :- ReadTag(None);
        r := Some(TBool(b == 1));
      } else if code == 0x43 || code == 0x63 {
        var b :- ReadTag(None);
        r := Some(TByte(b));
      } else if IsSigned(code) || IsUnsigned(code) {
        var n :- ReadU32(None);
        r := Some(TInt(n, IsSigned(code)));
      } else if code == 0x66 {
        var float :- ReadF32();
        r := Some(TFloat(float));
      } else if code == 0x64 {
        var double :- ReadF64();
        r := Some(TDouble(double));
      } else {
        r := None;
      }
    }

    method DecodeStream() returns (r: Option<seq<Typed>>)
      requires stringCache == [] && objectCache == []
      modifies this`buffer, this`stringCache, this`objectCache
      ensures match Decode(old(buffer))
              case None => r.None?
              case Some((group, objects)) => r == Some(group) && objectCache == objects
    {
      var version :- ReadTag(None);
      if version != VERSION {
        return None;
      }
      var header :- ReadStringRaw();
      if header != HEADER {
        return None;
      }
      var system :- ReadU32(None);
      if system != SYSTEM {
        return None;
      }
      r := DecodeType(None);
    }

    // ----- writing -----

    ghost function C(): Caches
      reads this
    {
      Caches(stringCache, Slots(objectCache))
    }

    /** The bytes `wanted` have been appended to `before` and the caches are its caches. */
    ghost predicate Wrote(wanted: Written, before: bytes)
      reads this
    {
      buffer == before + wanted.out && C() == wanted.caches
    }

    method WriteBytes(data: bytes)
      modifies this`buffer
      ensures buffer == old(buffer) + data
    {
      buffer := buffer + data;
    }

    method WriteU32(n: u32)
      modifies this`buffer
      ensures buffer == old(buffer) + WriteNumber(n)
    {
      if n % 0x100 == n && n < 0x80 {
        WriteBytes([n]);
      } else if n % 0x1_0000 == n {
        WriteBytes([0x81] + LittleEndian(n, 2));
      } else {
        WriteBytes([0x82] + LittleEndian(n, 4));
      }
    }

    method WriteRef(index: nat)
      modifies this`buffer
      ensures buffer == old(buffer) + WriteReference(index)
    {
      var n := (REF_START + index) % U32;
      if n % 0x100 == n && !InTagRange(n) {
        WriteBytes([n]);
      } else if n % 0x1_0000 == n {
        WriteBytes([0x81] + LittleEndian(n, 2));
      } else {
        WriteBytes([0x82] + LittleEndian(n, 4));
      }
    }

    method WriteStringRaw(s: bytes)
      modifies this`buffer
      ensures buffer == old(buffer) + WriteRawString(s)
    {
      WriteU32(|s| % U32);
      Assoc(old(buffer), WriteNumber(|s| % U32), s);
      WriteBytes(s);
    }

    method WriteText(s: bytes)
      modifies this`buffer, this`stringCache
      ensures Wrote(WriteString(old(C()), s), old(buffer))
    {
      var existing := FirstIndex(stringCache, s);
      if existing.Some? {
        WriteRef(existing.value);
      } else {
        WriteBytes([TAG_START]);
        Assoc(old(buffer), [TAG_START], WriteRawString(s));
        WriteStringRaw(s);
        stringCache := stringCache + [s];
      }
    }

    method WriteNewClass(name: bytes, version: u32)
      modifies this`buffer, this`stringCache, this`objectCache
      ensures var w := WriteString(old(C()), name);
        && buffer == old(buffer) + ([TAG_START] + w.out + WriteNumber(version))
        && C() == w.caches.(objects := w.caches.objects + [ClassSlot(name)])
      ensures objectCache == old(objectCache) + [Class(None, 0, name)]
    {
      ghost var out := WriteString(C(), name).out;
      WriteBytes([TAG_START]);
      WriteText(name);
      WriteU32(version);
      FourParts(old(buffer), [TAG_START], out, WriteNumber(version));
      SlotsAppend(objectCache, [Class(None, 0, name)]);
      objectCache := objectCache + [Class(None, 0, name)];
    }

    /** The classes before `k` have been written. */
    ghost predicate ClassesWritten(wanted: Written, names: seq<bytes>, k: nat, version: u32, before: bytes, done: bytes)
      requires k <= |names|
      reads this
    {
      && buffer == before + done
      && Some(wanted) == Continue(done, Some(WriteClasses(C(), names[k..], version)))
      && (k > 0 ==> ClassSlot(names[0]) in C().objects)
    }

    /** Returns where the cache holds the class itself; None for an unknown class. */
    method WriteClassList(cls: nat) returns (r: Option<nat>)
      requires cls < |encodeObjects| && encodeObjects[cls].Class? && LegacyOk(specs)
      modifies this`buffer, this`stringCache, this`objectCache
      ensures var meta := FindLegacy(specs, encodeObjects[cls].name);
        && r.Some? == meta.Some?
        && (r.Some? ==> Wrote(WriteClasses(old(C()), Names(meta.value.classes), meta.value.version), old(buffer)))
      ensures r.Some? ==> old(objectCache) <= objectCache
    {
      var className := encodeObjects[cls].name;
      var meta :- FindLegacy(specs, className);
      var names := Names(meta.classes);
      r := WriteNames(names, meta.version);
    }

    method WriteNames(names: seq<bytes>, version: u32) returns (r: Option<nat>)
      requires names != []
      modifies this`buffer, this`stringCache, this`objectCache
      ensures r.Some? && Wrote(WriteClasses(old(C()), names, version), old(buffer))
      ensures old(objectCache) <= objectCache
    {
      ghost var wanted := WriteClasses(C(), names, version);
      ghost var done: bytes := [];
      ContinueNothing(Some(wanted));
      assert names[0..] == names;
      for k := 0 to |names|
        invariant ClassesWritten(wanted, names, k, version, old(buffer), done)
        invariant old(objectCache) <= objectCache
      {
        var existing := FirstIndex(Slots(objectCache), ClassSlot(names[k]));
        if existing.Some? {
          ClassesEnd(done, C(), names, k, version);
          Assoc(old(buffer), done, WriteReference(existing.value));
          WriteRef(existing.value);
          return FirstIndex(Slots(objectCache), ClassSlot(names[0]));
        }
        ghost var more := [TAG_START] + WriteString(C(), names[k]).out + WriteNumber(version);
        ClassesStep(done, C(), names, k, version);
        WriteNewClass(names[k], version);
        Assoc(old(buffer), done, more);
        done := done + more;
      }
      ClassesEnd(done, C(), names, |names|, version);
      Assoc(old(buffer), done, [TAG_EMPTY]);
      WriteBytes([TAG_EMPTY]);
      r := FirstIndex(Slots(objectCache), ClassSlot(names[0]));
    }

    method WriteCText(text: bytes)
      modifies this`buffer, this`stringCache, this`objectCache
      ensures Wrote(WriteCString(old(C()), text), old(buffer))
    {
      var existing := FirstIndex(Slots(objectCache), TextSlot(text));
      if existing.Some? {
        WriteRef(existing.value);
      } else {
        WriteBytes([TAG_START]);
        Assoc(old(buffer), [TAG_START], WriteString(old(C()), text).out);
        WriteText(text);
        SlotsAppend(objectCache, [SharedText(text)]);
        objectCache := objectCache + [SharedText(text)];
      }
    }

    /** A value's type, as the arena knows it. */
    function CodeOf(t: Typed, ghost v: Value): (r: bytes)
      requires Denotes(encodeObjects, t, v)
      reads this
      ensures r == TypeCode(v)
    {
      match t
      case TObject(Some(k)) => if encodeObjects[k].SharedText? then [0x2A] else [0x40]
      case TObject(None) => [0x40]
      case TArray(data) => [0x5B] + Decimal(|data|) + [0x63, 0x5D]
      case TString(_) => [0x2B]
      case TBool(_) => [0x42]
      case TByte(_) => [0x63]
      case TInt(_, signed) => if signed then [0x69] else [0x49]
      case TFloat(_) => [0x66]
      case TDouble(_) => [0x64]
    }

    method EncodeType(ts: seq<Typed>, ghost values: seq<Value>) returns (ok: bool)
      requires DenotesAll(encodeObjects, ts, values) && LegacyOk(specs)
      modifies this`buffer, this`stringCache, this`objectCache
      ensures ok == WriteGroup(specs, old(C()), values).Some?
      ensures ok ==> Wrote(WriteGroup(specs, old(C()), values).value, old(buffer))
      decreases values, 2
    {
      var tag := TagOf(ts, values);
      ghost var codes := WriteString(C(), tag);
      WriteText(tag);
      ghost var wanted := WriteValues(specs, codes.caches, values);
      ok := EncodeValues(ts, values);
      if ok {
        Assoc(old(buffer), codes.out, wanted.value.out);
      }
    }

    method TagOf(ts: seq<Typed>, ghost values: seq<Value>) returns (tag: bytes)
      requires DenotesAll(encodeObjects, ts, values)
      ensures tag == TypeCodes(values)
    {
      tag := [];
      for k := 0 to |ts|
        invariant tag == TypeCodes(values[..k])
      {
        assert values[..k + 1] == values[..k] + [values[k]];
        TypeCodesAppend(values[..k], values[k]);
        tag := tag + CodeOf(ts[k], values[k]);
      }
      assert values[..|ts|] == values;
    }

    method EncodeValues(ts: seq<Typed>, ghost values: seq<Value>) returns (ok: bool)
      requires DenotesAll(encodeObjects, ts, values) && LegacyOk(specs)
      modifies this`buffer, this`stringCache, this`objectCache
      ensures ok == WriteValues(specs, old(C()), values).Some?
      ensures ok ==> Wrote(WriteValues(specs, old(C()), values).value, old(buffer))
      decreases values, 1
    {
      ghost var wanted := WriteValues(specs, C(), values);
      ghost var done: bytes := [];
      ContinueNothing(wanted);
      assert values[0..] == values;
      for k := 0 to |ts|
        invariant buffer == old(buffer) + done
        invariant wanted == Continue(done, WriteValues(specs, C(), values[k..]))
      {
        ghost var first := WriteValue(specs, C(), values[k]);
        WriteValuesStep(done, specs, C(), values, k);
        ok := EncodeValue(ts[k], values[k]);
        if !ok {
          return;
        }
        Assoc(old(buffer), done, first.value.out);
        done := done + first.value.out;
      }
      assert done + [] == done;
      ok := true;
    }

    method EncodeValue(t: Typed, ghost v: Value) returns (ok: bool)
      requires Denotes(encodeObjects, t, v) && LegacyOk(specs)
      modifies this`buffer, this`stringCache, this`objectCache
      ensures ok == WriteValue(specs, old(C()), v).Some?
      ensures ok ==> Wrote(WriteValue(specs, old(C()), v).value, old(buffer))
      decreases v, 2
    {
      ok := true;
      match t {
        case TObject(Some(k)) =>
          if encodeObjects[k].SharedText? {
            WriteCText(encodeObjects[k].text);
          } else {
            ok := EncodeObject(encodeObjects[k].cls, encodeObjects[k].members, v);
          }
        case TObject(None) => WriteBytes([TAG_EMPTY]);
        case TArray(data) => WriteBytes(data);
        case TString(text) => WriteStringRaw(text);
        case TBool(truth) => WriteBytes([if truth then 1 else 0]);
        case TByte(octet) => WriteBytes([octet]);
        case TInt(n, _) => WriteU32(n);
        case TFloat(bits) => WriteBytes([0x83] + bits);
        case TDouble(bits) => WriteBytes([0x83] + bits);
      }
    }

    /** The entry for an object and its class list. */
    method StartObject(cls: nat, members: seq<seq<Typed>>, ghost name: bytes) returns (ok: bool)
      requires IsClassAt(encodeObjects, cls, name) && LegacyOk(specs)
      modifies this`buffer, this`stringCache, this`objectCache
      ensures var meta := FindLegacy(specs, name);
        && ok == meta.Some?
        && (ok ==>
              var started := old(C()).(objects := old(C()).objects + [InstanceSlot]);
              var w := WriteClasses(started, Names(meta.value.classes), meta.value.version);
              buffer == old(buffer) + ([TAG_START] + w.out) && C() == w.caches)
    {
      WriteBytes([TAG_START]);
      var index := |objectCache|;
      PlaceholderReady(C(), objectCache);
      objectCache := objectCache + [Placeholder];
      ghost var started := C();
      var known := WriteClassList(cls);
      if known.None? {
        return false;
      }
      ghost var meta := FindLegacy(specs, name).value;
      Assoc(old(buffer), [TAG_START], WriteClasses(started, Names(meta.classes), meta.version).out);
      FillPlaceholder(old(objectCache), objectCache, Instance(known.value, members));
      objectCache := objectCache[index := Instance(known.value, members)];
      ok := true;
    }

    method EncodeObject(cls: nat, members: seq<seq<Typed>>, ghost v: Value) returns (ok: bool)
      requires v.Object? && LegacyOk(specs)
      requires IsClassAt(encodeObjects, cls, v.name) && DenotesFields(encodeObjects, members, v.fields)
      modifies this`buffer, this`stringCache, this`objectCache
      ensures ok == WriteValue(specs, old(C()), v).Some?
      ensures ok ==> Wrote(WriteValue(specs, old(C()), v).value, old(buffer))
      decreases v, 1
    {
      ghost var started := C().(objects := C().objects + [InstanceSlot]);
      ok := StartObject(cls, members, v.name);
      if !ok {
        return;
      }
      ghost var meta := FindLegacy(specs, v.name).value;
      ghost var classes := WriteClasses(started, Names(meta.classes), meta.version);
      ok := EncodeMembers(members, v.fields);
      if !ok {
        return;
      }
      WriteBytes([FIELDS_END]);
      ghost var fields := WriteFields(specs, classes.caches, v.fields).value;
      ObjectParts(old(buffer), [TAG_START], classes.out, fields.out, [FIELDS_END]);
    }

    method EncodeMembers(members: seq<seq<Typed>>, ghost fields: seq<Group>) returns (ok: bool)
      requires DenotesFields(encodeObjects, members, fields) && LegacyOk(specs)
      modifies this`buffer, this`stringCache, this`objectCache
      ensures ok == WriteFields(specs, old(C()), fields).Some?
      ensures ok ==> Wrote(WriteFields(specs, old(C()), fields).value, old(buffer))
      decreases fields, 1
    {
      ghost var wanted := WriteFields(specs, C(), fields);
      ghost var done: bytes := [];
      ContinueNothing(wanted);
      assert fields[0..] == fields;
      for k := 0 to |members|
        invariant buffer == old(buffer) + done
        invariant wanted == Continue(done, WriteFields(specs, C(), fields[k..]))
      {
        ghost var first := WriteGroup(specs, C(), fields[k].values);
        GroupsStep(done, specs, C(), fields, k);
        ok := EncodeType(members[k], fields[k].values);
        if !ok {
          return;
        }
        Assoc(old(buffer), done, first.value.out);
        done := done + first.value.out;
      }
      assert done + [] == done;
      ok := true;
    }

    method EncodeStream(ts: seq<Typed>, ghost values: seq<Value>) returns (ok: bool)
      requires buffer == [] && stringCache == [] && objectCache == []
      requires DenotesAll(encodeObjects, ts, values) && LegacyOk(specs)
      modifies this`buffer, this`stringCache, this`objectCache
      ensures ok == Encode(specs, values).Some?
      ensures ok ==> Wrote(Encode(specs, values).value, [])
    {
      assert C() == Caches([], []);
      WriteBytes([VERSION]);
      WriteStringRaw(HEADER);
      WriteU32(SYSTEM);
      ok := EncodeType(ts, values);
      if ok {
        ghost var group := WriteGroup(specs, Caches([], []), values).value;
        StreamLayout(WriteRawString(HEADER), WriteNumber(SYSTEM), group.out);
      }
    }

    method AddSerializeValue(val: Cached) returns (index: nat)
      modifies this`encodeObjects
      ensures index == |old(encodeObjects)| && encodeObjects == old(encodeObjects) + [val]
    {
      index := |encodeObjects|;
      encodeObjects := encodeObjects + [val];
    }

    method ValueToType(v: Value) returns (t: Typed)
      modifies this`encodeObjects
      ensures old(encodeObjects) <= encodeObjects && Denotes(encodeObjects, t, v)
      decreases v, 0
    {
      match v {
        case Array(data) => t := TArray(data);
        case Bool(truth) => t := TBool(truth);
        case Byte(octet) => t := TByte(octet);
        case Double(bits) => t := TDouble(bits);
        case Float(bits) => t := TFloat(bits);
        case Int(n, signed) => t := TInt(n, signed);
        case String(text) => t := TString(text);
        case CString(text) =>
          var index := AddSerializeValue(SharedText(text));
          t := TObject(Some(index));
        case Nil => t := TObject(None);
        case Object(name, fields) =>
          var cls := AddSerializeValue(Class(None, 0, name));
          var members := FieldsToTypes(fields);
          ghost var arena := encodeObjects;
          var index := AddSerializeValue(Instance(cls, members));
          DenotesFieldsMore(arena, encodeObjects, members, fields);
          t := TObject(Some(index));
      }
    }

    method FieldsToTypes(fields: seq<Group>) returns (members: seq<seq<Typed>>)
      modifies this`encodeObjects
      ensures old(encodeObjects) <= encodeObjects && DenotesFields(encodeObjects, members, fields)
      decreases fields, 0
    {
      members := [];
      for k := 0 to |fields|
        invariant old(encodeObjects) <= encodeObjects
        invariant DenotesFields(encodeObjects, members, fields[..k])
      {
        ghost var arena := encodeObjects;
        var group := ValuesToTypes(fields[k].values);
        DenotesFieldsMore(arena, encodeObjects, members, fields[..k]);
        assert fields[..k + 1] == fields[..k] + [fields[k]];
        members := members + [group];
      }
      assert fields[..|fields|] == fields;
    }

    method ValuesToTypes(values: seq<Value>) returns (ts: seq<Typed>)
      modifies this`encodeObjects
      ensures old(encodeObjects) <= encodeObjects && DenotesAll(encodeObjects, ts, values)
      decreases values, 0
    {
      ts := [];
      for k := 0 to |values|
        invariant old(encodeObjects) <= encodeObjects
        invariant DenotesAll(encodeObjects, ts, values[..k])
      {
        ghost var arena := encodeObjects;
        var t := ValueToType(values[k]);
        DenotesAllMore(arena, encodeObjects, ts, values[..k]);
        assert values[..k + 1] == values[..k] + [values[k]];
        ts := ts + [t];
      }
      assert values[..|values|] == values;
    }
  }

  lemma StreamLayout(header: bytes, system: bytes, group: bytes)
    ensures [VERSION] + header + system + group == [VERSION] + (header + (system + group))
    ensures [] + [VERSION] == [VERSION]
  {
  }

  /** `coder_encode_flattened`; None for a class the coder does not know. */
  method EncodeStreamFlattened(values: seq<Value>) returns (r: Option<bytes>)
    ensures r.Some? == Encode(LEGACY_SPECS, values).Some?
    ensures r.Some? ==> r.value == Encode(LEGACY_SPECS, values).value.out
  {
    LegacySpecsOk();
    var encoder := new Coder([], LEGACY_SPECS);
    var ts := encoder.ValuesToTypes(values);
    var ok := encoder.EncodeStream(ts, values);
    r := if ok then Some(encoder.buffer) else None;
  }

  /** `coder_decode_flattened` */
  method DecodeStreamFlattened(data: bytes, depth: nat) returns (r: Option<seq<Value>>)
    ensures r == DecodeFlattened(data, depth)
  {
    var decoder := new Coder(data, LEGACY_SPECS);
    var result :- decoder.DecodeStream();
    r := CollapseAll(decoder.objectCache, result, depth);
  }

  /** Encoding and decoding with two coders gives the values back exactly when arrays are alone. */
  method RoundTrip(values: seq<Value>, depth: nat) returns (r: Option<seq<Value>>)
    requires WritableGroup(LEGACY_SPECS, values) && HeightAll(values) <= depth
    requires Encode(LEGACY_SPECS, values).Some? ==> Small(Encode(LEGACY_SPECS, values).value.caches)
    ensures r == Some(values) <==> ArraysAloneGroup(values)
  {
    DecodeOfEncodeLegacy(values, depth);
    var encoded := EncodeStreamFlattened(values);
    r := DecodeStreamFlattened(encoded.value, depth);
  }
}
