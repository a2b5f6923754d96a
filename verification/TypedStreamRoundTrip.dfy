/**
 Reading a typedstream back (src/util.rs): the decoder rebuilds the encoder's string and
 object caches index for index, and its values collapse to the tree that was written.
 */
module TypedStreamRoundTrip {
  import opened Bytes
  import opened TypedStreamFormat

  // ----- numbers and strings -----

  /** The first byte of `a + b` and what follows it. */
  lemma Behind(a: bytes, b: bytes)
    requires |a| >= 1
    ensures (a + b)[0] == a[0] && (a + b)[1..] == a[1..] + b
  {
  }

  lemma TakeDrop(a: bytes, b: bytes)
    ensures (a + b)[..|a|] == a && (a + b)[|a|..] == b
  {
  }

  lemma ReadFixed(n: u32, k: nat, tag: byte, rest: bytes)
    requires (k == 2 && tag == 0x81 && n < 0x1_0000) || (k == 4 && tag == 0x82)
    ensures ReadNumber(tag, LittleEndian(n, k) + rest) == Some((n, rest))
  {
    assert Pow256(2) == 0x1_0000;
    assert Pow256(4) == 0x1_0000 * Pow256(2);
    LittleEndianRoundTrip(n, k);
    TakeDrop(LittleEndian(n, k), rest);
  }

  lemma ReadNumberOfWrite(n: u32, rest: bytes)
    ensures var b := WriteNumber(n); ReadNumber(b[0], b[1..] + rest) == Some((n, rest))
  {
    if n < 0x80 {
      assert [n][1..] + rest == rest;
    } else if n < 0x1_0000 {
      assert WriteNumber(n)[1..] == LittleEndian(n, 2);
      ReadFixed(n, 2, 0x81, rest);
    } else {
      assert WriteNumber(n)[1..] == LittleEndian(n, 4);
      ReadFixed(n, 4, 0x82, rest);
    }
  }

  /** A reference is read back, and its first byte is no other tag. */
  lemma ReadReferenceOfWrite(index: nat, rest: bytes)
    requires REF_START + index < U32
    ensures var b := WriteReference(index);
      && b[0] != TAG_START && b[0] != TAG_EMPTY && b[0] != FIELDS_END
      && ReadReference(b[0], b[1..] + rest) == Some((index, rest))
  {
    var n := REF_START + index;
    if n < 0x100 {
      assert [n][1..] + rest == rest;
    } else if n < 0x1_0000 {
      assert WriteReference(index)[1..] == LittleEndian(n, 2);
      ReadFixed(n, 2, 0x81, rest);
    } else {
      assert WriteReference(index)[1..] == LittleEndian(n, 4);
      ReadFixed(n, 4, 0x82, rest);
    }
  }

  ghost predicate IsText(s: bytes) {
    IsUtf8(s) && |s| < U32
  }

  lemma ReadRawStringOfWrite(s: bytes, rest: bytes)
    requires IsText(s)
    ensures ReadRawString(WriteRawString(s) + rest) == Some((s, rest))
  {
    var head := WriteNumber(|s|);
    assert WriteRawString(s) == head + s;
    Assoc(head, s, rest);
    Behind(head, s + rest);
    ReadNumberOfWrite(|s|, s + rest);
    TakeDrop(s, rest);
  }

  /** The indices of the caches fit a u32. */
  ghost predicate Small(c: Caches) {
    |c.strings| + REF_START <= U32 && |c.objects| + REF_START <= U32
  }

  /** A shared string is read back, and the string cache grows as the encoder's did. */
  lemma ReadStringOfWrite(c: Caches, s: bytes, rest: bytes, ds: seq<Cached>)
    requires IsText(s) && Small(c)
    ensures var w := WriteString(c, s);
      && w.out[0] != TAG_EMPTY && w.out[0] != FIELDS_END
      && ReadString(w.out[0], Input(w.out[1..] + rest, c.strings, ds))
         == Some((Some(s), Input(rest, w.caches.strings, ds)))
      && w.caches.objects == c.objects
  {
    var w := WriteString(c, s);
    match FirstIndex(c.strings, s)
    case Some(i) => ReadReferenceOfWrite(i, rest);
    case None =>
      assert w.out[1..] == WriteRawString(s);
      ReadRawStringOfWrite(s, rest);
  }

  lemma ReadNameOfWrite(c: Caches, s: bytes, rest: bytes, ds: seq<Cached>)
    requires IsText(s) && Small(c)
    ensures var w := WriteString(c, s);
      ReadName(Input(w.out + rest, c.strings, ds)) == Some((s, Input(rest, w.caches.strings, ds)))
  {
    ReadStringOfWrite(c, s, rest, ds);
    Behind(WriteString(c, s).out, rest);
  }

  // ----- the object cache -----

  function Slots(ds: seq<Cached>): (r: seq<Slot>)
    ensures |r| == |ds|
    ensures forall k :: 0 <= k < |ds| ==> r[k] == SlotOf(ds[k])
  {
    seq(|ds|, k requires 0 <= k < |ds| => SlotOf(ds[k]))
  }

  lemma SlotsAppend(a: seq<Cached>, b: seq<Cached>)
    ensures Slots(a + b) == Slots(a) + Slots(b)
  {
  }

  ghost predicate IsClassAt(ds: seq<Cached>, k: nat, name: bytes) {
    k < |ds| && ds[k].Class? && ds[k].name == name
  }

  /**
   The class list: the decoder inserts each class where its cache ended before the
   superclasses were read, so the new entries come in the encoder's order.  `added`
   are classes of the same list that the encoder has cached and the decoder has not.
   */
  lemma {:induction false} ReadClassesOfWrite(
    c: Caches, base: seq<Slot>, added: seq<Slot>, classes: seq<bytes>, version: u32, ds: seq<Cached>, rest: bytes)
    requires c.objects == base + added && base == Slots(ds)
    requires forall k :: 0 <= k < |classes| ==> IsText(classes[k])
    requires Small(WriteClasses(c, classes, version).caches)
    ensures var w := WriteClasses(c, classes, version);
      var r := ReadClasses(Input(w.out + rest, c.strings, ds));
      && r.Some?
      && r.value.1.data == rest && r.value.1.strings == w.caches.strings
      && ds <= r.value.1.objects
      && w.caches.objects == base + added + Slots(r.value.1.objects[|ds|..])
      && (classes == [] ==> r.value.0 == None)
      && (classes != [] ==> r.value.0.Some?)
      && (classes != [] && added == [] ==> IsClassAt(r.value.1.objects, r.value.0.value, classes[0]))
    decreases |classes|
  {
    var w := WriteClasses(c, classes, version);
    Behind(w.out, rest);
    if classes == [] {
      assert [TAG_EMPTY][1..] + rest == rest;
    } else {
      match FirstIndex(c.objects, ClassSlot(classes[0]))
      case Some(i) =>
        ReadReferenceOfWrite(i, rest);
      case None =>
        ReadNewClass(c, base, added, classes, version, ds, rest);
    }
  }

  /** A class that starts here: what its superclasses leave, with the class inserted. */
  lemma ReadClassHead(c: Caches, name: bytes, version: u32, more: bytes, ds: seq<Cached>)
    requires IsText(name) && Small(c)
    requires ReadClasses(Input(more, WriteString(c, name).caches.strings, ds)).Some?
    ensures var w := WriteString(c, name);
      var inner := ReadClasses(Input(more, w.caches.strings, ds)).value;
      ReadClasses(Input([TAG_START] + (w.out + (WriteNumber(version) + more)), c.strings, ds))
      == Some((Some(|ds|), inner.1.(objects := InsertAt(inner.1.objects, |ds|, Class(inner.0, version, name)))))
  {
    var w := WriteString(c, name);
    var number := WriteNumber(version);
    Behind([TAG_START], w.out + (number + more));
    ReadNameOfWrite(c, name, number + more, ds);
    Behind(number, more);
    ReadNumberOfWrite(version, more);
    assert [TAG_START][1..] + (w.out + (number + more)) == w.out + (number + more);
  }

  lemma InsertedSlots(ds: seq<Cached>, objects: seq<Cached>, cls: Cached)
    requires ds <= objects
    ensures var r := InsertAt(objects, |ds|, cls);
      && ds <= r && r[|ds|] == cls
      && Slots(r[|ds|..]) == [SlotOf(cls)] + Slots(objects[|ds|..])
  {
    var r := InsertAt(objects, |ds|, cls);
    assert r[|ds|..] == [cls] + objects[|ds|..];
    SlotsAppend([cls], objects[|ds|..]);
  }

  lemma SlotsMove(base: seq<Slot>, added: seq<Slot>, slot: Slot, more: seq<Slot>)
    ensures base + (added + [slot]) == (base + added) + [slot]
    ensures base + (added + [slot]) + more == base + added + ([slot] + more)
  {
  }

  lemma ClassLayout(name: bytes, number: bytes, supers: bytes, rest: bytes)
    ensures ([TAG_START] + (name + (number + supers))) + rest == [TAG_START] + (name + (number + (supers + rest)))
  {
  }

  lemma {:induction false} ReadNewClass(
    c: Caches, base: seq<Slot>, added: seq<Slot>, classes: seq<bytes>, version: u32, ds: seq<Cached>, rest: bytes)
    requires c.objects == base + added && base == Slots(ds)
    requires forall k :: 0 <= k < |classes| ==> IsText(classes[k])
    requires Small(WriteClasses(c, classes, version).caches)
    requires classes != [] && FirstIndex(c.objects, ClassSlot(classes[0])).None?
    ensures var w := WriteClasses(c, classes, version);
      var r := ReadClasses(Input(w.out + rest, c.strings, ds));
      && r.Some?
      && r.value.1.data == rest && r.value.1.strings == w.caches.strings
      && ds <= r.value.1.objects
      && w.caches.objects == base + added + Slots(r.value.1.objects[|ds|..])
      && r.value.0.Some?
      && IsClassAt(r.value.1.objects, r.value.0.value, classes[0])
    decreases |classes|, 0
  {
    var name := WriteString(c, classes[0]);
    var slot := ClassSlot(classes[0]);
    var known := name.caches.(objects := name.caches.objects + [slot]);
    var supers := WriteClasses(known, classes[1..], version);
    assert WriteClasses(c, classes, version)
        == Written([TAG_START] + (name.out + (WriteNumber(version) + supers.out)), supers.caches);
    ClassLayout(name.out, WriteNumber(version), supers.out, rest);
    SlotsMove(base, added, slot, []);
    ReadClassesOfWrite(known, base, added + [slot], classes[1..], version, ds, rest);
    ReadClassHead(c, classes[0], version, supers.out + rest, ds);
    var inner := ReadClasses(Input(supers.out + rest, known.strings, ds)).value;
    InsertedSlots(ds, inner.1.objects, Class(inner.0, version, classes[0]));
    SlotsMove(base, added, slot, Slots(inner.1.objects[|ds|..]));
  }

  // ----- what is written, in the decoder's terms -----

  /** The input after the item `w` was read: exactly its bytes gone, and both caches as the encoder has them. */
  ghost predicate InStep(w: Written, i: Input, rest: bytes, ds: seq<Cached>) {
    && i.data == rest && i.strings == w.caches.strings
    && ds <= i.objects && Slots(i.objects) == w.caches.objects
  }

  ghost predicate Ready(c: Caches, w: Written, ds: seq<Cached>) {
    c.objects == Slots(ds) && Small(w.caches)
  }

  lemma ReadCStringOfWrite(c: Caches, text: bytes, ds: seq<Cached>, rest: bytes)
    requires IsText(text) && Ready(c, WriteCString(c, text), ds)
    ensures var w := WriteCString(c, text);
      var r := ReadCString(Input(w.out + rest, c.strings, ds));
      && r.Some? && InStep(w, r.value.1, rest, ds)
      && r.value.0.Some? && r.value.0.value < |r.value.1.objects|
      && r.value.1.objects[r.value.0.value] == SharedText(text)
  {
    var w := WriteCString(c, text);
    Behind(w.out, rest);
    match FirstIndex(c.objects, TextSlot(text))
    case Some(i) =>
      ReadReferenceOfWrite(i, rest);
      assert SlotOf(ds[i]) == TextSlot(text);
    case None =>
      var name := WriteString(c, text);
      assert w.out[1..] == name.out;
      ReadNameOfWrite(c, text, rest, ds);
      SlotsAppend(ds, [SharedText(text)]);
      assert Slots([SharedText(text)]) == [TextSlot(text)];
  }

  // ----- type strings -----

  ghost predicate HasArray(group: seq<Value>) {
    exists k :: 0 <= k < |group| && group[k].Array?
  }

  lemma {:induction false} DecimalIsUtf8(n: nat, more: bytes)
    requires IsUtf8(more)
    ensures IsUtf8(Decimal(n) + more)
    decreases n
  {
    if n < 10 {
      assert ([0x30 + n] + more)[1..] == more;
    } else {
      var digit := [0x30 + n % 10];
      assert (digit + more)[1..] == more;
      DecimalIsUtf8(n / 10, digit + more);
      Assoc(Decimal(n / 10), digit, more);
    }
  }

  lemma ArrayCodeIsUtf8(data: bytes, more: bytes)
    requires IsUtf8(more)
    ensures IsUtf8(TypeCode(Array(data)) + more)
  {
    var digits := Decimal(|data|);
    var end := [0x5D] + more;
    var tail := [0x63] + end;
    assert end[1..] == more;
    assert tail[1..] == end;
    DecimalIsUtf8(|data|, tail);
    var s := [0x5B] + (digits + tail);
    assert s[1..] == digits + tail;
    assert TypeCode(Array(data)) + more == s;
  }

  lemma {:induction false} TypeCodesAreText(group: seq<Value>)
    ensures IsUtf8(TypeCodes(group))
  {
    if group != [] {
      TypeCodesAreText(group[1..]);
      var more := TypeCodes(group[1..]);
      if group[0].Array? {
        ArrayCodeIsUtf8(group[0].data, more);
      } else {
        assert TypeCodes(group)[1..] == more;
      }
    }
  }

  lemma ArrayTypeString(group: seq<Value>)
    requires |group| == 1 && group[0].Array?
    ensures var s := TypeCodes(group);
      IsArrayType(s) && ParseSize(s[1..|s| - 2]) == Some(|group[0].data|)
  {
    var s := TypeCodes(group);
    var digits := Decimal(|group[0].data|);
    assert TypeCodes(group[1..]) == [];
    assert s == [0x5B] + digits + [0x63, 0x5D];
    assert s[1..|s| - 2] == digits;
    ParseOfDecimal(|group[0].data|);
  }

  lemma {:induction false} DigitsOnly(s: bytes, k: nat)
    requires k < |s| && !(0x30 <= s[k] <= 0x39)
    ensures ParseDecimal(s) == None
  {
    if k < |s| - 1 {
      DigitsOnly(s[..|s| - 1], k);
    }
  }

  lemma {:induction false} CodesOfArray(group: seq<Value>)
    requires |group| > 1 && group[0].Array?
    ensures TypeCodes(group[1..]) != []
    ensures TypeCodes(group) == [0x5B] + Decimal(|group[0].data|) + [0x63, 0x5D] + TypeCodes(group[1..])
  {
    assert TypeCode(group[1]) != [];
  }

  lemma CodeOfOthers(group: seq<Value>)
    requires group == [] || !group[0].Array?
    ensures !IsArrayType(TypeCodes(group))
  {
    if group != [] {
      SplitFirst(TypeCode(group[0]), TypeCodes(group[1..]));
    }
  }

  lemma {:induction false} BracketPanics(codes: bytes, i: Input)
    requires 0x5B in codes
    ensures ReadValues(codes, i) == None
    decreases |codes|
  {
    if codes[0] != 0x5B {
      match ReadValue(codes[0], i)
      case None =>
      case Some((_, next)) => BracketPanics(codes[1..], next);
    }
  }

  lemma {:induction false} BracketOfArray(group: seq<Value>)
    ensures HasArray(group) ==> 0x5B in TypeCodes(group)
  {
    if group != [] {
      BracketOfArray(group[1..]);
      if HasArray(group) && !group[0].Array? {
        var k :| 0 <= k < |group| && group[k].Array?;
        assert group[1..][k - 1].Array?;
      }
    }
  }

  /** An array's type string with more behind it is neither an array's nor read value by value. */
  lemma MixedTypesPanic(digits: bytes, more: bytes, i: Input)
    requires more != []
    ensures ReadTypes([0x5B] + digits + [0x63, 0x5D] + more, i) == None
  {
    var s := [0x5B] + digits + [0x63, 0x5D] + more;
    assert s[0] == 0x5B;
    BracketPanics(s, i);
    var middle := s[1..|s| - 2];
    assert middle[|digits|] == s[1 + |digits|] == 0x63;
    DigitsOnly(middle, |digits|);
    if middle[0] == 0x2B {
      DigitsOnly(middle[1..], |digits| - 1);
    }
  }

  /** An array beside another value cannot be read. */
  lemma MixedGroupPanics(group: seq<Value>, i: Input)
    requires |group| > 1 && HasArray(group)
    ensures ReadTypes(TypeCodes(group), i) == None
  {
    if group[0].Array? {
      CodesOfArray(group);
      MixedTypesPanic(Decimal(|group[0].data|), TypeCodes(group[1..]), i);
    } else {
      CodeOfOthers(group);
      BracketOfArray(group);
      BracketPanics(TypeCodes(group), i);
    }
  }

  lemma SplitFirst(a: bytes, b: bytes)
    requires |a| == 1
    ensures (a + b)[0] == a[0] && (a + b)[1..] == b
  {
  }

  lemma CodesSplit(group: seq<Value>)
    requires group != [] && !group[0].Array?
    ensures TypeCodes(group) != [] && TypeCodes(group)[0] == TypeCode(group[0])[0]
    ensures TypeCodes(group)[1..] == TypeCodes(group[1..])
  {
    SplitFirst(TypeCode(group[0]), TypeCodes(group[1..]));
  }

  // ----- what may be written -----

  /** Class lists start with the class itself. */
  ghost predicate LegacyOk(specs: seq<LegacyClass>) {
    forall s :: s in specs ==>
      s.classes != [] && s.classes[0] == s.name && forall k :: 0 <= k < |s.classes| ==> |s.classes[k]| < U32
  }

  lemma {:induction false} AsciiIsUtf8(s: bytes)
    requires forall i :: 0 <= i < |s| ==> s[i] < 0x80
    ensures IsUtf8(s)
  {
    if s != [] {
      AsciiIsUtf8(s[1..]);
    }
  }

  lemma NamesAreText(specs: seq<LegacyClass>, spec: LegacyClass)
    requires LegacyOk(specs) && spec in specs
    ensures var names := Names(spec.classes);
      names != [] && names[0] == Ascii(spec.name) && forall k :: 0 <= k < |names| ==> IsText(names[k])
  {
    forall k | 0 <= k < |spec.classes| ensures IsText(Names(spec.classes)[k]) {
      AsciiIsUtf8(Ascii(spec.classes[k]));
    }
  }

  /** Every string is UTF-8 and every length fits a u32; every class is known. */
  ghost predicate Writable(specs: seq<LegacyClass>, v: Value)
    decreases v, 0
  {
    match v
    case String(text) => IsText(text)
    case CString(text) => IsText(text)
    case Object(name, fields) => FindLegacy(specs, name).Some? && WritableFields(specs, fields)
    case _ => true
  }

  ghost predicate WritableFields(specs: seq<LegacyClass>, fields: seq<Group>)
    decreases fields, 0
  {
    fields == [] || (WritableGroup(specs, fields[0].values) && WritableFields(specs, fields[1..]))
  }

  ghost predicate WritableGroup(specs: seq<LegacyClass>, group: seq<Value>)
    decreases group, 1
  {
    |TypeCodes(group)| < U32 && WritableAll(specs, group)
  }

  ghost predicate WritableAll(specs: seq<LegacyClass>, group: seq<Value>)
    decreases group, 0
  {
    group == [] || (Writable(specs, group[0]) && WritableAll(specs, group[1..]))
  }

  /** An array shares its group with no other value. */
  ghost predicate ArraysAlone(v: Value)
    decreases v, 0
  {
    v.Object? ==> ArraysAloneFields(v.fields)
  }

  ghost predicate ArraysAloneFields(fields: seq<Group>)
    decreases fields, 0
  {
    fields == [] || (ArraysAloneGroup(fields[0].values) && ArraysAloneFields(fields[1..]))
  }

  ghost predicate ArraysAloneGroup(group: seq<Value>)
    decreases group, 1
  {
    (|group| > 1 ==> !HasArray(group)) && ArraysAloneAll(group)
  }

  ghost predicate ArraysAloneAll(group: seq<Value>)
    decreases group, 0
  {
    group == [] || (ArraysAlone(group[0]) && ArraysAloneAll(group[1..]))
  }

  /** How deep instances nest. */
  ghost function Height(v: Value): nat
    decreases v, 0
  {
    if v.Object? then 1 + HeightFields(v.fields) else 0
  }

  ghost function HeightFields(fields: seq<Group>): nat
    decreases fields, 0
  {
    if fields == [] then 0 else Max(HeightAll(fields[0].values), HeightFields(fields[1..]))
  }

  ghost function HeightAll(group: seq<Value>): nat
    decreases group, 0
  {
    if group == [] then 0 else Max(Height(group[0]), HeightAll(group[1..]))
  }

  function Max(a: nat, b: nat): nat {
    if a < b then b else a
  }

  // ----- collapsing -----

  /** `later` has every entry of `ds`, except that placeholders may have become instances. */
  ghost predicate Grows(ds: seq<Cached>, later: seq<Cached>) {
    |ds| <= |later| && forall k :: 0 <= k < |ds| ==> ds[k] == later[k] || ds[k].Placeholder?
  }

  /** What collapses in one cache collapses to the same in every later one. */
  lemma {:induction false} CollapseGrows(ds: seq<Cached>, later: seq<Cached>, t: Typed, depth: nat)
    requires Grows(ds, later) && Collapse(ds, t, depth).Some?
    ensures Collapse(later, t, depth) == Collapse(ds, t, depth)
    decreases depth, 0, 0
  {
    if t.TObject? && t.index.Some? && ds[t.index.value].Instance? {
      CollapseGroupsGrows(ds, later, ds[t.index.value].members, depth - 1);
    }
  }

  lemma {:induction false} CollapseGroupsGrows(ds: seq<Cached>, later: seq<Cached>, groups: seq<seq<Typed>>, depth: nat)
    requires Grows(ds, later) && CollapseGroups(ds, groups, depth).Some?
    ensures CollapseGroups(later, groups, depth) == CollapseGroups(ds, groups, depth)
    decreases depth, 2, |groups|
  {
    if groups != [] {
      CollapseAllGrows(ds, later, groups[0], depth);
      CollapseGroupsGrows(ds, later, groups[1..], depth);
    }
  }

  lemma {:induction false} CollapseAllGrows(ds: seq<Cached>, later: seq<Cached>, ts: seq<Typed>, depth: nat)
    requires Grows(ds, later) && CollapseAll(ds, ts, depth).Some?
    ensures CollapseAll(later, ts, depth) == CollapseAll(ds, ts, depth)
    decreases depth, 1, |ts|
  {
    if ts != [] {
      CollapseGrows(ds, later, ts[0], depth);
      CollapseAllGrows(ds, later, ts[1..], depth);
    }
  }

  // ----- values -----

  ghost predicate ValueBack(
    v: Value, w: Written, rest: bytes, ds: seq<Cached>, depth: nat, r: Option<(Typed, Input)>)
  {
    if ArraysAlone(v) then
      r.Some? && InStep(w, r.value.1, rest, ds) && Collapse(r.value.1.objects, r.value.0, depth) == Some(v)
    else r.None?
  }

  ghost predicate ValuesBack(
    alone: bool, vs: seq<Value>, w: Written, rest: bytes, ds: seq<Cached>, depth: nat, r: Option<(seq<Typed>, Input)>)
  {
    if alone then
      r.Some? && InStep(w, r.value.1, rest, ds) && CollapseAll(r.value.1.objects, r.value.0, depth) == Some(vs)
    else r.None?
  }

  ghost predicate FieldsBack(
    fields: seq<Group>, w: Written, rest: bytes, ds: seq<Cached>, depth: nat, r: Option<(seq<seq<Typed>>, Input)>)
  {
    if ArraysAloneFields(fields) then
      r.Some? && InStep(w, r.value.1, rest, ds) && CollapseGroups(r.value.1.objects, r.value.0, depth) == Some(fields)
    else r.None?
  }

  lemma {:induction false} ReadValueOfWrite(
    specs: seq<LegacyClass>, c: Caches, v: Value, ds: seq<Cached>, rest: bytes, depth: nat)
    requires LegacyOk(specs) && Writable(specs, v) && !v.Array? && Height(v) <= depth
    requires WriteValue(specs, c, v).Some? && Ready(c, WriteValue(specs, c, v).value, ds)
    ensures var w := WriteValue(specs, c, v).value;
      ValueBack(v, w, rest, ds, depth, ReadValue(TypeCode(v)[0], Input(w.out + rest, c.strings, ds)))
    decreases v, 2
  {
    var w := WriteValue(specs, c, v).value;
    match v
    case CString(text) => ReadCStringOfWrite(c, text, ds, rest);
    case Object(name, fields) => ReadInstance(specs, c, v, ds, rest, depth);
    case String(text) => ReadRawStringOfWrite(text, rest);
    case Nil => Behind(w.out, rest);
    case _ =>
      Behind(w.out, rest);
      ReadScalarOfWrite(specs, c, v, ds, rest);
  }

  lemma ReadScalarOfWrite(specs: seq<LegacyClass>, c: Caches, v: Value, ds: seq<Cached>, rest: bytes)
    requires v.Bool? || v.Byte? || v.Int? || v.Float? || v.Double?
    ensures var w := WriteValue(specs, c, v).value;
      var r := ReadScalar(TypeCode(v)[0], w.out[0], Input(w.out[1..] + rest, c.strings, ds));
      && r.Some? && r.value.1 == Input(rest, c.strings, ds)
      && forall depth :: Collapse(ds, r.value.0, depth) == Some(v)
  {
    var w := WriteValue(specs, c, v).value;
    match v
    case Int(n, _) => ReadNumberOfWrite(n, rest);
    case Float(bits) => assert w.out[1..] == bits; TakeDrop(bits, rest);
    case Double(bits) => assert w.out[1..] == bits; TakeDrop(bits, rest);
    case Bool(_) => assert w.out[1..] + rest == rest;
    case Byte(_) => assert w.out[1..] + rest == rest;
  }

  /** `ReadClassesOfWrite` for caches that are in step. */
  lemma ReadClassListOfWrite(
    c: Caches, classes: seq<bytes>, version: u32, ds: seq<Cached>, rest: bytes)
    requires classes != [] && forall k :: 0 <= k < |classes| ==> IsText(classes[k])
    requires Ready(c, WriteClasses(c, classes, version), ds)
    ensures var w := WriteClasses(c, classes, version);
      var r := ReadClasses(Input(w.out + rest, c.strings, ds));
      && r.Some? && InStep(w, r.value.1, rest, ds)
      && r.value.0.Some? && IsClassAt(r.value.1.objects, r.value.0.value, classes[0])
  {
    ReadClassesOfWrite(c, Slots(ds), [], classes, version, ds, rest);
    var w := WriteClasses(c, classes, version);
    var objects := ReadClasses(Input(w.out + rest, c.strings, ds)).value.1.objects;
    assert objects == ds + objects[|ds|..];
    SlotsAppend(ds, objects[|ds|..]);
  }

  lemma InstanceLayout(classes: bytes, members: bytes, rest: bytes)
    ensures [TAG_START] + (classes + (members + [FIELDS_END])) + rest
         == [TAG_START] + (classes + (members + ([FIELDS_END] + rest)))
  {
  }

  lemma PlaceholderReady(c: Caches, ds: seq<Cached>)
    requires c.objects == Slots(ds)
    ensures c.objects + [InstanceSlot] == Slots(ds + [Placeholder])
  {
  }

  /** The placeholder becomes the instance: the look-up keys stay, and what collapsed still does. */
  lemma FillPlaceholder(ds: seq<Cached>, objects: seq<Cached>, filled: Cached)
    requires ds + [Placeholder] <= objects && filled.Instance?
    ensures var r := objects[|ds| := filled];
      ds <= r && Slots(r) == Slots(objects) && Grows(objects, r)
  {
    assert objects[|ds|] == (ds + [Placeholder])[|ds|];
    assert forall k :: 0 <= k < |ds| ==> objects[k] == (ds + [Placeholder])[k];
  }

  /** The placeholder at `k` filled once the members have been read. */
  function Filled(k: nat, cls: nat, members: Option<(seq<seq<Typed>>, Input)>): Option<(Option<nat>, Input)>
    requires members.Some? ==> k < |members.value.1.objects|
  {
    var (groups, last) :- members;
    Some((Some(k), last.(objects := last.objects[k := Instance(cls, groups)])))
  }

  lemma ReadObjectHead(strings: seq<bytes>, more: bytes, ds: seq<Cached>)
    requires var r := ReadClasses(Input(more, strings, ds + [Placeholder])); r.Some? && r.value.0.Some?
    ensures var classed := ReadClasses(Input(more, strings, ds + [Placeholder])).value;
      ReadObject(Input([TAG_START] + more, strings, ds)) == Filled(|ds|, classed.0.value, ReadMembers(classed.1))
  {
    Behind([TAG_START], more);
    assert [TAG_START][1..] + more == more;
  }

  lemma InstanceBack(
    ds: seq<Cached>, objects: seq<Cached>, cls: nat, members: seq<seq<Typed>>, name: bytes, fields: seq<Group>, depth: nat)
    requires ds + [Placeholder] <= objects && IsClassAt(objects, cls, name) && depth > 0
    requires CollapseGroups(objects, members, depth - 1) == Some(fields)
    ensures var r := objects[|ds| := Instance(cls, members)];
      && ds <= r && Slots(r) == Slots(objects)
      && Collapse(r, TObject(Some(|ds|)), depth) == Some(Object(name, fields))
  {
    var filled := Instance(cls, members);
    var r := objects[|ds| := filled];
    FillPlaceholder(ds, objects, filled);
    CollapseGroupsGrows(objects, r, members, depth - 1);
    assert IsClassAt(r, cls, name);
  }

  /** What reading an object gives: an index whose entry collapses to `v`. */
  ghost predicate ObjectBack(
    v: Value, w: Written, rest: bytes, ds: seq<Cached>, depth: nat, r: Option<(Option<nat>, Input)>)
  {
    if ArraysAlone(v) then
      r.Some? && InStep(w, r.value.1, rest, ds) && Collapse(r.value.1.objects, TObject(r.value.0), depth) == Some(v)
    else r.None?
  }

  lemma InstanceFilled(
    w: Written, name: bytes, fields: seq<Group>, rest: bytes, ds: seq<Cached>, depth: nat,
    objects: seq<Cached>, cls: nat, members: Option<(seq<seq<Typed>>, Input)>)
    requires ds + [Placeholder] <= objects && IsClassAt(objects, cls, name) && depth > 0
    requires FieldsBack(fields, w, rest, objects, depth - 1, members)
    ensures members.Some? ==> |ds| < |members.value.1.objects|
    ensures ObjectBack(Object(name, fields), w, rest, ds, depth, Filled(|ds|, cls, members))
  {
    if members.Some? {
      InstanceBack(ds, members.value.1.objects, cls, members.value.0, name, fields, depth);
    }
  }

  lemma {:induction false} ReadInstance(
    specs: seq<LegacyClass>, c: Caches, v: Value, ds: seq<Cached>, rest: bytes, depth: nat)
    requires LegacyOk(specs) && Writable(specs, v) && v.Object? && Height(v) <= depth
    requires WriteValue(specs, c, v).Some? && Ready(c, WriteValue(specs, c, v).value, ds)
    ensures var w := WriteValue(specs, c, v).value;
      ObjectBack(v, w, rest, ds, depth, ReadObject(Input(w.out + rest, c.strings, ds)))
    decreases v, 1
  {
    var meta := FindLegacy(specs, v.name).value;
    var names := Names(meta.classes);
    var started := c.(objects := c.objects + [InstanceSlot]);
    var classes := WriteClasses(started, names, meta.version);
    NamesAreText(specs, meta);
    var members := WriteFields(specs, classes.caches, v.fields).value;
    InstanceLayout(classes.out, members.out, rest);
    ReadInstanceHead(c, names, meta.version, ds, members.out + ([FIELDS_END] + rest));
    var _ := ReadInstanceBody(specs, classes, v.name, v.fields, members, c.strings, ds, members.out + ([FIELDS_END] + rest), rest, depth);
  }

  /** An instance is back if its members are, read from behind its class list. */
  lemma InstanceOfMembers(
    classes: Written, name: bytes, fields: seq<Group>, members: Written, strings: seq<bytes>,
    ds: seq<Cached>, objects: seq<Cached>, cls: nat, tail: bytes, rest: bytes, depth: nat,
    r: Option<(seq<seq<Typed>>, Input)>) returns (o: Option<(Option<nat>, Input)>)
    requires ReadClasses(Input(classes.out + tail, strings, ds + [Placeholder]))
          == Some((Some(cls), Input(tail, classes.caches.strings, objects)))
    requires ds + [Placeholder] <= objects && IsClassAt(objects, cls, name) && depth > 0
    requires r == ReadMembers(Input(tail, classes.caches.strings, objects))
    requires FieldsBack(fields, members, rest, objects, depth - 1, r)
    ensures o == ReadObject(Input([TAG_START] + (classes.out + tail), strings, ds))
    ensures ObjectBack(Object(name, fields), members, rest, ds, depth, o)
  {
    ReadObjectHead(strings, classes.out + tail, ds);
    o := Filled(|ds|, cls, r);
    InstanceFilled(members, name, fields, rest, ds, depth, objects, cls, r);
  }

  /** What a class list leaves behind it. */
  lemma AfterHead(classes: Written, name: bytes, strings: seq<bytes>, ds: seq<Cached>, tail: bytes)
    returns (cls: nat, objects: seq<Cached>)
    requires InstanceHead(classes, name, strings, ds, tail)
    ensures ReadClasses(Input(classes.out + tail, strings, ds + [Placeholder]))
         == Some((Some(cls), Input(tail, classes.caches.strings, objects)))
    ensures ds + [Placeholder] <= objects && IsClassAt(objects, cls, name) && Slots(objects) == classes.caches.objects
  {
    var r := ReadClasses(Input(classes.out + tail, strings, ds + [Placeholder])).value;
    cls, objects := r.0.value, r.1.objects;
  }

  lemma {:induction false} ReadInstanceBody(
    specs: seq<LegacyClass>, classes: Written, name: bytes, fields: seq<Group>, members: Written, strings: seq<bytes>,
    ds: seq<Cached>, tail: bytes, rest: bytes, depth: nat) returns (o: Option<(Option<nat>, Input)>)
    requires LegacyOk(specs) && WritableFields(specs, fields) && HeightFields(fields) < depth
    requires WriteFields(specs, classes.caches, fields) == Some(members) && Small(members.caches)
    requires tail == members.out + ([FIELDS_END] + rest) && InstanceHead(classes, name, strings, ds, tail)
    ensures o == ReadObject(Input([TAG_START] + (classes.out + tail), strings, ds))
    ensures ObjectBack(Object(name, fields), members, rest, ds, depth, o)
    decreases fields, 1
  {
    var cls, objects := AfterHead(classes, name, strings, ds, tail);
    ReadMembersOfWrite(specs, classes.caches, fields, members, objects, tail, rest, depth - 1);
    var r := ReadMembers(Input(tail, classes.caches.strings, objects));
    o := InstanceOfMembers(classes, name, fields, members, strings, ds, objects, cls, tail, rest, depth, r);
  }

  /** The class list of an instance, behind its placeholder, is read back. */
  ghost predicate InstanceHead(w: Written, name: bytes, strings: seq<bytes>, ds: seq<Cached>, tail: bytes) {
    var r := ReadClasses(Input(w.out + tail, strings, ds + [Placeholder]));
    && r.Some? && r.value.0.Some?
    && InStep(w, r.value.1, tail, ds + [Placeholder])
    && IsClassAt(r.value.1.objects, r.value.0.value, name)
  }

  lemma ReadInstanceHead(
    c: Caches, names: seq<bytes>, version: u32, ds: seq<Cached>, tail: bytes)
    requires names != [] && forall k :: 0 <= k < |names| ==> IsText(names[k])
    requires Ready(c, WriteClasses(c.(objects := c.objects + [InstanceSlot]), names, version), ds)
    ensures var w := WriteClasses(c.(objects := c.objects + [InstanceSlot]), names, version);
      InstanceHead(w, names[0], c.strings, ds, tail)
  {
    var started := c.(objects := c.objects + [InstanceSlot]);
    PlaceholderReady(c, ds);
    ReadClassListOfWrite(started, names, version, ds + [Placeholder], tail);
  }

  lemma EndLayout(first: bytes, others: bytes, rest: bytes)
    ensures (first + others) + ([FIELDS_END] + rest) == first + (others + ([FIELDS_END] + rest))
  {
  }

  /** Two items in a row stay in step, and what the first one left still collapses. */
  lemma ThenGroup(
    first: Written, i: Input, data: bytes, ds: seq<Cached>, ts: seq<Typed>, values: seq<Value>,
    others: Written, j: Input, rest: bytes, groups: seq<seq<Typed>>, fields: seq<Group>, depth: nat)
    requires InStep(first, i, data, ds) && CollapseAll(i.objects, ts, depth) == Some(values)
    requires InStep(others, j, rest, i.objects) && CollapseGroups(j.objects, groups, depth) == Some(fields)
    ensures InStep(others, j, rest, ds)
    ensures CollapseGroups(j.objects, [ts] + groups, depth) == Some([Group(values)] + fields)
  {
    CollapseAllGrows(i.objects, j.objects, ts, depth);
    assert ([ts] + groups)[1..] == groups;
  }

  lemma ThenValue(
    first: Written, i: Input, data: bytes, ds: seq<Cached>, t: Typed, v: Value,
    others: Written, j: Input, rest: bytes, ts: seq<Typed>, vs: seq<Value>, depth: nat)
    requires InStep(first, i, data, ds) && Collapse(i.objects, t, depth) == Some(v)
    requires InStep(others, j, rest, i.objects) && CollapseAll(j.objects, ts, depth) == Some(vs)
    ensures InStep(others, j, rest, ds)
    ensures CollapseAll(j.objects, [t] + ts, depth) == Some([v] + vs)
  {
    CollapseGrows(i.objects, j.objects, t, depth);
    assert ([t] + ts)[1..] == ts;
  }

  /** The first group and the members behind it. */
  function MembersFrom(group: Option<(seq<Typed>, Input)>): Option<(seq<seq<Typed>>, Input)> {
    var (first, more) :- group;
    var (others, last) :- ReadMembers(more);
    Some(([first] + others, last))
  }

  lemma ReadMembersHead(first: bytes, tail: bytes, strings: seq<bytes>, ds: seq<Cached>)
    requires |first| >= 1 && first[0] != FIELDS_END
    ensures ReadMembers(Input(first + tail, strings, ds))
         == MembersFrom(ReadGroup(first[0], Input(first[1..] + tail, strings, ds)))
  {
    Behind(first, tail);
  }

  lemma FieldsJoin(
    first: Written, tail: bytes, ds: seq<Cached>, group: Option<(seq<Typed>, Input)>,
    fields: seq<Group>, others: Written, rest: bytes, depth: nat)
    requires fields != []
    requires ValuesBack(ArraysAloneGroup(fields[0].values), fields[0].values, first, tail, ds, depth, group)
    requires group.Some? ==> FieldsBack(fields[1..], others, rest, group.value.1.objects, depth, ReadMembers(group.value.1))
    ensures FieldsBack(fields, others, rest, ds, depth, MembersFrom(group))
  {
    if ArraysAloneFields(fields) {
      var middle := group.value.1;
      var more := ReadMembers(middle).value;
      ThenGroup(first, middle, tail, ds, group.value.0, fields[0].values, others, more.1, rest, more.0, fields[1..], depth);
      assert [Group(fields[0].values)] + fields[1..] == fields;
    }
  }

  lemma {:induction false} ReadMembersOfWrite(
    specs: seq<LegacyClass>, c: Caches, fields: seq<Group>, w: Written, ds: seq<Cached>, data: bytes, rest: bytes, depth: nat)
    requires LegacyOk(specs) && WritableFields(specs, fields) && HeightFields(fields) <= depth
    requires WriteFields(specs, c, fields) == Some(w) && Ready(c, w, ds) && data == w.out + ([FIELDS_END] + rest)
    ensures FieldsBack(fields, w, rest, ds, depth, ReadMembers(Input(data, c.strings, ds)))
    decreases fields, 0
  {
    var end := [FIELDS_END] + rest;
    if fields == [] {
      assert [] + end == end;
      assert end[1..] == rest;
    } else {
      var first := WriteGroup(specs, c, fields[0].values).value;
      var others := WriteFields(specs, first.caches, fields[1..]).value;
      var tail := others.out + end;
      EndLayout(first.out, others.out, rest);
      ReadGroupOfWrite(specs, c, fields[0].values, ds, tail, depth);
      ReadMembersHead(first.out, tail, c.strings, ds);
      var group := ReadGroup(first.out[0], Input(first.out[1..] + tail, c.strings, ds));
      if group.Some? {
        ReadMembersOfWrite(specs, first.caches, fields[1..], others, group.value.1.objects, tail, rest, depth);
      }
      FieldsJoin(first, tail, ds, group, fields, others, rest, depth);
    }
  }

  /** One type string and its values. */
  lemma {:induction false} ReadGroupOfWrite(
    specs: seq<LegacyClass>, c: Caches, group: seq<Value>, ds: seq<Cached>, rest: bytes, depth: nat)
    requires LegacyOk(specs) && WritableGroup(specs, group) && HeightAll(group) <= depth
    requires WriteGroup(specs, c, group).Some? && Ready(c, WriteGroup(specs, c, group).value, ds)
    ensures var w := WriteGroup(specs, c, group).value;
      && w.out[0] != FIELDS_END
      && ValuesBack(ArraysAloneGroup(group), group, w, rest, ds, depth,
                    ReadGroup(w.out[0], Input(w.out[1..] + rest, c.strings, ds)))
    decreases group, 2
  {
    var text := TypeCodes(group);
    var codes := WriteString(c, text);
    var values := WriteValues(specs, codes.caches, group).value;
    Behind(codes.out, values.out);
    Assoc(codes.out[1..], values.out, rest);
    TypeCodesAreText(group);
    ReadStringOfWrite(c, text, values.out + rest, ds);
    ReadTypesOfWrite(specs, codes.caches, group, ds, rest, depth);
  }

  lemma {:induction false} ReadTypesOfWrite(
    specs: seq<LegacyClass>, c: Caches, group: seq<Value>, ds: seq<Cached>, rest: bytes, depth: nat)
    requires LegacyOk(specs) && WritableGroup(specs, group) && HeightAll(group) <= depth
    requires WriteValues(specs, c, group).Some? && Ready(c, WriteValues(specs, c, group).value, ds)
    ensures var w := WriteValues(specs, c, group).value;
      ValuesBack(ArraysAloneGroup(group), group, w, rest, ds, depth,
                 ReadTypes(TypeCodes(group), Input(w.out + rest, c.strings, ds)))
    decreases group, 1
  {
    if !HasArray(group) {
      CodeOfOthers(group);
      ReadValuesOfWrite(specs, c, group, ds, rest, depth);
    } else if |group| > 1 {
      MixedGroupPanics(group, Input(WriteValues(specs, c, group).value.out + rest, c.strings, ds));
    } else {
      ReadArrayOfWrite(specs, c, group, ds, rest, depth);
    }
  }

  lemma ReadArrayOfWrite(
    specs: seq<LegacyClass>, c: Caches, group: seq<Value>, ds: seq<Cached>, rest: bytes, depth: nat)
    requires |group| == 1 && group[0].Array? && c.objects == Slots(ds)
    ensures var w := Written(group[0].data, c);
      && WriteValues(specs, c, group) == Some(w) && ArraysAloneGroup(group)
      && ValuesBack(true, group, w, rest, ds, depth, ReadTypes(TypeCodes(group), Input(w.out + rest, c.strings, ds)))
  {
    var data := group[0].data;
    assert WriteValues(specs, c, group[1..]) == Some(Written([], c));
    assert ArraysAloneAll(group[1..]);
    assert data + [] == data;
    ArrayTypeString(group);
    TakeDrop(data, rest);
    var ts := [TArray(data)];
    assert CollapseAll(ds, ts[1..], depth) == Some([]);
    assert CollapseAll(ds, ts, depth) == Some([group[0]] + []);
    assert [group[0]] + [] == group;
  }

  /** The first value and those behind it. */
  function ValuesFrom(codes: bytes, read: Option<(Typed, Input)>): Option<(seq<Typed>, Input)> {
    var (first, more) :- read;
    var (others, last) :- ReadValues(codes, more);
    Some(([first] + others, last))
  }

  lemma ReadValuesHead(group: seq<Value>, i: Input)
    requires group != [] && !group[0].Array?
    ensures ReadValues(TypeCodes(group), i) == ValuesFrom(TypeCodes(group[1..]), ReadValue(TypeCode(group[0])[0], i))
  {
    CodesSplit(group);
  }

  lemma ValuesJoin(
    first: Written, tail: bytes, ds: seq<Cached>, read: Option<(Typed, Input)>,
    codes: bytes, group: seq<Value>, others: Written, rest: bytes, depth: nat)
    requires group != [] && ValueBack(group[0], first, tail, ds, depth, read)
    requires read.Some? ==>
      ValuesBack(ArraysAloneAll(group[1..]), group[1..], others, rest, read.value.1.objects, depth,
                 ReadValues(codes, read.value.1))
    ensures ValuesBack(ArraysAloneAll(group), group, others, rest, ds, depth, ValuesFrom(codes, read))
  {
    if ArraysAloneAll(group) {
      var middle := read.value.1;
      var more := ReadValues(codes, middle).value;
      ThenValue(first, middle, tail, ds, read.value.0, group[0], others, more.1, rest, more.0, group[1..], depth);
      assert [group[0]] + group[1..] == group;
    }
  }

  lemma {:induction false} ReadValuesOfWrite(
    specs: seq<LegacyClass>, c: Caches, group: seq<Value>, ds: seq<Cached>, rest: bytes, depth: nat)
    requires LegacyOk(specs) && WritableAll(specs, group) && !HasArray(group) && HeightAll(group) <= depth
    requires WriteValues(specs, c, group).Some? && Ready(c, WriteValues(specs, c, group).value, ds)
    ensures var w := WriteValues(specs, c, group).value;
      ValuesBack(ArraysAloneAll(group), group, w, rest, ds, depth,
                 ReadValues(TypeCodes(group), Input(w.out + rest, c.strings, ds)))
    decreases group, 0
  {
    if group == [] {
      assert [] + rest == rest;
    } else {
      var first := WriteValue(specs, c, group[0]).value;
      var others := WriteValues(specs, first.caches, group[1..]).value;
      var tail := others.out + rest;
      Assoc(first.out, others.out, rest);
      ReadValueOfWrite(specs, c, group[0], ds, tail, depth);
      ReadValuesHead(group, Input(first.out + tail, c.strings, ds));
      var read := ReadValue(TypeCode(group[0])[0], Input(first.out + tail, c.strings, ds));
      if read.Some? {
        ReadValuesOfWrite(specs, first.caches, group[1..], read.value.1.objects, rest, depth);
      }
      ValuesJoin(first, tail, ds, read, TypeCodes(group[1..]), group, others, rest, depth);
    }
  }

  // ----- whole streams -----

  lemma {:induction false} WriteValueSucceeds(specs: seq<LegacyClass>, c: Caches, v: Value)
    requires Writable(specs, v)
    ensures WriteValue(specs, c, v).Some?
    decreases v, 0
  {
    if v.Object? {
      var meta := FindLegacy(specs, v.name).value;
      var classes := WriteClasses(c.(objects := c.objects + [InstanceSlot]), Names(meta.classes), meta.version);
      WriteFieldsSucceeds(specs, classes.caches, v.fields);
    }
  }

  lemma {:induction false} WriteFieldsSucceeds(specs: seq<LegacyClass>, c: Caches, fields: seq<Group>)
    requires WritableFields(specs, fields)
    ensures WriteFields(specs, c, fields).Some?
    decreases fields, 0
  {
    if fields != [] {
      WriteGroupSucceeds(specs, c, fields[0].values);
      WriteFieldsSucceeds(specs, WriteGroup(specs, c, fields[0].values).value.caches, fields[1..]);
    }
  }

  lemma {:induction false} WriteGroupSucceeds(specs: seq<LegacyClass>, c: Caches, group: seq<Value>)
    requires WritableGroup(specs, group)
    ensures WriteGroup(specs, c, group).Some?
    decreases group, 1
  {
    WriteValuesSucceeds(specs, WriteString(c, TypeCodes(group)).caches, group);
  }

  lemma {:induction false} WriteValuesSucceeds(specs: seq<LegacyClass>, c: Caches, group: seq<Value>)
    requires WritableAll(specs, group)
    ensures WriteValues(specs, c, group).Some?
    decreases group, 0
  {
    if group != [] {
      WriteValueSucceeds(specs, c, group[0]);
      WriteValuesSucceeds(specs, WriteValue(specs, c, group[0]).value.caches, group[1..]);
    }
  }

  lemma LegacySpecsOk()
    ensures LegacyOk(LEGACY_SPECS)
  {
  }

  lemma ReadPrelude(version: byte, header: bytes, system: u32, first: bytes)
    requires IsText(header)
    ensures var data := [version] + (WriteRawString(header) + (WriteNumber(system) + first));
      var number := WriteNumber(system);
      && data[0] == version
      && ReadRawString(data[1..]) == Some((header, number + first))
      && (number + first)[0] == number[0]
      && ReadNumber(number[0], (number + first)[1..]) == Some((system, first))
  {
    var number := WriteNumber(system);
    var more := WriteRawString(header) + (number + first);
    assert ([version] + more)[1..] == more;
    ReadRawStringOfWrite(header, number + first);
    Behind(number, first);
    ReadNumberOfWrite(system, first);
  }

  /** The bytes before the first group are read back. */
  lemma ReadHeader(first: bytes)
    requires |first| >= 1
    ensures Decode([VERSION] + (WriteRawString(HEADER) + (WriteNumber(SYSTEM) + first)))
         == match ReadGroup(first[0], Input(first[1..], [], []))
            case None => None
            case Some((group, last)) => Some((group, last.objects))
  {
    AsciiIsUtf8(HEADER);
    ReadPrelude(VERSION, HEADER, SYSTEM, first);
  }

  /**
   `coder_decode_flattened` gives back what `coder_encode_flattened` was given exactly when every
   array is alone in its group; otherwise it panics.
   */
  lemma DecodeOfEncode(specs: seq<LegacyClass>, values: seq<Value>, depth: nat)
    requires LegacyOk(specs) && WritableGroup(specs, values) && HeightAll(values) <= depth
    ensures Encode(specs, values).Some?
    ensures Small(Encode(specs, values).value.caches) ==>
      DecodeFlattened(Encode(specs, values).value.out, depth)
      == if ArraysAloneGroup(values) then Some(values) else None
  {
    var c := Caches([], []);
    WriteGroupSucceeds(specs, c, values);
    if Small(Encode(specs, values).value.caches) {
      var group := WriteGroup(specs, c, values).value;
      ReadHeader(group.out);
      ReadGroupOfWrite(specs, c, values, [], [], depth);
      assert group.out[1..] + [] == group.out[1..];
    }
  }

  /** The same for the classes the coder knows. */
  lemma DecodeOfEncodeLegacy(values: seq<Value>, depth: nat)
    requires WritableGroup(LEGACY_SPECS, values) && HeightAll(values) <= depth
    requires Encode(LEGACY_SPECS, values).Some? ==> Small(Encode(LEGACY_SPECS, values).value.caches)
    ensures Encode(LEGACY_SPECS, values).Some?
    ensures DecodeFlattened(Encode(LEGACY_SPECS, values).value.out, depth) == Some(values)
      <==> ArraysAloneGroup(values)
  {
    LegacySpecsOk();
    DecodeOfEncode(LEGACY_SPECS, values, depth);
  }
}
