/**
 `NSString`, `NSNumber`, `NSDictionaryTypedCoder` and `NSAttributedString` (src/util.rs) as
 typedstream values, and the way of an attributed string through the whole coder.

 A `HashMap` is iterated in an arbitrary order, which the encoders here take as a parameter.
 */
module AttributedString {
  import opened Bytes
  import opened TypedStreamFormat
  import opened TypedStreamRoundTrip
  import opened TypedStreamCoder

  type Dict = map<bytes, Value>

  datatype Range = Range(len: u32, dict: Dict)

  datatype Attributed = Attributed(text: bytes, ranges: seq<Range>)

  /** The first value of a group; indexing an empty group panics. */
  function First(g: Group): Option<Value> {
    if g.values == [] then None else Some(g.values[0])
  }

  // ----- strings and numbers -----

  function EncodeText(text: bytes): Value {
    Object(Ascii("NSString"), [Group([String(text)])])
  }

  function DecodeText(v: Value): Option<bytes> {
    if !v.Object? || (v.name != Ascii("NSString") && v.name != Ascii("NSMutableString")) || v.fields == [] then None
    else
      var s :- First(v.fields[0]);
      if s.String? then Some(s.text) else None
  }

  function EncodeNumber(n: u32): Value {
    Object(Ascii("NSNumber"), [Group([CString(Ascii("i"))]), Group([Int(n, true)])])
  }

  function DecodeNumber(v: Value): Option<u32> {
    if !v.Object? || v.name != Ascii("NSNumber") || |v.fields| < 2 then None
    else
      var n :- First(v.fields[1]);
      if n.Int? then Some(n.number) else None
  }

  lemma NumberRoundTrip(n: u32)
    ensures DecodeNumber(EncodeNumber(n)) == Some(n)
  {
    assert EncodeNumber(n).fields[1] == Group([Int(n, true)]);
  }

  // ----- dictionaries -----

  /** Every key once. */
  ghost predicate IsOrder(order: seq<bytes>, dict: Dict) {
    && (forall k :: k in order <==> k in dict)
    && forall i, j :: 0 <= i < j < |order| ==> order[i] != order[j]
  }

  function Entries(dict: Dict, order: seq<bytes>): seq<Group>
    requires forall k :: k in order ==> k in dict
  {
    if order == [] then []
    else [Group([EncodeText(order[0])]), Group([dict[order[0]]])] + Entries(dict, order[1..])
  }

  function EncodeDict(dict: Dict, order: seq<bytes>): Value
    requires forall k :: k in order ==> k in dict
  {
    Object(Ascii("NSDictionary"), [Group([Int(|dict| % U32, true)])] + Entries(dict, order))
  }

  /** Pairs of key and value; a later pair replaces an earlier one and an odd group at the end is dropped. */
  function DecodeEntries(fields: seq<Group>): Option<Dict> {
    if |fields| < 2 then Some(map[])
    else
      var first :- First(fields[0]);
      var key :- DecodeText(first);
      var value :- First(fields[1]);
      var others :- DecodeEntries(fields[2..]);
      Some(map[key := value] + others)
  }

  function DecodeDict(v: Value): Option<Dict> {
    if !v.Object? || (v.name != Ascii("NSDictionary") && v.name != Ascii("NSMutableDictionary")) || v.fields == []
    then None
    else DecodeEntries(v.fields[1..])
  }

  /** One pair in front of others. */
  lemma EntriesStep(key: bytes, value: Value, others: seq<Group>)
    ensures DecodeEntries([Group([EncodeText(key)]), Group([value])] + others)
         == if DecodeEntries(others).None? then None else Some(map[key := value] + DecodeEntries(others).value)
  {
    var fields := [Group([EncodeText(key)]), Group([value])] + others;
    assert fields[2..] == others;
    TextRoundTrip(key);
  }

  lemma {:induction false} EntriesRoundTrip(dict: Dict, order: seq<bytes>)
    requires forall k :: k in order ==> k in dict
    ensures var r := DecodeEntries(Entries(dict, order));
      && r.Some?
      && (forall k :: k in r.value <==> k in order)
      && forall k :: k in order ==> r.value[k] == dict[k]
  {
    if order != [] {
      EntriesRoundTrip(dict, order[1..]);
      EntriesStep(order[0], dict[order[0]], Entries(dict, order[1..]));
      assert order == [order[0]] + order[1..];
    }
  }

  lemma TextRoundTrip(text: bytes)
    ensures DecodeText(EncodeText(text)) == Some(text)
  {
    assert EncodeText(text).fields[0] == Group([String(text)]);
  }

  lemma DictRoundTrip(dict: Dict, order: seq<bytes>)
    requires IsOrder(order, dict)
    ensures DecodeDict(EncodeDict(dict, order)) == Some(dict)
  {
    EntriesRoundTrip(dict, order);
    assert EncodeDict(dict, order).fields[1..] == Entries(dict, order);
    assert DecodeEntries(Entries(dict, order)).value == dict;
  }

  // ----- attributed strings -----

  /** The iteration order of each range's dictionary. */
  ghost predicate AreOrders(orders: seq<seq<bytes>>, ranges: seq<Range>) {
    |orders| == |ranges| && forall i :: 0 <= i < |ranges| ==> IsOrder(orders[i], ranges[i].dict)
  }

  function RangeHead(id: u32, len: u32): Group {
    Group([Int(id, true), Int(len, false)])
  }

  /** Range `k` has the id `k + 1`, and its dictionary follows. */
  ghost function RangeGroups(ranges: seq<Range>, orders: seq<seq<bytes>>, k: nat): seq<Group>
    requires AreOrders(orders, ranges) && |ranges| < U32 && k <= |ranges|
    decreases |ranges| - k
  {
    if k == |ranges| then []
    else
      [RangeHead(k + 1, ranges[k].len), Group([EncodeDict(ranges[k].dict, orders[k])])]
      + RangeGroups(ranges, orders, k + 1)
  }

  /** None where an id overflows. */
  ghost function EncodeAttributed(s: Attributed, orders: seq<seq<bytes>>): Option<Value>
    requires AreOrders(orders, s.ranges)
  {
    if |s.ranges| >= U32 then None
    else Some(Object(Ascii("NSAttributedString"), [Group([EncodeText(s.text)])] + RangeGroups(s.ranges, orders, 0)))
  }

  /** The id and the length of a range. */
  datatype Head = Head(id: u32, len: u32)

  function DecodeHead(g: Group): Option<Head> {
    if |g.values| < 2 || !g.values[0].Int? || !g.values[1].Int? then None
    else Some(Head(g.values[0].number, g.values[1].number))
  }

  /** A range whose id has been seen has no dictionary of its own. */
  function DecodeRanges(fields: seq<Group>, seen: map<u32, Dict>): Option<seq<Range>>
    decreases |fields|
  {
    if fields == [] then Some([])
    else
      var Head(id, len) :- DecodeHead(fields[0]);
      if id in seen then
        var others :- DecodeRanges(fields[1..], seen);
        Some([Range(len, seen[id])] + others)
      else if |fields| == 1 then Some([])
      else
        var v :- First(fields[1]);
        var dict :- DecodeDict(v);
        var others :- DecodeRanges(fields[2..], seen[id := dict]);
        Some([Range(len, dict)] + others)
  }

  predicate IsAttributedName(name: bytes) {
    name == Ascii("NSAttributedString") || name == Ascii("NSMutableAttributedString")
  }

  function DecodeAttributed(v: Value): Option<Attributed> {
    if !v.Object? || !IsAttributedName(v.name) || v.fields == [] then None
    else
      var first :- First(v.fields[0]);
      var text :- DecodeText(first);
      var ranges :- DecodeRanges(v.fields[1..], map[]);
      Some(Attributed(text, ranges))
  }

  /** `NSAttributedString::decode`, with its loop over the fields and its cache of ranges. */
  method DecodeInPlace(v: Value) returns (r: Option<Attributed>)
    ensures r == DecodeAttributed(v)
  {
    if !v.Object? || !IsAttributedName(v.name) || v.fields == [] {
      return None;
    }
    var first :- First(v.fields[0]);
    var text :- DecodeText(first);
    var rangeCache: map<u32, Dict> := map[];
    var ranges: seq<Range> := [];
    var k := 1;
    ghost var wanted := DecodeRanges(v.fields[1..], map[]);
    JoinNothing(wanted);
    while k < |v.fields|
      invariant 1 <= k <= |v.fields|
      invariant wanted == Join(ranges, DecodeRanges(v.fields[k..], rangeCache))
    {
      var next := v.fields[k];
      RangesStep(ranges, v.fields, k, rangeCache);
      k := k + 1;
      var head :- DecodeHead(next);
      var Head(id, len) := head;
      if id in rangeCache {
        ranges := ranges + [Range(len, rangeCache[id])];
      } else {
        if k == |v.fields| {
          break;
        }
        var value :- First(v.fields[k]);
        k := k + 1;
        var dict :- DecodeDict(value);
        ranges := ranges + [Range(len, dict)];
        rangeCache := rangeCache[id := dict];
      }
    }
    assert ranges + [] == ranges;
    r := Some(Attributed(text, ranges));
  }

  ghost function Join(done: seq<Range>, more: Option<seq<Range>>): Option<seq<Range>> {
    if more.None? then None else Some(done + more.value)
  }

  lemma JoinNothing(more: Option<seq<Range>>)
    ensures Join([], more) == more
  {
    if more.Some? {
      assert [] + more.value == more.value;
    }
  }

  lemma JoinTwice(done: seq<Range>, x: Range, more: Option<seq<Range>>)
    ensures Join(done, Join([x], more)) == Join(done + [x], more)
  {
    if more.Some? {
      assert done + ([x] + more.value) == done + [x] + more.value;
    }
  }

  /** One turn of the loop, then the ranges behind it: a range and its dictionary, if its id is new. */
  ghost function Turn(done: seq<Range>, fields: seq<Group>, k: nat, seen: map<u32, Dict>): Option<seq<Range>>
    requires k < |fields|
  {
    var head :- DecodeHead(fields[k]);
    if head.id in seen then Join(done + [Range(head.len, seen[head.id])], DecodeRanges(fields[k + 1..], seen))
    else if k + 1 == |fields| then Some(done)
    else
      var v :- First(fields[k + 1]);
      var dict :- DecodeDict(v);
      Join(done + [Range(head.len, dict)], DecodeRanges(fields[k + 2..], seen[head.id := dict]))
  }

  lemma RangesStep(done: seq<Range>, fields: seq<Group>, k: nat, seen: map<u32, Dict>)
    requires k < |fields|
    ensures Join(done, DecodeRanges(fields[k..], seen)) == Turn(done, fields, k, seen)
  {
    var rest := fields[k..];
    assert rest[0] == fields[k] && rest[1..] == fields[k + 1..];
    var head := DecodeHead(fields[k]);
    if head.Some? {
      var Head(id, len) := head.value;
      if id in seen {
        JoinTwice(done, Range(len, seen[id]), DecodeRanges(fields[k + 1..], seen));
      } else if k + 1 < |fields| {
        assert rest[1] == fields[k + 1] && rest[2..] == fields[k + 2..];
        if First(fields[k + 1]).Some? && DecodeDict(First(fields[k + 1]).value).Some? {
          var dict := DecodeDict(First(fields[k + 1]).value).value;
          JoinTwice(done, Range(len, dict), DecodeRanges(fields[k + 2..], seen[id := dict]));
        }
      } else {
        assert done + [] == done;
      }
    }
  }

  // ----- shared ids -----

  /** Equal ids mean equal dictionaries, also with those seen before. */
  ghost predicate Consistent(ids: seq<u32>, ranges: seq<Range>, seen: map<u32, Dict>) {
    && |ids| == |ranges|
    && (forall i, j :: 0 <= i < j < |ids| && ids[i] == ids[j] ==> ranges[i].dict == ranges[j].dict)
    && forall i :: 0 <= i < |ids| && ids[i] in seen ==> seen[ids[i]] == ranges[i].dict
  }

  /** What a writer that shares ids gives: the dictionary follows only where its id is new. */
  ghost function SharedGroups(
    ids: seq<u32>, ranges: seq<Range>, orders: seq<seq<bytes>>, k: nat, seen: map<u32, Dict>): seq<Group>
    requires AreOrders(orders, ranges) && |ids| == |ranges| && k <= |ranges|
    decreases |ranges| - k
  {
    if k == |ranges| then []
    else if ids[k] in seen then
      [RangeHead(ids[k], ranges[k].len)] + SharedGroups(ids, ranges, orders, k + 1, seen)
    else
      [RangeHead(ids[k], ranges[k].len), Group([EncodeDict(ranges[k].dict, orders[k])])]
      + SharedGroups(ids, ranges, orders, k + 1, seen[ids[k] := ranges[k].dict])
  }

  lemma SeenRange(id: u32, len: u32, others: seq<Group>, seen: map<u32, Dict>)
    requires id in seen
    ensures DecodeRanges([RangeHead(id, len)] + others, seen) == Join([Range(len, seen[id])], DecodeRanges(others, seen))
  {
    assert ([RangeHead(id, len)] + others)[1..] == others;
  }

  lemma NewRange(id: u32, range: Range, order: seq<bytes>, others: seq<Group>, seen: map<u32, Dict>)
    requires id !in seen && IsOrder(order, range.dict)
    ensures DecodeRanges([RangeHead(id, range.len), Group([EncodeDict(range.dict, order)])] + others, seen)
         == Join([range], DecodeRanges(others, seen[id := range.dict]))
  {
    var fields := [RangeHead(id, range.len), Group([EncodeDict(range.dict, order)])] + others;
    assert fields[2..] == others;
    DictRoundTrip(range.dict, order);
  }

  /** Ranges are read back whatever ids a writer shares, and whatever the order of its dictionaries. */
  lemma {:induction false} SharedRoundTrip(
    ids: seq<u32>, ranges: seq<Range>, orders: seq<seq<bytes>>, k: nat, seen: map<u32, Dict>)
    requires AreOrders(orders, ranges) && Consistent(ids, ranges, seen) && k <= |ranges|
    ensures DecodeRanges(SharedGroups(ids, ranges, orders, k, seen), seen) == Some(ranges[k..])
    decreases |ranges| - k
  {
    if k < |ranges| {
      assert ranges[k..] == [ranges[k]] + ranges[k + 1..];
      var more := if ids[k] in seen then seen else seen[ids[k] := ranges[k].dict];
      SharedRoundTrip(ids, ranges, orders, k + 1, more);
      var others := SharedGroups(ids, ranges, orders, k + 1, more);
      if ids[k] in seen {
        SeenRange(ids[k], ranges[k].len, others, seen);
      } else {
        NewRange(ids[k], ranges[k], orders[k], others, seen);
      }
    }
  }

  lemma TwoInFront(first: Group, second: Group, fields: seq<Group>)
    ensures [first, second] + fields == [first] + ([second] + fields)
  {
  }

  function Counting(n: nat): (ids: seq<u32>)
    requires n < U32
  {
    seq(n, i requires 0 <= i < n => i + 1)
  }

  /** The encoder here shares no id. */
  lemma {:induction false} EncoderSharesNone(
    ranges: seq<Range>, orders: seq<seq<bytes>>, k: nat, seen: map<u32, Dict>)
    requires AreOrders(orders, ranges) && |ranges| < U32 && k <= |ranges|
    requires forall id :: id in seen ==> id <= k
    ensures RangeGroups(ranges, orders, k) == SharedGroups(Counting(|ranges|), ranges, orders, k, seen)
    decreases |ranges| - k
  {
    if k < |ranges| {
      var ids := Counting(|ranges|);
      var pair := [RangeHead(k + 1, ranges[k].len), Group([EncodeDict(ranges[k].dict, orders[k])])];
      var more := seen[ids[k] := ranges[k].dict];
      assert ids[k] == k + 1 && ids[k] !in seen;
      EncoderSharesNone(ranges, orders, k + 1, more);
      assert RangeGroups(ranges, orders, k) == pair + RangeGroups(ranges, orders, k + 1);
      assert SharedGroups(ids, ranges, orders, k, seen) == pair + SharedGroups(ids, ranges, orders, k + 1, more);
    }
  }

  lemma AttributedRoundTrip(s: Attributed, orders: seq<seq<bytes>>)
    requires AreOrders(orders, s.ranges) && |s.ranges| < U32
    ensures EncodeAttributed(s, orders).Some?
    ensures DecodeAttributed(EncodeAttributed(s, orders).value) == Some(s)
  {
    EncoderSharesNone(s.ranges, orders, 0, map[]);
    SharedRoundTrip(Counting(|s.ranges|), s.ranges, orders, 0, map[]);
    TextRoundTrip(s.text);
    assert EncodeAttributed(s, orders).value.fields[1..] == RangeGroups(s.ranges, orders, 0);
    assert s.ranges[0..] == s.ranges;
  }

  // ----- through the bytes -----

  /** Strings are UTF-8 with lengths that fit, and every attribute may be written. */
  ghost predicate Sendable(specs: seq<LegacyClass>, s: Attributed) {
    && IsText(s.text) && |s.ranges| < U32
    && forall i :: 0 <= i < |s.ranges| ==> SendableDict(specs, s.ranges[i].dict)
  }

  ghost predicate SendableDict(specs: seq<LegacyClass>, dict: Dict) {
    forall k :: k in dict ==> IsText(k) && WritableGroup(specs, [dict[k]])
  }

  ghost predicate KnowsStrings(specs: seq<LegacyClass>) {
    && FindLegacy(specs, Ascii("NSAttributedString")).Some?
    && FindLegacy(specs, Ascii("NSString")).Some?
    && FindLegacy(specs, Ascii("NSDictionary")).Some?
  }

  lemma {:induction false} FindsKnown(specs: seq<LegacyClass>, spec: LegacyClass)
    requires spec in specs
    ensures FindLegacy(specs, Ascii(spec.name)).Some?
  {
    if Ascii(specs[0].name) != Ascii(spec.name) {
      FindsKnown(specs[1..], spec);
    }
  }

  lemma LegacyKnowsStrings()
    ensures KnowsStrings(LEGACY_SPECS)
  {
    FindsKnown(LEGACY_SPECS, LEGACY_SPECS[0]);
    FindsKnown(LEGACY_SPECS, LEGACY_SPECS[1]);
    FindsKnown(LEGACY_SPECS, LEGACY_SPECS[3]);
  }

  /** A group of one value that is no array has a type string of one byte. */
  lemma SingleGroup(specs: seq<LegacyClass>, v: Value)
    ensures !v.Array? ==> |TypeCodes([v])| == 1
    ensures Writable(specs, v) && !v.Array? ==> WritableGroup(specs, [v])
    ensures ArraysAloneGroup([v]) == ArraysAlone(v)
  {
    var group := [v];
    assert group[1..] == [];
    assert TypeCodes(group) == TypeCode(v) + [];
    assert WritableAll(specs, group) == Writable(specs, v);
    assert ArraysAloneAll(group) == ArraysAlone(v);
  }

  /** A group put in front. */
  lemma ConsFields(specs: seq<LegacyClass>, first: Group, fields: seq<Group>)
    ensures WritableFields(specs, [first] + fields) == (WritableGroup(specs, first.values) && WritableFields(specs, fields))
    ensures ArraysAloneFields([first] + fields) == (ArraysAloneGroup(first.values) && ArraysAloneFields(fields))
  {
    assert ([first] + fields)[1..] == fields;
  }

  lemma ConsTwo(specs: seq<LegacyClass>, first: Group, second: Group, fields: seq<Group>)
    requires WritableGroup(specs, first.values) && ArraysAloneGroup(first.values)
    requires WritableGroup(specs, second.values) && WritableFields(specs, fields)
    ensures WritableFields(specs, [first, second] + fields)
    ensures ArraysAloneFields([first, second] + fields) == (ArraysAloneGroup(second.values) && ArraysAloneFields(fields))
  {
    TwoInFront(first, second, fields);
    ConsFields(specs, second, fields);
    ConsFields(specs, first, [second] + fields);
  }

  lemma TextField(specs: seq<LegacyClass>, text: bytes)
    requires KnowsStrings(specs) && IsText(text)
    ensures WritableGroup(specs, [EncodeText(text)]) && ArraysAloneGroup([EncodeText(text)])
  {
    SingleGroup(specs, String(text));
    ConsFields(specs, Group([String(text)]), []);
    assert [Group([String(text)])] + [] == [Group([String(text)])];
    SingleGroup(specs, EncodeText(text));
  }

  ghost predicate AloneOrder(dict: Dict, order: seq<bytes>)
    requires forall k :: k in order ==> k in dict
  {
    order == [] || (ArraysAlone(dict[order[0]]) && AloneOrder(dict, order[1..]))
  }

  lemma {:induction false} AloneOrderEach(dict: Dict, order: seq<bytes>)
    requires forall k :: k in order ==> k in dict
    ensures AloneOrder(dict, order) <==> forall k :: k in order ==> ArraysAlone(dict[k])
  {
    if order != [] {
      AloneOrderEach(dict, order[1..]);
      assert order == [order[0]] + order[1..];
    }
  }

  lemma {:induction false} EntriesFields(specs: seq<LegacyClass>, dict: Dict, order: seq<bytes>)
    requires KnowsStrings(specs) && SendableDict(specs, dict) && forall k :: k in order ==> k in dict
    ensures WritableFields(specs, Entries(dict, order))
    ensures ArraysAloneFields(Entries(dict, order)) == AloneOrder(dict, order)
  {
    if order != [] {
      EntriesFields(specs, dict, order[1..]);
      EntryPair(specs, order[0], dict[order[0]], Entries(dict, order[1..]));
    }
  }

  lemma EntryPair(specs: seq<LegacyClass>, key: bytes, value: Value, others: seq<Group>)
    requires KnowsStrings(specs) && IsText(key) && WritableGroup(specs, [value]) && WritableFields(specs, others)
    ensures var fields := [Group([EncodeText(key)]), Group([value])] + others;
      && WritableFields(specs, fields)
      && ArraysAloneFields(fields) == (ArraysAlone(value) && ArraysAloneFields(others))
  {
    TextField(specs, key);
    SingleGroup(specs, value);
    ConsTwo(specs, Group([EncodeText(key)]), Group([value]), others);
  }

  /** No attribute holds an array that shares its group. */
  ghost predicate AloneDict(dict: Dict) {
    forall k :: k in dict ==> ArraysAlone(dict[k])
  }

  lemma DictField(specs: seq<LegacyClass>, dict: Dict, order: seq<bytes>)
    requires KnowsStrings(specs) && SendableDict(specs, dict) && IsOrder(order, dict)
    ensures WritableGroup(specs, [EncodeDict(dict, order)])
    ensures ArraysAloneGroup([EncodeDict(dict, order)]) == AloneDict(dict)
  {
    var count := Int(|dict| % U32, true);
    SingleGroup(specs, count);
    EntriesFields(specs, dict, order);
    AloneOrderEach(dict, order);
    ConsFields(specs, Group([count]), Entries(dict, order));
    SingleGroup(specs, EncodeDict(dict, order));
  }

  lemma HeadField(specs: seq<LegacyClass>, id: u32, len: u32)
    ensures WritableGroup(specs, RangeHead(id, len).values) && ArraysAloneGroup(RangeHead(id, len).values)
  {
    var group := [Int(id, true), Int(len, false)];
    assert group[1..] == [group[1]];
    SingleGroup(specs, group[1]);
    assert TypeCodes(group) == TypeCode(group[0]) + TypeCodes(group[1..]);
    assert !HasArray(group);
  }

  ghost predicate AloneFrom(ranges: seq<Range>, k: nat)
    requires k <= |ranges|
    decreases |ranges| - k
  {
    k == |ranges| || (AloneDict(ranges[k].dict) && AloneFrom(ranges, k + 1))
  }

  lemma {:induction false} AloneFromEach(ranges: seq<Range>, k: nat)
    requires k <= |ranges|
    ensures AloneFrom(ranges, k) <==> forall i :: k <= i < |ranges| ==> AloneDict(ranges[i].dict)
    decreases |ranges| - k
  {
    if k < |ranges| {
      AloneFromEach(ranges, k + 1);
    }
  }

  lemma {:induction false} RangeFields(specs: seq<LegacyClass>, ranges: seq<Range>, orders: seq<seq<bytes>>, k: nat)
    requires KnowsStrings(specs) && AreOrders(orders, ranges) && |ranges| < U32 && k <= |ranges|
    requires forall i :: 0 <= i < |ranges| ==> SendableDict(specs, ranges[i].dict)
    ensures WritableFields(specs, RangeGroups(ranges, orders, k))
    ensures ArraysAloneFields(RangeGroups(ranges, orders, k)) == AloneFrom(ranges, k)
    decreases |ranges| - k
  {
    if k < |ranges| {
      RangeFields(specs, ranges, orders, k + 1);
      RangePair(specs, ranges[k], orders[k], k + 1, RangeGroups(ranges, orders, k + 1));
    }
  }

  lemma RangePair(specs: seq<LegacyClass>, range: Range, order: seq<bytes>, id: u32, others: seq<Group>)
    requires KnowsStrings(specs) && SendableDict(specs, range.dict) && IsOrder(order, range.dict)
    requires WritableFields(specs, others)
    ensures var fields := [RangeHead(id, range.len), Group([EncodeDict(range.dict, order)])] + others;
      && WritableFields(specs, fields)
      && ArraysAloneFields(fields) == (AloneDict(range.dict) && ArraysAloneFields(others))
  {
    HeadField(specs, id, range.len);
    DictField(specs, range.dict, order);
    ConsTwo(specs, RangeHead(id, range.len), Group([EncodeDict(range.dict, order)]), others);
  }

  lemma AttributedField(specs: seq<LegacyClass>, s: Attributed, orders: seq<seq<bytes>>)
    requires KnowsStrings(specs) && Sendable(specs, s) && AreOrders(orders, s.ranges)
    ensures var v := EncodeAttributed(s, orders).value;
      && WritableGroup(specs, [v])
      && (ArraysAloneGroup([v]) <==> forall i :: 0 <= i < |s.ranges| ==> AloneDict(s.ranges[i].dict))
  {
    TextField(specs, s.text);
    RangeFields(specs, s.ranges, orders, 0);
    AloneFromEach(s.ranges, 0);
    ConsFields(specs, Group([EncodeText(s.text)]), RangeGroups(s.ranges, orders, 0));
    SingleGroup(specs, EncodeAttributed(s, orders).value);
  }

  /** What decoding a stream of one attributed string gives. */
  function DecodeStreamOf(data: bytes, depth: nat): Option<Attributed> {
    var values :- DecodeFlattened(data, depth);
    if values == [] then None else DecodeAttributed(values[0])
  }

  lemma StreamOfOne(specs: seq<LegacyClass>, v: Value, depth: nat)
    requires LegacyOk(specs) && WritableGroup(specs, [v]) && Height(v) <= depth
    ensures Encode(specs, [v]).Some?
    ensures Small(Encode(specs, [v]).value.caches) ==>
      DecodeStreamOf(Encode(specs, [v]).value.out, depth)
      == if ArraysAloneGroup([v]) then DecodeAttributed(v) else None
  {
    var group := [v];
    assert HeightAll(group[1..]) == 0;
    DecodeOfEncode(specs, group, depth);
  }

  lemma StreamWith(specs: seq<LegacyClass>, s: Attributed, orders: seq<seq<bytes>>, depth: nat)
    requires LegacyOk(specs) && KnowsStrings(specs) && Sendable(specs, s) && AreOrders(orders, s.ranges)
    requires Height(EncodeAttributed(s, orders).value) <= depth
    ensures var v := EncodeAttributed(s, orders).value;
      && Encode(specs, [v]).Some?
      && (Small(Encode(specs, [v]).value.caches) ==>
            (DecodeStreamOf(Encode(specs, [v]).value.out, depth) == Some(s)
             <==> forall i :: 0 <= i < |s.ranges| ==> AloneDict(s.ranges[i].dict)))
  {
    AttributedField(specs, s, orders);
    AttributedRoundTrip(s, orders);
    StreamOfOne(specs, EncodeAttributed(s, orders).value, depth);
  }

  /**
   An attributed string survives the typedstream in every iteration order of its dictionaries,
   exactly when none of its attributes holds an array that shares its group.
   */
  lemma StreamRoundTrip(s: Attributed, orders: seq<seq<bytes>>, depth: nat)
    requires Sendable(LEGACY_SPECS, s) && AreOrders(orders, s.ranges)
    requires Height(EncodeAttributed(s, orders).value) <= depth
    ensures var v := EncodeAttributed(s, orders).value;
      && Encode(LEGACY_SPECS, [v]).Some?
      && (Small(Encode(LEGACY_SPECS, [v]).value.caches) ==>
            (DecodeStreamOf(Encode(LEGACY_SPECS, [v]).value.out, depth) == Some(s)
             <==> forall i :: 0 <= i < |s.ranges| ==> AloneDict(s.ranges[i].dict)))
  {
    LegacyKnowsStrings();
    LegacySpecsOk();
    StreamWith(LEGACY_SPECS, s, orders, depth);
  }
}
