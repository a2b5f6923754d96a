/**
 Reading with a key table that is ahead of the encoder's (src/aps.rs): what a decoder makes
 of a value if its table already holds a key more than the encoder's did when it wrote.
 */
module ApsAhead {
  import opened Bytes
  import opened ApsTables
  import opened ApsSpec
  import opened ApsRoundTrip

  // ----- the keys a value adds -----

  ghost function NewKeys(v: Value, t: Tables): seq<bytes>
    requires WriteValue(v, t).Some?
    decreases v, 0
  {
    match v
    case Dict(attributes) => NestedKeys(attributes, t)
    case Array(items) => ItemKeys(items, t)
    case _ => []
  }

  ghost function ItemKeys(items: seq<Value>, t: Tables): seq<bytes>
    requires WriteItems(items, t).Some?
    decreases items, 0
  {
    if items == [] then []
    else NewKeys(items[0], t) + ItemKeys(items[1..], WriteValue(items[0], t).value.tables)
  }

  ghost function NestedKeys(attributes: seq<Attribute>, t: Tables): seq<bytes>
    requires WriteNested(attributes, t).Some?
    decreases attributes, 0
  {
    if attributes == [] then []
    else
      var a := attributes[0];
      EntryKeys(a.id, a.value, ShouldCache(a), t)
      + NestedKeys(attributes[1..], WriteAttribute(a.id, a.value, ShouldCache(a), t).value.tables)
  }

  ghost function OwnKey(id: bytes, keys: KeyCache): seq<bytes> {
    if IsNibble(id) || id in keys then [] else [id]
  }

  /** A nested attribute: its own key if it is new, then the keys of its value. */
  ghost function EntryKeys(id: bytes, value: Value, cached: bool, t: Tables): seq<bytes>
    requires WriteAttribute(id, value, cached, t).Some?
    requires cached ==> TableFree(value)
    decreases value, 2
  {
    if cached then OwnKey(id, t.keys)
    else OwnKey(id, t.keys) + NewKeys(value, t.(keys := WriteKey(id, 0, t.keys).value.1))
  }

  function AddKeys(keys: KeyCache, ids: seq<bytes>): KeyCache
    decreases ids
  {
    if ids == [] then keys else AddKeys(AddKey(keys, ids[0]), ids[1..])
  }

  lemma {:induction false} AddKeysAppend(keys: KeyCache, a: seq<bytes>, b: seq<bytes>)
    ensures AddKeys(keys, a + b) == AddKeys(AddKeys(keys, a), b)
    decreases a
  {
    if a == [] {
      assert a + b == b;
    } else {
      assert (a + b)[1..] == a[1..] + b;
      AddKeysAppend(AddKey(keys, a[0]), a[1..], b);
    }
  }

  lemma {:induction false} AddKeysLast(keys: KeyCache, ids: seq<bytes>)
    requires ids != []
    ensures var k := AddKeys(keys, ids); |k| > 0 && k[|k| - 1] == ids[|ids| - 1]
    decreases ids
  {
    if |ids| > 1 {
      AddKeysLast(AddKey(keys, ids[0]), ids[1..]);
    }
  }

  // ----- reading with a key table that has moved on -----

  /** `u` is the decoder's side: the same values, and at least as many keys. */
  ghost predicate Ahead(t: Tables, u: Tables) {
    u.values == t.values && |u.keys| >= |t.keys|
  }

  /** No index names the same key in both tables. */
  ghost predicate NoCommonIndex(t: KeyCache, u: KeyCache) {
    forall j: nat {:trigger Get(t, j)} :: j < |t| ==> Get(u, j) != Get(t, j)
  }

  /**
   What reading from tables that are ahead gives: the same structure and table
   updates, and the right value only if no key index was involved.
   */
  ghost predicate ReadsAhead<T>(r: Read<T>, right: T, free: bool, rest: bytes, after: Tables, ids: seq<bytes>, t: Tables, u: Tables) {
    && r.Ok? && r.rest == rest
    && after.keys == AddKeys(t.keys, ids)
    && r.tables == Tables(AddKeys(u.keys, ids), after.values)
    && |r.tables.keys| >= |after.keys|
    && (ids == [] && NoCommonIndex(t.keys, u.keys) && !free ==> r.value != right)
  }

  /** A first member and the members after it, each read ahead. */
  lemma AheadCons<T>(first: Read<T>, others: Read<seq<T>>, right: T, rights: seq<T>, free: bool, freeOthers: bool,
                     more: bytes, rest: bytes, t: Tables, u: Tables, t1: Tables, t2: Tables,
                     ids: seq<bytes>, ids2: seq<bytes>)
    requires ReadsAhead(first, right, free, more, t1, ids, t, u)
    requires ReadsAhead(others, rights, freeOthers, rest, t2, ids2, t1, first.tables)
    ensures ReadsAhead(Ok([first.value] + others.value, others.rest, others.tables), [right] + rights,
                       free && freeOthers, rest, t2, ids + ids2, t, u)
  {
    AddKeysAppend(t.keys, ids, ids2);
    AddKeysAppend(u.keys, ids, ids2);
    var got := [first.value] + others.value;
    var all := [right] + rights;
    assert got == all ==> got[0] == all[0] && got[1..] == all[1..];
    assert got[1..] == others.value && all[1..] == rights;
  }

  lemma {:induction false} AheadValue(v: Value, t: Tables, u: Tables, depth: nat, rest: bytes)
    requires WriteValue(v, t).Some? && Ahead(t, u)
    requires depth >= Height(v)
    ensures var e := WriteValue(v, t).value;
      ReadsAhead(ReadValue(e.bytes + rest, u, depth), Normalise(v), TableFree(v), rest, e.tables, NewKeys(v, t), t, u)
    decreases v, 0
  {
    match v
    case Array(items) => AheadArray(items, t, u, depth, rest);
    case Dict(attributes) => AheadDict(attributes, t, u, depth, rest);
    case _ => ReadScalarOfWrite(v, u, depth, rest);
  }

  ghost predicate FreeItems(items: seq<Value>) {
    forall i :: 0 <= i < |items| ==> TableFree(items[i])
  }

  ghost predicate FreeNested(attributes: seq<Attribute>) {
    forall i :: 0 <= i < |attributes| ==> IsNibble(attributes[i].id) && TableFree(attributes[i].value)
  }

  lemma {:induction false} AheadArray(items: seq<Value>, t: Tables, u: Tables, depth: nat, rest: bytes)
    requires |items| < U64 && WriteItems(items, t).Some? && Ahead(t, u)
    requires depth >= 1 + ItemsHeight(items)
    ensures var body := WriteItems(items, t).value;
      ReadsAhead(ReadValue(WriteTagged(4, |items|, 0xD0) + body.bytes + rest, u, depth), Array(NormaliseItems(items)),
                 FreeItems(items), rest, body.tables, ItemKeys(items, t), t, u)
    decreases items, 1
  {
    var body := WriteItems(items, t).value.bytes;
    AheadItems(items, t, u, depth - 1, rest);
    ReadHead(|items|, 0xD0, body, rest);
    ReadArray(WriteTagged(4, |items|, 0xD0) + body + rest, |items|, body + rest, u, depth);
  }

  lemma {:induction false} AheadDict(attributes: seq<Attribute>, t: Tables, u: Tables, depth: nat, rest: bytes)
    requires |attributes| < U64 && WriteNested(attributes, t).Some? && Ahead(t, u)
    requires depth >= 1 + NestedHeight(attributes)
    ensures var body := WriteNested(attributes, t).value;
      ReadsAhead(ReadValue(WriteTagged(4, |attributes|, 0xC0) + body.bytes + rest, u, depth),
                 Dict(NormaliseNested(attributes)), FreeNested(attributes), rest, body.tables, NestedKeys(attributes, t), t, u)
    decreases attributes, 1
  {
    var body := WriteNested(attributes, t).value.bytes;
    AheadNested(attributes, t, u, depth - 1, rest);
    ReadHead(|attributes|, 0xC0, body, rest);
    ReadDict(WriteTagged(4, |attributes|, 0xC0) + body + rest, |attributes|, body + rest, u, depth);
  }

  lemma {:induction false} AheadItems(items: seq<Value>, t: Tables, u: Tables, depth: nat, rest: bytes)
    requires WriteItems(items, t).Some? && Ahead(t, u)
    requires depth >= ItemsHeight(items)
    ensures var e := WriteItems(items, t).value;
      ReadsAhead(ReadItems(|items|, e.bytes + rest, u, depth), NormaliseItems(items), FreeItems(items), rest, e.tables,
                 ItemKeys(items, t), t, u)
    decreases items, 0
  {
    if items == [] {
      assert [] + rest == rest;
    } else {
      var first := WriteValue(items[0], t).value;
      var others := WriteItems(items[1..], first.tables).value;
      Cut(first.bytes, others.bytes, rest);
      AheadValue(items[0], t, u, depth, others.bytes + rest);
      var r := ReadValue(first.bytes + (others.bytes + rest), u, depth);
      AheadItems(items[1..], first.tables, r.tables, depth, rest);
      AheadCons(r, ReadItems(|items| - 1, others.bytes + rest, r.tables, depth), Normalise(items[0]),
                NormaliseItems(items[1..]), TableFree(items[0]), FreeItems(items[1..]), others.bytes + rest, rest, t, u,
                first.tables, others.tables, NewKeys(items[0], t), ItemKeys(items[1..], first.tables));
      assert TableFree(items[0]) && FreeItems(items[1..]) ==> FreeItems(items);
    }
  }

  lemma {:induction false} AheadNested(attributes: seq<Attribute>, t: Tables, u: Tables, depth: nat, rest: bytes)
    requires WriteNested(attributes, t).Some? && Ahead(t, u)
    requires depth >= NestedHeight(attributes)
    ensures var e := WriteNested(attributes, t).value;
      ReadsAhead(ReadAttributes(|attributes|, e.bytes + rest, u, depth), NormaliseNested(attributes), FreeNested(attributes),
                 rest, e.tables, NestedKeys(attributes, t), t, u)
    decreases attributes, 0
  {
    if attributes == [] {
      assert [] + rest == rest;
    } else {
      var a := attributes[0];
      var free := IsNibble(a.id) && TableFree(a.value);
      var first := WriteAttribute(a.id, a.value, ShouldCache(a), t).value;
      var others := WriteNested(attributes[1..], first.tables).value;
      Cut(first.bytes, others.bytes, rest);
      AheadEntry(a.id, a.value, ShouldCache(a), t, u, depth, others.bytes + rest);
      var r := ReadAttribute(first.bytes + (others.bytes + rest), u, depth);
      AheadNested(attributes[1..], first.tables, r.tables, depth, rest);
      AheadCons(r, ReadAttributes(|attributes| - 1, others.bytes + rest, r.tables, depth),
                Attribute(a.id, Normalise(a.value), ShouldCache(a)), NormaliseNested(attributes[1..]),
                free, FreeNested(attributes[1..]), others.bytes + rest, rest, t, u, first.tables, others.tables,
                EntryKeys(a.id, a.value, ShouldCache(a), t), NestedKeys(attributes[1..], first.tables));
      assert free && FreeNested(attributes[1..]) ==> FreeNested(attributes);
    }
  }

  /** The attribute's key is read first, then its payload from the tables the key leaves. */
  lemma {:induction false} AheadKey(id: bytes, flags: byte, payload: bytes, t: Tables, u: Tables, depth: nat, rest: bytes)
    returns (tag: byte, got: bytes, u1: Tables)
    requires flags == 0 || flags == 0x40 || flags == 0x80
    requires WriteKey(id, flags, t.keys).Some? && Ahead(t, u)
    ensures (Bit(tag, 0x80) <==> flags == 0x80) && (Bit(tag, 0x40) <==> flags == 0x40)
    ensures var (key, keys) := WriteKey(id, flags, t.keys).value;
      && ReadAttribute(key + payload + rest, u, depth) == AsAttribute(got, ReadPayload(tag, payload + rest, u1, depth))
      && keys == AddKeys(t.keys, OwnKey(id, t.keys))
      && u1 == Tables(AddKeys(u.keys, OwnKey(id, t.keys)), u.values)
      && |u1.keys| >= |keys|
    ensures OwnKey(id, t.keys) == [] && NoCommonIndex(t.keys, u.keys) && !IsNibble(id) ==> got != id
  {
    var key := WriteKey(id, flags, t.keys).value.0;
    Cut(key, payload, rest);
    tag := key[0];
    Behind(key, payload + rest);
    if IsNibble(id) {
      ReadNibble(id, flags, u, payload + rest);
      got, u1 := id, u;
    } else if id in t.keys {
      got := AheadIndex(id, flags, t, u, payload + rest);
      u1 := u;
    } else {
      ReadNewKey(id, flags, u, payload + rest);
      got, u1 := id, u.(keys := AddKey(u.keys, id));
      assert AddKeys(t.keys, [id]) == AddKey(t.keys, id);
      assert AddKeys(u.keys, [id]) == AddKey(u.keys, id);
    }
  }

  /** A key index is always in range on the decoder's side, but names another key. */
  lemma AheadIndex(id: bytes, flags: byte, t: Tables, u: Tables, rest: bytes) returns (got: bytes)
    requires flags == 0 || flags == 0x40 || flags == 0x80
    requires id in t.keys && Ahead(t, u)
    ensures var tag := 0x20 + flags + Find(t.keys, id).value;
      && (Bit(tag, 0x80) <==> flags == 0x80)
      && (Bit(tag, 0x40) <==> flags == 0x40)
      && ReadKey(tag, [tag][1..] + rest, u) == Ok(got, rest, u)
    ensures NoCommonIndex(t.keys, u.keys) ==> got != id
  {
    var index := Find(t.keys, id).value;
    assert Get(t.keys, index) == Some(id);
    ReadKnownIndex(index, flags, u, rest);
    got := Get(u.keys, index).value;
  }

  lemma {:induction false} AheadEntry(
    id: bytes, value: Value, cached: bool, t: Tables, u: Tables, depth: nat, rest: bytes)
    requires cached ==> TableFree(value)
    requires WriteAttribute(id, value, cached, t).Some? && Ahead(t, u)
    requires depth >= Height(value)
    ensures var e := WriteAttribute(id, value, cached, t).value;
      ReadsAhead(ReadAttribute(e.bytes + rest, u, depth), Attribute(id, Normalise(value), cached),
                 IsNibble(id) && TableFree(value), rest, e.tables, EntryKeys(id, value, cached, t), t, u)
    decreases value, 2
  {
    if cached {
      var p := WriteCached(value, t).value;
      TableFreeWrite(value, t, t);
      var tag, _, u1 := AheadKey(id, p.flags, p.bytes, t, u, depth, rest);
      ReadCachedOfWrite(value, t, u1.keys, tag, depth, rest);
    } else {
      var keys := WriteKey(id, 0, t.keys).value.1;
      var t1 := t.(keys := keys);
      var body := WriteValue(value, t1).value;
      var tag, got, u1 := AheadKey(id, 0, body.bytes, t, u, depth, rest);
      AheadValue(value, t1, u1, depth, rest);
      AddKeysAppend(t.keys, OwnKey(id, t.keys), NewKeys(value, t1));
      AddKeysAppend(u.keys, OwnKey(id, t.keys), NewKeys(value, t1));
    }
  }
}
