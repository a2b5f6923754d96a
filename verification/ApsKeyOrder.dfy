/**
 The keys of apns-pack-v1 over a run (src/aps.rs): the encoder pushes a key only if its table does
 not hold it, so the table never holds a key twice.
 */
module ApsKeyOrder {
  import opened Bytes
  import opened ApsTables
  import opened ApsSpec
  import opened ApsRoundTrip
  import opened ApsAhead

  ghost predicate Distinct(keys: KeyCache) {
    forall i, j :: 0 <= i < j < |keys| ==> keys[i] != keys[j]
  }

  /** Each of these keys is new when it is pushed. */
  ghost predicate PushedNew(keys: KeyCache, ids: seq<bytes>)
    decreases ids
  {
    ids == [] || (ids[0] !in keys && PushedNew(AddKey(keys, ids[0]), ids[1..]))
  }

  lemma {:induction false} PushedNewAppend(keys: KeyCache, a: seq<bytes>, b: seq<bytes>)
    requires PushedNew(keys, a) && PushedNew(AddKeys(keys, a), b)
    ensures PushedNew(keys, a + b)
    decreases a
  {
    if a == [] {
      assert a + b == b;
    } else {
      assert (a + b)[1..] == a[1..] + b;
      PushedNewAppend(AddKey(keys, a[0]), a[1..], b);
    }
  }

  lemma PushKeepsDistinct(keys: KeyCache, id: bytes)
    requires Distinct(keys) && id !in keys
    ensures Distinct(AddKey(keys, id))
  {
  }

  lemma {:induction false} PushesKeepDistinct(keys: KeyCache, ids: seq<bytes>)
    requires Distinct(keys) && PushedNew(keys, ids)
    ensures Distinct(AddKeys(keys, ids))
    decreases ids
  {
    if ids != [] {
      PushKeepsDistinct(keys, ids[0]);
      PushesKeepDistinct(AddKey(keys, ids[0]), ids[1..]);
    }
  }

  // ----- what a value pushes -----

  lemma {:induction false} ValuePushesNew(v: Value, t: Tables)
    requires WriteValue(v, t).Some?
    ensures PushedNew(t.keys, NewKeys(v, t))
    ensures WriteValue(v, t).value.tables.keys == AddKeys(t.keys, NewKeys(v, t))
    decreases v, 0
  {
    match v
    case Dict(attributes) => NestedPushNew(attributes, t);
    case Array(items) => ItemsPushNew(items, t);
    case _ =>
  }

  lemma {:induction false} ItemsPushNew(items: seq<Value>, t: Tables)
    requires WriteItems(items, t).Some?
    ensures PushedNew(t.keys, ItemKeys(items, t))
    ensures WriteItems(items, t).value.tables.keys == AddKeys(t.keys, ItemKeys(items, t))
    decreases items, 0
  {
    if items != [] {
      var u := WriteValue(items[0], t).value.tables;
      ValuePushesNew(items[0], t);
      ItemsPushNew(items[1..], u);
      PushedNewAppend(t.keys, NewKeys(items[0], t), ItemKeys(items[1..], u));
      AddKeysAppend(t.keys, NewKeys(items[0], t), ItemKeys(items[1..], u));
    }
  }

  lemma {:induction false} NestedPushNew(attributes: seq<Attribute>, t: Tables)
    requires WriteNested(attributes, t).Some?
    ensures PushedNew(t.keys, NestedKeys(attributes, t))
    ensures WriteNested(attributes, t).value.tables.keys == AddKeys(t.keys, NestedKeys(attributes, t))
    decreases attributes, 0
  {
    if attributes != [] {
      var a := attributes[0];
      var u := WriteAttribute(a.id, a.value, ShouldCache(a), t).value.tables;
      EntryPushesNew(a.id, a.value, ShouldCache(a), t);
      NestedPushNew(attributes[1..], u);
      PushedNewAppend(t.keys, EntryKeys(a.id, a.value, ShouldCache(a), t), NestedKeys(attributes[1..], u));
      AddKeysAppend(t.keys, EntryKeys(a.id, a.value, ShouldCache(a), t), NestedKeys(attributes[1..], u));
    }
  }

  lemma OwnKeyIsNew(id: bytes, flags: byte, keys: KeyCache)
    requires flags == 0 || flags == 0x40 || flags == 0x80
    requires WriteKey(id, flags, keys).Some?
    ensures PushedNew(keys, OwnKey(id, keys))
    ensures WriteKey(id, flags, keys).value.1 == AddKeys(keys, OwnKey(id, keys))
  {
    assert AddKeys(keys, [id]) == AddKey(keys, id);
  }

  lemma {:induction false} EntryPushesNew(id: bytes, value: Value, cached: bool, t: Tables)
    requires WriteAttribute(id, value, cached, t).Some?
    requires cached ==> TableFree(value)
    ensures PushedNew(t.keys, EntryKeys(id, value, cached, t))
    ensures WriteAttribute(id, value, cached, t).value.tables.keys == AddKeys(t.keys, EntryKeys(id, value, cached, t))
    decreases value, 2
  {
    if cached {
      TableFreeWrite(value, t, t);
      OwnKeyIsNew(id, WriteCached(value, t).value.flags, t.keys);
    } else {
      OwnKeyIsNew(id, 0, t.keys);
      var u := t.(keys := WriteKey(id, 0, t.keys).value.1);
      ValuePushesNew(value, u);
      PushedNewAppend(t.keys, OwnKey(id, t.keys), NewKeys(value, u));
      AddKeysAppend(t.keys, OwnKey(id, t.keys), NewKeys(value, u));
    }
  }

  /** A value that uses no key pushes none. */
  lemma {:induction false} FreeValuePushesNone(v: Value, t: Tables)
    requires WriteValue(v, t).Some? && TableFree(v)
    ensures NewKeys(v, t) == []
    decreases v, 0
  {
    match v
    case Dict(attributes) => FreeNestedPushNone(attributes, t);
    case Array(items) => FreeItemsPushNone(items, t);
    case _ =>
  }

  lemma {:induction false} FreeItemsPushNone(items: seq<Value>, t: Tables)
    requires WriteItems(items, t).Some? && FreeItems(items)
    ensures ItemKeys(items, t) == []
    decreases items, 0
  {
    if items != [] {
      FreeValuePushesNone(items[0], t);
      FreeItemsPushNone(items[1..], WriteValue(items[0], t).value.tables);
    }
  }

  lemma {:induction false} FreeNestedPushNone(attributes: seq<Attribute>, t: Tables)
    requires WriteNested(attributes, t).Some? && FreeNested(attributes)
    ensures NestedKeys(attributes, t) == []
    decreases attributes, 0
  {
    if attributes != [] {
      var a := attributes[0];
      assert IsNibble(a.id) && !ShouldCache(a);
      FreeValuePushesNone(a.value, t.(keys := WriteKey(a.id, 0, t.keys).value.1));
      FreeNestedPushNone(attributes[1..], WriteAttribute(a.id, a.value, ShouldCache(a), t).value.tables);
    }
  }

  // ----- the invariant -----

  lemma AttributeKeepsDistinct(a: Attribute, t: Tables)
    requires Distinct(t.keys) && WriteAttribute(a.id, a.value, a.cached, t).Some?
    ensures Distinct(WriteAttribute(a.id, a.value, a.cached, t).value.tables.keys)
  {
    if a.cached {
      var keys := WriteValue(a.value, t).value.tables.keys;
      ValuePushesNew(a.value, t);
      PushesKeepDistinct(t.keys, NewKeys(a.value, t));
      OwnKeyIsNew(a.id, WriteCached(a.value, t).value.flags, keys);
      PushesKeepDistinct(keys, OwnKey(a.id, keys));
    } else {
      EntryPushesNew(a.id, a.value, false, t);
      PushesKeepDistinct(t.keys, EntryKeys(a.id, a.value, false, t));
    }
  }

  lemma {:induction false} AttributesKeepDistinct(attributes: seq<Attribute>, t: Tables)
    requires Distinct(t.keys) && WriteAttributes(attributes, t).Some?
    ensures Distinct(WriteAttributes(attributes, t).value.tables.keys)
    decreases attributes
  {
    if attributes != [] {
      var a := attributes[0];
      AttributeKeepsDistinct(a, t);
      AttributesKeepDistinct(attributes[1..], WriteAttribute(a.id, a.value, a.cached, t).value.tables);
    }
  }

  /** No message, whatever its attributes, brings a key into the encoder's table twice. */
  lemma MessageKeepsDistinct(m: Message, t: Tables)
    requires Distinct(t.keys) && EncodeMessage(m, t).Some?
    ensures Distinct(EncodeMessage(m, t).value.tables.keys)
  {
    AttributesKeepDistinct(m.attributes, t);
  }

  // ----- where a key is found afterwards -----

  /** A key added within the last 32 is still in the table. */
  lemma {:induction false} OldKeyStays(keys: KeyCache, ids: seq<bytes>, p: nat)
    requires p < |keys| && p + |ids| < KEY_LIMIT
    ensures Get(AddKeys(keys, ids), p + |ids|) == Get(keys, p)
    decreases ids
  {
    if ids != [] {
      var more := AddKey(keys, ids[0]);
      assert Get(more, p + 1) == Get(keys, p);
      OldKeyStays(more, ids[1..], p + 1);
    }
  }

  lemma {:induction false} PushedNewSplit(keys: KeyCache, a: seq<bytes>, b: seq<bytes>)
    requires PushedNew(keys, a + b)
    ensures PushedNew(AddKeys(keys, a), b)
    decreases a
  {
    if a == [] {
      assert a + b == b;
    } else {
      assert (a + b)[1..] == a[1..] + b;
      PushedNewSplit(AddKey(keys, a[0]), a[1..], b);
    }
  }

  lemma NewestStays(keys: KeyCache, key: bytes, back: seq<bytes>)
    requires |back| < KEY_LIMIT
    ensures Get(AddKeys(keys, [key] + back), |back|) == Some(key)
  {
    var more := AddKey(keys, key);
    assert Get(more, 0) == Some(key);
    OldKeyStays(more, back, 0);
    assert ([key] + back)[1..] == back;
  }

  lemma KnownAtIndex(keys: KeyCache, index: nat, key: bytes)
    requires Get(keys, index) == Some(key)
    ensures key in keys
  {
  }

  lemma FirstIsNew(keys: KeyCache, key: bytes, back: seq<bytes>)
    requires PushedNew(keys, [key] + back)
    ensures key !in keys
  {
    assert ([key] + back)[0] == key;
  }

  /** A key pushed as new is none of those still in the table, so it differs from the one its index named before. */
  lemma IndexOfPushed(keys: KeyCache, ids: seq<bytes>, front: seq<bytes>, key: bytes, back: seq<bytes>)
    requires PushedNew(keys, ids) && ids == front + ([key] + back)
    requires |back| < |keys| && |front| + |back| < KEY_LIMIT
    ensures Get(AddKeys(keys, ids), |back|) != Get(keys, |back|)
  {
    var between := AddKeys(keys, front);
    var later := [key] + back;
    PushedNewSplit(keys, front, later);
    FirstIsNew(between, key, back);
    OldKeyStays(keys, front, |back|);
    KnownAtIndex(between, |back| + |front|, Get(keys, |back|).value);
    AddKeysAppend(keys, front, later);
    NewestStays(between, key, back);
  }

  lemma OtherPlace(keys: KeyCache, p: nat, q: nat)
    requires Distinct(keys) && p < q < |keys|
    ensures Get(keys, p) != Get(keys, q)
  {
  }

  lemma SplitBefore(ids: seq<bytes>, index: nat) returns (front: seq<bytes>, key: bytes, back: seq<bytes>)
    requires index < |ids|
    ensures ids == front + ([key] + back) && |back| == index && |front| + index + 1 == |ids|
  {
    var n := |ids| - 1 - index;
    front, key, back := ids[..n], ids[n], ids[n + 1..];
  }

  /** If new keys, at least one and at most 32, have been pushed, no index names the key it named before. */
  lemma PushesMoveIndices(keys: KeyCache, ids: seq<bytes>, index: nat)
    requires Distinct(keys) && PushedNew(keys, ids) && 0 < |ids| <= KEY_LIMIT
    requires index < |keys|
    ensures Get(AddKeys(keys, ids), index) != Get(keys, index)
  {
    var n := |ids|;
    if index >= n {
      OldKeyStays(keys, ids, index - n);
      OtherPlace(keys, index - n, index);
    } else {
      var front, key, back := SplitBefore(ids, index);
      IndexOfPushed(keys, ids, front, key, back);
    }
  }
}
