/**
 Where the lockstep of apns-pack-v1 breaks (src/aps.rs).  For a cached attribute the
 encoder writes the value before it looks the attribute's own key up, and the decoder
 reads the key before it reads the value.
 */
module ApsCacheOrder {
  import opened Bytes
  import opened ApsTables
  import opened ApsSpec
  import opened ApsRoundTrip
  import opened ApsAhead
  import opened ApsKeyOrder

  /** The encoder's keys when it looks the attribute's own key up: the value has been written. */
  ghost function KeysThen(value: Value, t: Tables): KeyCache
    requires WriteValue(value, t).Some?
  {
    AddKeys(t.keys, NewKeys(value, t))
  }

  /** The key is one nibble; or it is found, at the place where it was before; or it is new and the value uses no key. */
  ghost predicate KeyInOrder(id: bytes, value: Value, t: Tables)
    requires WriteValue(value, t).Some?
  {
    var keys := KeysThen(value, t);
    IsNibble(id) || if id in keys then Get(t.keys, Find(keys, id).value) == Some(id) else TableFree(value)
  }

  /** If the value table holds the value once it has been written, it does so at the same place before. */
  ghost predicate ValueInOrder(value: Value, t: Tables)
    requires WriteValue(value, t).Some?
  {
    var e := WriteValue(value, t).value;
    e.bytes in e.tables.values.cache
    ==> Get(t.values.cache, Find(e.tables.values.cache, e.bytes).value) == Some(e.bytes)
  }

  /** The decoder reads the attribute and ends with the encoder's tables. */
  ghost predicate InLockstep(id: bytes, value: Value, cached: bool, t: Tables, depth: nat, rest: bytes)
    requires WriteAttribute(id, value, cached, t).Some?
  {
    var e := WriteAttribute(id, value, cached, t).value;
    ReadAttribute(e.bytes + rest, t, depth) == Ok(Attribute(id, Normalise(value), cached), rest, e.tables)
  }

  // ----- the value, read with the attribute's key in the table already -----

  /** `u` is the decoder's side once it has read the key. */
  ghost predicate PayloadReads(r: Read<(Value, bool)>, value: Value, t: Tables, u: Tables, rest: bytes, after: Tables)
    requires WriteValue(value, t).Some?
  {
    && r.Ok? && r.rest == rest && r.value.1
    && r.tables == after.(keys := AddKeys(u.keys, NewKeys(value, t)))
    && (u == t || TableFree(value) ==> r.value.0 == Normalise(value))
    && (NewKeys(value, t) == [] && NoCommonIndex(t.keys, u.keys) && !TableFree(value) ==> r.value.0 != Normalise(value))
  }

  lemma ReadsItem(value: Value, t: Tables, u: Tables, depth: nat, rest: bytes)
    requires WriteValue(value, t).Some? && Ahead(t, u) && depth >= Height(value)
    ensures var e := WriteValue(value, t).value;
      var r := ReadValue(e.bytes + rest, u, depth);
      && r.Ok? && r.rest == rest
      && r.tables == Tables(AddKeys(u.keys, NewKeys(value, t)), e.tables.values)
      && (u == t || TableFree(value) ==> r.value == Normalise(value))
      && (NewKeys(value, t) == [] && NoCommonIndex(t.keys, u.keys) && !TableFree(value) ==> r.value != Normalise(value))
  {
    AheadValue(value, t, u, depth, rest);
    if u == t {
      ReadValueOfWrite(value, t, depth, rest);
    } else if TableFree(value) {
      TableFreeWrite(value, t, u);
      ReadValueOfWrite(value, u, depth, rest);
    }
  }

  lemma ReadsPayload(value: Value, t: Tables, u: Tables, tag: byte, depth: nat, rest: bytes)
    requires WriteCached(value, t).Some? && Ahead(t, u) && depth >= Height(value)
    requires ValueInOrder(value, t)
    requires var p := WriteCached(value, t).value;
      (Bit(tag, 0x80) <==> p.flags == 0x80) && (Bit(tag, 0x40) <==> p.flags == 0x40)
    ensures var p := WriteCached(value, t).value;
      PayloadReads(ReadPayload(tag, p.bytes + rest, u, depth), value, t, u, rest, p.tables)
  {
    var p, e := WriteCached(value, t).value, WriteValue(value, t).value;
    if p.flags == 0x80 {
      ReadsItem(value, t, u, depth, []);
      assert e.bytes + [] == e.bytes;
      ReadReference(e.bytes, Find(e.tables.values.cache, e.bytes).value, u, tag, depth, rest);
    } else {
      ReadsItem(value, t, u, depth, rest);
      assert (e.bytes + rest)[..|e.bytes + rest| - |rest|] == e.bytes;
    }
  }

  // ----- the key -----

  /** An index the decoder's table does not reach, or that names another key there. */
  lemma ReadsWrongIndex(id: bytes, index: nat, flags: byte, payload: bytes, t: Tables, depth: nat)
    requires flags == 0x40 || flags == 0x80
    requires index < KEY_LIMIT && Get(t.keys, index) != Some(id)
    ensures var r := ReadAttribute([0x20 + flags + index] + payload, t, depth);
      r.Ok? ==> r.value.id != id
  {
    var tag := [0x20 + flags + index];
    Behind(tag, payload);
    if index < |t.keys| {
      ReadKnownIndex(index, flags, t, payload);
    } else {
      TagBits(0x20 + index, flags);
      assert (0x20 + flags + index) % 0x20 == index;
    }
  }

  /** Once it has read a key, the decoder reads the payload. */
  lemma AfterKey(key: bytes, got: bytes, payload: bytes, t: Tables, u: Tables, depth: nat, rest: bytes)
    requires |key| >= 1 && ReadKey(key[0], key[1..] + (payload + rest), t) == Ok(got, payload + rest, u)
    ensures ReadAttribute(key + payload + rest, t, depth) == AsAttribute(got, ReadPayload(key[0], payload + rest, u, depth))
  {
    Cut(key, payload, rest);
    Behind(key, payload + rest);
  }

  /** What the encoder writes: the key behind the value's keys, then the payload. */
  lemma WrittenParts(id: bytes, value: Value, t: Tables) returns (p: Payload, key: bytes, keys: KeyCache)
    requires WriteCached(value, t).Some? && WriteAttribute(id, value, true, t).Some?
    ensures WriteCached(value, t) == Some(p) && p.tables.keys == KeysThen(value, t)
    ensures WriteKey(id, p.flags, KeysThen(value, t)) == Some((key, keys))
    ensures WriteAttribute(id, value, true, t) == Some(Encoded(key + p.bytes, p.tables.(keys := keys)))
  {
    ValuePushesNew(value, t);
    p := WriteCached(value, t).value;
    key, keys := WriteKey(id, p.flags, KeysThen(value, t)).value.0, WriteKey(id, p.flags, KeysThen(value, t)).value.1;
  }

  /** The decoder has read `key`, which leaves `u`: what it goes on to read, and when that is right. */
  lemma ReadsOn(id: bytes, value: Value, t: Tables, u: Tables, p: Payload, key: bytes, depth: nat, rest: bytes)
    returns (got: Value)
    requires WriteCached(value, t) == Some(p) && depth >= Height(value) && ValueInOrder(value, t) && Ahead(t, u)
    requires |key| >= 1 && (Bit(key[0], 0x80) <==> p.flags == 0x80) && (Bit(key[0], 0x40) <==> p.flags == 0x40)
    requires ReadKey(key[0], key[1..] + (p.bytes + rest), t) == Ok(id, p.bytes + rest, u)
    ensures ReadAttribute(key + p.bytes + rest, t, depth)
         == Ok(Attribute(id, got, true), rest, p.tables.(keys := AddKeys(u.keys, NewKeys(value, t))))
    ensures u == t || TableFree(value) ==> got == Normalise(value)
    ensures NewKeys(value, t) == [] && NoCommonIndex(t.keys, u.keys) && !TableFree(value) ==> got != Normalise(value)
  {
    AfterKey(key, id, p.bytes, t, u, depth, rest);
    ReadsPayload(value, t, u, key[0], depth, rest);
    got := ReadPayload(key[0], p.bytes + rest, u, depth).value.0;
  }

  lemma KeyInPlace(id: bytes, value: Value, t: Tables, index: nat, depth: nat, rest: bytes)
    requires WriteCached(value, t).Some? && WriteAttribute(id, value, true, t).Some? && depth >= Height(value)
    requires ValueInOrder(value, t)
    requires !IsNibble(id) && Find(KeysThen(value, t), id) == Some(index) && Get(t.keys, index) == Some(id)
    ensures InLockstep(id, value, true, t, depth, rest)
  {
    var p, key, keys := WrittenParts(id, value, t);
    ReadKnownIndex(index, p.flags, t, p.bytes + rest);
    var got := ReadsOn(id, value, t, t, p, key, depth, rest);
  }

  lemma KeyOutOfPlace(id: bytes, value: Value, t: Tables, index: nat, depth: nat, rest: bytes)
    requires WriteCached(value, t).Some? && WriteAttribute(id, value, true, t).Some?
    requires !IsNibble(id) && Find(KeysThen(value, t), id) == Some(index) && Get(t.keys, index) != Some(id)
    ensures !InLockstep(id, value, true, t, depth, rest)
  {
    var p, key, keys := WrittenParts(id, value, t);
    Cut(key, p.bytes, rest);
    ReadsWrongIndex(id, index, p.flags, p.bytes + rest, t, depth);
  }

  lemma NibbleKey(id: bytes, value: Value, t: Tables, depth: nat, rest: bytes)
    requires WriteCached(value, t).Some? && WriteAttribute(id, value, true, t).Some? && depth >= Height(value)
    requires ValueInOrder(value, t) && IsNibble(id)
    ensures InLockstep(id, value, true, t, depth, rest)
  {
    var p, key, keys := WrittenParts(id, value, t);
    ReadNibble(id, p.flags, t, p.bytes + rest);
    var got := ReadsOn(id, value, t, t, p, key, depth, rest);
  }

  lemma PushMovesIndices(keys: KeyCache, id: bytes)
    requires Distinct(keys) && id !in keys
    ensures NoCommonIndex(keys, AddKey(keys, id))
  {
    forall j: nat {:trigger Get(keys, j)} | j < |keys|
      ensures Get(AddKey(keys, id), j) != Get(keys, j)
    {
      assert AddKeys(keys, [id]) == AddKey(keys, id);
      PushesMoveIndices(keys, [id], j);
    }
  }

  /** Pushing the attribute's key before and after the keys of the value comes to the same only if there are none. */
  lemma PushOrderMatters(keys: KeyCache, ids: seq<bytes>, id: bytes)
    requires id !in AddKeys(keys, ids)
    ensures AddKeys(AddKey(keys, id), ids) == AddKey(AddKeys(keys, ids), id) <==> ids == []
  {
    if ids != [] {
      AddKeysLast(keys, ids);
      AddKeysLast(AddKey(keys, id), ids);
    }
  }

  lemma NewKey(id: bytes, value: Value, t: Tables, depth: nat, rest: bytes)
    requires Distinct(t.keys)
    requires WriteCached(value, t).Some? && WriteAttribute(id, value, true, t).Some? && depth >= Height(value)
    requires ValueInOrder(value, t)
    requires !IsNibble(id) && id !in KeysThen(value, t)
    ensures InLockstep(id, value, true, t, depth, rest) <==> TableFree(value)
  {
    var p, key, keys := WrittenParts(id, value, t);
    var ids, u := NewKeys(value, t), t.(keys := AddKey(t.keys, id));
    ReadNewKey(id, p.flags, t, p.bytes + rest);
    var got := ReadsOn(id, value, t, u, p, key, depth, rest);
    PushOrderMatters(t.keys, ids, id);
    if TableFree(value) {
      FreeValuePushesNone(value, t);
    } else if ids == [] {
      PushMovesIndices(t.keys, id);
    }
  }

  /**
   Exactly when a cached attribute keeps both sides in step, whether its value is stored now or
   has been before.  If the value table does not hold it yet, `ValueInOrder` says nothing.
   */
  lemma CachedLockstepIff(id: bytes, value: Value, t: Tables, depth: nat, rest: bytes)
    requires Distinct(t.keys)
    requires WriteCached(value, t).Some? && WriteAttribute(id, value, true, t).Some? && depth >= Height(value)
    requires ValueInOrder(value, t)
    ensures InLockstep(id, value, true, t, depth, rest) <==> KeyInOrder(id, value, t)
  {
    if IsNibble(id) {
      NibbleKey(id, value, t, depth, rest);
    } else if id in KeysThen(value, t) {
      var index := Find(KeysThen(value, t), id).value;
      if Get(t.keys, index) == Some(id) {
        KeyInPlace(id, value, t, index, depth, rest);
      } else {
        KeyOutOfPlace(id, value, t, index, depth, rest);
      }
    } else {
      NewKey(id, value, t, depth, rest);
    }
  }

  /** Unless the value pushes more than 32 keys, a key found is found at its old place exactly if it pushes none. */
  lemma FoundInPlaceIff(id: bytes, value: Value, t: Tables)
    requires Distinct(t.keys) && WriteValue(value, t).Some?
    requires |NewKeys(value, t)| <= KEY_LIMIT && id in KeysThen(value, t)
    ensures Get(t.keys, Find(KeysThen(value, t), id).value) == Some(id) <==> NewKeys(value, t) == []
  {
    var index := Find(KeysThen(value, t), id).value;
    ValuePushesNew(value, t);
    if NewKeys(value, t) != [] && index < |t.keys| {
      PushesMoveIndices(t.keys, NewKeys(value, t), index);
    }
  }

  /** The first use of a cached attribute, by what can be seen before it is written. */
  lemma FirstUseIff(id: bytes, value: Value, t: Tables, depth: nat, rest: bytes)
    requires Distinct(t.keys)
    requires WriteCached(value, t).Some? && WriteAttribute(id, value, true, t).Some? && depth >= Height(value)
    requires var e := WriteValue(value, t).value; e.bytes !in e.tables.values.cache
    requires |NewKeys(value, t)| <= KEY_LIMIT
    ensures InLockstep(id, value, true, t, depth, rest)
       <==> IsNibble(id) || if id in KeysThen(value, t) then NewKeys(value, t) == [] else TableFree(value)
  {
    CachedLockstepIff(id, value, t, depth, rest);
    if id in KeysThen(value, t) {
      FoundInPlaceIff(id, value, t);
    }
  }

  // ----- messages -----

  /** A value that uses no table is in order under every key. */
  lemma FreeInOrder(id: bytes, value: Value, t: Tables)
    requires WriteValue(value, t).Some? && TableFree(value)
    ensures ValueInOrder(value, t) && KeyInOrder(id, value, t)
  {
    TableFreeWrite(value, t, t);
    FreeValuePushesNone(value, t);
  }

  /** Every cached attribute is in order when its turn comes. */
  ghost predicate AttributesInOrder(attributes: seq<Attribute>, t: Tables)
    decreases attributes
  {
    attributes != [] ==>
      var a := attributes[0];
      && (a.cached && WriteValue(a.value, t).Some? ==> ValueInOrder(a.value, t) && KeyInOrder(a.id, a.value, t))
      && var e := WriteAttribute(a.id, a.value, a.cached, t);
         e.Some? ==> AttributesInOrder(attributes[1..], e.value.tables)
  }

  /** A message that caches only values without keys is in order whatever the tables. */
  lemma {:induction false} SafeInOrder(attributes: seq<Attribute>, t: Tables)
    requires CacheSafe(attributes)
    ensures AttributesInOrder(attributes, t)
    decreases attributes
  {
    if attributes != [] {
      var a := attributes[0];
      if a.cached && WriteValue(a.value, t).Some? {
        FreeInOrder(a.id, a.value, t);
      }
      var e := WriteAttribute(a.id, a.value, a.cached, t);
      if e.Some? {
        SafeInOrder(attributes[1..], e.value.tables);
      }
    }
  }

  lemma {:induction false} ReadAllInOrder(attributes: seq<Attribute>, t: Tables, depth: nat)
    requires Distinct(t.keys) && AttributesInOrder(attributes, t)
    requires WriteAttributes(attributes, t).Some?
    requires depth >= NestedHeight(attributes)
    ensures var e := WriteAttributes(attributes, t).value;
      ReadAllAttributes(e.bytes, t, depth) == Ok(NormaliseAttributes(attributes), [], e.tables)
    decreases attributes
  {
    if attributes != [] {
      var a := attributes[0];
      var first := WriteAttribute(a.id, a.value, a.cached, t).value;
      var others := WriteAttributes(attributes[1..], first.tables).value;
      AttributeInOrder(a, t, depth, others.bytes);
      AttributeKeepsDistinct(a, t);
      ReadAllInOrder(attributes[1..], first.tables, depth);
    }
  }

  /** An attribute that is not cached is always read back, a cached one if it is in order. */
  lemma AttributeInOrder(a: Attribute, t: Tables, depth: nat, rest: bytes)
    requires Distinct(t.keys) && AttributesInOrder([a], t)
    requires WriteAttribute(a.id, a.value, a.cached, t).Some? && depth >= Height(a.value)
    ensures InLockstep(a.id, a.value, a.cached, t, depth, rest)
  {
    if a.cached {
      CachedLockstepIff(a.id, a.value, t, depth, rest);
    } else {
      ReadAttributeOfWrite(a.id, a.value, false, t, depth, rest);
    }
  }

  /** Lockstep and round trip of a message whose cached attributes are in order, whatever their values use. */
  lemma DecodeInOrder(m: Message, t: Tables, depth: nat, rest: bytes)
    requires Distinct(t.keys) && AttributesInOrder(m.attributes, t)
    requires EncodeMessage(m, t).Some? && depth >= NestedHeight(m.attributes)
    ensures var e := EncodeMessage(m, t).value;
      DecodeMessage(e.bytes + rest, t, depth) == Ok(NormaliseMessage(m), rest, e.tables) && Distinct(e.tables.keys)
  {
    var body := WriteAttributes(m.attributes, t).value.bytes;
    ReadMessageHead(m.command, body, rest);
    assert (body + rest)[..|body|] == body;
    assert (body + rest)[|body|..] == rest;
    ReadAllInOrder(m.attributes, t, depth);
    MessageKeepsDistinct(m, t);
  }

  // ----- it does break -----

  /** A cached dictionary with one two-letter key, on fresh tables, is out of order. */
  lemma CachedDictionaryBreaks(depth: nat, rest: bytes)
    requires depth >= 2
    ensures var value := Dict([Attribute([0x43, 0x44], Int(1), false)]);
      var t := Tables([], ValueTable([], 0, 0x1000));
      WriteAttribute([0x41, 0x42], value, true, t).Some? && !InLockstep([0x41, 0x42], value, true, t, depth, rest)
  {
    var nested := Attribute([0x43, 0x44], Int(1), false);
    var value := Dict([nested]);
    var t := Tables([], ValueTable([], 0, 0x1000));
    assert [nested][1..] == [];
    var t1 := t.(keys := [[0x43, 0x44]]);
    assert AddKey([], [0x43, 0x44]) == [[0x43, 0x44]];
    assert WriteTagged(4, 1, 0x10) + [0x43, 0x44] == [0x11, 0x43, 0x44];
    assert WriteKey([0x43, 0x44], 0, []) == Some(([0x11, 0x43, 0x44], [[0x43, 0x44]]));
    assert WriteAttribute([0x43, 0x44], Int(1), false, t) == Some(Encoded([0x11, 0x43, 0x44] + [0x81], t1));
    assert WriteNested([nested], t) == Some(Encoded([0x11, 0x43, 0x44] + [0x81] + [], t1));
    assert WriteValue(value, t).Some? && WriteValue(value, t).value.tables == t1;
    ValuePushesNew(value, t);
    assert KeysThen(value, t) == [[0x43, 0x44]];
    assert !TableFree(value) by {
      assert !IsNibble([nested][0].id);
    }
    assert NestedHeight([nested]) == 1;
    CachedLockstepIff([0x41, 0x42], value, t, depth, rest);
  }
}
