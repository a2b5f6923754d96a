/**
 The encoder and the decoder of apns-pack-v1 stay in step: from equal tables, what
 one writes the other reads back, and they end with equal tables.
 */
module ApsRoundTrip {
  import opened Bytes
  import opened ApsTables
  import opened Varint
  import opened ApsSpec

  // ----- self-delimiting integers and blocks -----

  lemma TagByte(w: width, low: nat, mask: byte)
    requires Disjoint(mask, w) && low < Span(w)
    ensures mask + low < 256
    ensures (low + mask) % Span(w) == low
  {
    var q := mask / Span(w);
    if w == 4 {
      assert mask == 16 * q;
    } else if w == 5 {
      assert mask == 32 * q;
    } else if w == 6 {
      assert mask == 64 * q;
    } else {
      assert q == 0;
    }
  }

  /** A tagged integer is read back from exactly its own bytes, whatever follows. */
  lemma ReadTaggedOfWrite(w: width, value: u64, mask: byte, rest: bytes)
    requires Disjoint(mask, w)
    ensures var b := WriteTagged(w, value, mask);
      && b[0] - b[0] % Span(w) == mask
      && ReadTagged(w, b[0], b[1..] + rest) == Tagged(value, rest)
  {
    var top := Span(w) - 1;
    if value < top {
      TagByte(w, value, mask);
      assert [value + mask][1..] + rest == rest;
    } else {
      TagByte(w, top, mask);
      var n := value - top;
      assert ([top + mask] + Groups(n))[1..] == Groups(n);
      assert ReadGroups(Groups(n) + rest, 0) == Complete(n, rest) by {
        assert ShiftLeft(n, 0) == n;
        ReadGroupsOfGroups(n, 0, rest);
      }
    }
  }

  /** The first byte of `head + more` and what follows it. */
  lemma Behind(head: bytes, more: bytes)
    requires |head| >= 1
    ensures (head + more)[0] == head[0]
    ensures (head + more)[1..] == head[1..] + more
  {
  }

  lemma ReadBlockOfWrite(w: width, block: bytes, mask: byte, rest: bytes, t: Tables)
    requires Disjoint(mask, w) && |block| < U64
    ensures var data := WriteTagged(w, |block|, mask) + block + rest;
      && data[0] - data[0] % Span(w) == mask
      && ReadTagged(w, data[0], data[1..]) == Tagged(|block|, block + rest)
      && ReadBlock(|block|, block + rest, t) == Ok(block, rest, t)
  {
    var head := WriteTagged(w, |block|, mask);
    assert head + block + rest == head + (block + rest);
    Behind(head, block + rest);
    ReadTaggedOfWrite(w, |block|, mask, block + rest);
    assert (block + rest)[..|block|] == block;
    assert (block + rest)[|block|..] == rest;
  }

  lemma IntTag(length: nat, negative: bool)
    requires 1 <= length <= 8
    ensures var tag := length - 1 + 0xA0 + if negative then 8 else 0;
      && tag < 0x100 && tag / 0x40 == 2 && Bit(tag, 0x20) && tag % 8 + 1 == length
      && (Bit(tag, 8) <==> negative)
  {
  }

  lemma SmallIntTag(i: nat)
    requires i < 0x20
    ensures var tag := i + 0x80; tag / 0x40 == 2 && !Bit(tag, 0x20) && tag % 0x20 == i
  {
  }

  lemma ReadMagnitude(magnitude: nat, negative: bool, rest: bytes, t: Tables)
    requires 0 < magnitude < 0x8000_0000_0000_0000
    ensures 1 <= |BigEndian(magnitude)| <= 8
    ensures var tag := |BigEndian(magnitude)| - 1 + 0xA0 + if negative then 8 else 0;
      ReadInt(tag, BigEndian(magnitude) + rest, t) == Ok(Int(if negative then 0 - magnitude else magnitude), rest, t)
  {
    var block := BigEndian(magnitude);
    MagnitudeLength(magnitude);
    BigEndianRoundTrip(magnitude);
    IntTag(|block|, negative);
    assert ReadBlock(|block|, block + rest, t) == Ok(block, rest, t) by {
      assert (block + rest)[..|block|] == block;
      assert (block + rest)[|block|..] == rest;
    }
  }

  lemma ReadIntOfWrite(i: i64, rest: bytes, t: Tables)
    requires WriteInt(i).Some?
    ensures var b := WriteInt(i).value;
      && |b| >= 1 && b[0] / 0x40 == 2
      && ReadInt(b[0], b[1..] + rest, t) == Ok(Int(i), rest, t)
  {
    var b := WriteInt(i).value;
    if 0 <= i < 0x20 {
      SmallIntTag(i);
      assert b[1..] + rest == rest;
    } else {
      var magnitude := if i < 0 then -i else i;
      ReadMagnitude(magnitude, i < 0, rest, t);
      IntTag(|BigEndian(magnitude)|, i < 0);
      assert b[1..] == BigEndian(magnitude);
    }
  }

  // ----- what the decoder returns -----

  /** The value with the nested `cached` flags the encoder writes. */
  function Normalise(v: Value): Value {
    match v
    case Dict(attributes) => Dict(NormaliseNested(attributes))
    case Array(items) => Array(NormaliseItems(items))
    case _ => v
  }

  function NormaliseItems(items: seq<Value>): (r: seq<Value>)
    ensures |r| == |items|
  {
    if items == [] then [] else [Normalise(items[0])] + NormaliseItems(items[1..])
  }

  function NormaliseNested(attributes: seq<Attribute>): (r: seq<Attribute>)
    ensures |r| == |attributes|
  {
    if attributes == [] then []
    else
      var a := attributes[0];
      [Attribute(a.id, Normalise(a.value), ShouldCache(a))] + NormaliseNested(attributes[1..])
  }

  /** A top-level attribute keeps its own flag. */
  function NormaliseAttributes(attributes: seq<Attribute>): (r: seq<Attribute>)
    ensures |r| == |attributes|
  {
    if attributes == [] then []
    else
      var a := attributes[0];
      [Attribute(a.id, Normalise(a.value), a.cached)] + NormaliseAttributes(attributes[1..])
  }

  function NormaliseMessage(m: Message): Message {
    Message(m.command, NormaliseAttributes(m.attributes))
  }

  /** The recursion depth that reading the value back needs. */
  function Height(v: Value): (h: nat)
    ensures h >= 1
  {
    match v
    case Dict(attributes) => 1 + NestedHeight(attributes)
    case Array(items) => 1 + ItemsHeight(items)
    case _ => 1
  }

  function ItemsHeight(items: seq<Value>): nat {
    if items == [] then 0 else Max(Height(items[0]), ItemsHeight(items[1..]))
  }

  function NestedHeight(attributes: seq<Attribute>): nat {
    if attributes == [] then 0 else Max(Height(attributes[0].value), NestedHeight(attributes[1..]))
  }

  function Max(a: nat, b: nat): nat {
    if a < b then b else a
  }

  // ----- values whose bytes do not depend on the tables -----

  /** Every attribute inside `v` has a one-nibble id, so `v` neither reads nor changes a table. */
  predicate TableFree(v: Value) {
    match v
    case Dict(attributes) => forall i :: 0 <= i < |attributes| ==> IsNibble(attributes[i].id) && TableFree(attributes[i].value)
    case Array(items) => forall i :: 0 <= i < |items| ==> TableFree(items[i])
    case _ => true
  }

  lemma {:induction false} TableFreeWrite(v: Value, t: Tables, u: Tables)
    requires TableFree(v)
    ensures WriteValue(v, t).Some? ==> WriteValue(v, t).value.tables == t
    ensures WriteValue(v, t).Some? ==> WriteValue(v, u) == Some(Encoded(WriteValue(v, t).value.bytes, u))
    decreases v, 0
  {
    match v
    case Dict(attributes) => TableFreeNested(attributes, t, u);
    case Array(items) => TableFreeItems(items, t, u);
    case _ =>
  }

  lemma {:induction false} TableFreeItems(items: seq<Value>, t: Tables, u: Tables)
    requires forall i :: 0 <= i < |items| ==> TableFree(items[i])
    ensures WriteItems(items, t).Some? ==> WriteItems(items, t).value.tables == t
    ensures WriteItems(items, t).Some? ==> WriteItems(items, u) == Some(Encoded(WriteItems(items, t).value.bytes, u))
    decreases items, 0
  {
    if items != [] {
      TableFreeWrite(items[0], t, u);
      TableFreeItems(items[1..], t, u);
    }
  }

  lemma {:induction false} TableFreeNested(attributes: seq<Attribute>, t: Tables, u: Tables)
    requires forall i :: 0 <= i < |attributes| ==> IsNibble(attributes[i].id) && TableFree(attributes[i].value)
    ensures WriteNested(attributes, t).Some? ==> WriteNested(attributes, t).value.tables == t
    ensures WriteNested(attributes, t).Some?
        ==> WriteNested(attributes, u) == Some(Encoded(WriteNested(attributes, t).value.bytes, u))
    decreases attributes, 0
  {
    if attributes != [] {
      var a := attributes[0];
      assert !ShouldCache(a);
      assert t.(keys := t.keys) == t && u.(keys := u.keys) == u;
      TableFreeWrite(a.value, t, u);
      TableFreeNested(attributes[1..], t, u);
    }
  }

  // ----- keys -----

  lemma TagBits(low: nat, flags: byte)
    requires low < 0x40
    requires flags == 0 || flags == 0x40 || flags == 0x80
    ensures var tag := low + flags;
      && (Bit(tag, 0x80) <==> flags == 0x80)
      && (Bit(tag, 0x40) <==> flags == 0x40)
      && (Bit(tag, 0x20) <==> low >= 0x20)
      && (low < 0x20 ==> (Bit(tag, 0x10) <==> low >= 0x10))
      && tag % 0x20 == low % 0x20
      && tag % 0x10 == low % 0x10
  {
  }

  lemma ReadKeyOfWrite(id: bytes, flags: byte, t: Tables, rest: bytes)
    requires flags == 0 || flags == 0x40 || flags == 0x80
    requires WriteKey(id, flags, t.keys).Some?
    ensures var (b, keys) := WriteKey(id, flags, t.keys).value;
      && |b| >= 1
      && (Bit(b[0], 0x80) <==> flags == 0x80)
      && (Bit(b[0], 0x40) <==> flags == 0x40)
      && ReadKey(b[0], b[1..] + rest, t) == Ok(id, rest, t.(keys := keys))
  {
    if IsNibble(id) {
      ReadNibble(id, flags, t, rest);
    } else if Find(t.keys, id).Some? {
      ReadKnownIndex(Find(t.keys, id).value, flags, t, rest);
    } else {
      ReadNewKey(id, flags, t, rest);
    }
  }

  lemma ReadNibble(id: bytes, flags: byte, t: Tables, rest: bytes)
    requires flags == 0 || flags == 0x40 || flags == 0x80
    requires IsNibble(id)
    ensures var b := [id[0] + flags];
      && (Bit(b[0], 0x80) <==> flags == 0x80)
      && (Bit(b[0], 0x40) <==> flags == 0x40)
      && ReadKey(b[0], b[1..] + rest, t) == Ok(id, rest, t)
  {
    TagBits(id[0], flags);
    assert [id[0] + flags][1..] + rest == rest;
    assert id == [id[0]];
  }

  lemma ReadKnownIndex(index: nat, flags: byte, t: Tables, rest: bytes)
    requires flags == 0 || flags == 0x40 || flags == 0x80
    requires index < |t.keys|
    ensures var b := [0x20 + flags + index];
      && (Bit(b[0], 0x80) <==> flags == 0x80)
      && (Bit(b[0], 0x40) <==> flags == 0x40)
      && ReadKey(b[0], b[1..] + rest, t) == Ok(t.keys[|t.keys| - 1 - index], rest, t)
  {
    TagBits(0x20 + index, flags);
    OnlyTag(0x20 + flags + index, rest);
    ReadIndexedKey(0x20 + flags + index, rest, t);
  }

  lemma OnlyTag(tag: byte, rest: bytes)
    ensures [tag][1..] + rest == rest
  {
  }

  lemma ReadIndexedKey(tag: byte, rest: bytes, t: Tables)
    requires Bit(tag, 0x20) && tag % 0x20 < |t.keys|
    ensures ReadKey(tag, rest, t) == Ok(t.keys[|t.keys| - 1 - tag % 0x20], rest, t)
  {
  }

  lemma ReadNewKey(id: bytes, flags: byte, t: Tables, rest: bytes)
    requires flags == 0 || flags == 0x40 || flags == 0x80
    requires 0 < |id| <= U64
    ensures var b := WriteTagged(4, |id| - 1, 0x10 + flags) + id;
      && (Bit(b[0], 0x80) <==> flags == 0x80)
      && (Bit(b[0], 0x40) <==> flags == 0x40)
      && ReadKey(b[0], b[1..] + rest, t) == Ok(id, rest, t.(keys := AddKey(t.keys, id)))
  {
    var head := WriteTagged(4, |id| - 1, 0x10 + flags);
    Cut(head, id, rest);
    Behind(head, id + rest);
    Behind(head, id);
    ReadTaggedOfWrite(4, |id| - 1, 0x10 + flags, id + rest);
    NewKeyTag(head[0], flags);
    assert (head + id)[1..] + rest == head[1..] + (id + rest);
    ReadKeyText(head[0], head[1..] + (id + rest), id, rest, t);
  }

  lemma NewKeyTag(tag: byte, flags: byte)
    requires flags == 0 || flags == 0x40 || flags == 0x80
    requires tag - tag % 0x10 == 0x10 + flags
    ensures Bit(tag, 0x10) && !Bit(tag, 0x20)
    ensures (Bit(tag, 0x80) <==> flags == 0x80) && (Bit(tag, 0x40) <==> flags == 0x40)
  {
    TagBits(0x10 + tag % 0x10, flags);
  }

  lemma ReadKeyText(tag: byte, data: bytes, id: bytes, rest: bytes, t: Tables)
    requires Bit(tag, 0x10) && !Bit(tag, 0x20) && |id| >= 1
    requires ReadTagged(4, tag, data) == Tagged(|id| - 1, id + rest)
    ensures ReadKey(tag, data, t) == Ok(id, rest, t.(keys := AddKey(t.keys, id)))
  {
    assert (id + rest)[..|id|] == id;
    assert (id + rest)[|id|..] == rest;
  }

  // ----- values -----

  lemma ReadDataOfWrite(data: bytes, t: Tables, depth: nat, rest: bytes)
    requires |data| < U64 && depth >= 1
    ensures ReadValue(WriteTagged(6, |data|, 0) + data + rest, t, depth) == Ok(Data(data), rest, t)
  {
    ReadBlockOfWrite(6, data, 0, rest, t);
  }

  lemma ReadTextOfWrite(text: utf8, t: Tables, depth: nat, rest: bytes)
    requires |text| < U64 && depth >= 1
    ensures ReadValue(WriteTagged(5, |text|, 0x40) + text + rest, t, depth) == Ok(String(text), rest, t)
  {
    ReadBlockOfWrite(5, text, 0x40, rest, t);
  }

  lemma ReadBoolOfWrite(truth: bool, t: Tables, depth: nat, rest: bytes)
    requires depth >= 1
    ensures ReadValue(WriteTagged(4, if truth then 1 else 0, 0xE0) + rest, t, depth) == Ok(Bool(truth), rest, t)
  {
    var b := WriteTagged(4, if truth then 1 else 0, 0xE0);
    ReadTaggedOfWrite(4, if truth then 1 else 0, 0xE0, rest);
    Behind(b, rest);
  }

  lemma ReadNumberOfWrite(i: i64, t: Tables, depth: nat, rest: bytes)
    requires WriteInt(i).Some? && depth >= 1
    ensures ReadValue(WriteInt(i).value + rest, t, depth) == Ok(Int(i), rest, t)
  {
    ReadIntOfWrite(i, rest, t);
    Behind(WriteInt(i).value, rest);
  }

  /** The head of a container, written with `mask` and followed by its members. */
  lemma ReadHead(n: nat, mask: byte, body: bytes, rest: bytes)
    requires n < U64 && (mask == 0xC0 || mask == 0xD0)
    ensures var data := WriteTagged(4, n, mask) + body + rest;
      && |data| >= 1 && data[0] / 0x40 == 3
      && !Bit(data[0], 0x20) && (Bit(data[0], 0x10) <==> mask == 0xD0)
      && ReadTagged(4, data[0], data[1..]) == Tagged(n, body + rest)
  {
    var head := WriteTagged(4, n, mask);
    Cut(head, body, rest);
    Behind(head, body + rest);
    ReadTaggedOfWrite(4, n, mask, body + rest);
    assert mask <= head[0] < mask + 0x10;
  }

  lemma {:induction false} ReadValueOfWrite(v: Value, t: Tables, depth: nat, rest: bytes)
    requires WriteValue(v, t).Some?
    requires depth >= Height(v)
    ensures var e := WriteValue(v, t).value;
      ReadValue(e.bytes + rest, t, depth) == Ok(Normalise(v), rest, e.tables)
    decreases v, 0
  {
    match v
    case Array(items) => ReadArrayOfWrite(items, t, depth, rest);
    case Dict(attributes) => ReadDictOfWrite(attributes, t, depth, rest);
    case _ => ReadScalarOfWrite(v, t, depth, rest);
  }

  lemma ReadScalarOfWrite(v: Value, t: Tables, depth: nat, rest: bytes)
    requires !v.Array? && !v.Dict?
    requires WriteValue(v, t).Some? && depth >= 1
    ensures WriteValue(v, t).value.tables == t
    ensures ReadValue(WriteValue(v, t).value.bytes + rest, t, depth) == Ok(v, rest, t)
  {
    match v
    case Data(data) => ReadDataOfWrite(data, t, depth, rest);
    case String(text) => ReadTextOfWrite(text, t, depth, rest);
    case Int(i) => ReadNumberOfWrite(i, t, depth, rest);
    case Bool(truth) => ReadBoolOfWrite(truth, t, depth, rest);
  }

  lemma {:induction false} ReadArrayOfWrite(items: seq<Value>, t: Tables, depth: nat, rest: bytes)
    requires |items| < U64 && WriteItems(items, t).Some?
    requires depth >= 1 + ItemsHeight(items)
    ensures var body := WriteItems(items, t).value;
      ReadValue(WriteTagged(4, |items|, 0xD0) + body.bytes + rest, t, depth)
      == Ok(Array(NormaliseItems(items)), rest, body.tables)
    decreases items, 1
  {
    var body := WriteItems(items, t).value.bytes;
    ReadItemsOfWrite(items, t, depth - 1, rest);
    ReadHead(|items|, 0xD0, body, rest);
    ReadArray(WriteTagged(4, |items|, 0xD0) + body + rest, |items|, body + rest, t, depth);
  }

  lemma {:induction false} ReadDictOfWrite(attributes: seq<Attribute>, t: Tables, depth: nat, rest: bytes)
    requires |attributes| < U64 && WriteNested(attributes, t).Some?
    requires depth >= 1 + NestedHeight(attributes)
    ensures var body := WriteNested(attributes, t).value;
      ReadValue(WriteTagged(4, |attributes|, 0xC0) + body.bytes + rest, t, depth)
      == Ok(Dict(NormaliseNested(attributes)), rest, body.tables)
    decreases attributes, 1
  {
    var body := WriteNested(attributes, t).value.bytes;
    ReadNestedOfWrite(attributes, t, depth - 1, rest);
    ReadHead(|attributes|, 0xC0, body, rest);
    ReadDict(WriteTagged(4, |attributes|, 0xC0) + body + rest, |attributes|, body + rest, t, depth);
  }

  lemma ReadArray(data: bytes, n: nat, members: bytes, t: Tables, depth: nat)
    requires |data| >= 1 && depth >= 1
    requires data[0] / 0x40 == 3 && !Bit(data[0], 0x20) && Bit(data[0], 0x10)
    requires ReadTagged(4, data[0], data[1..]) == Tagged(n, members)
    ensures ReadValue(data, t, depth) == AsArray(ReadItems(n, members, t, depth - 1))
  {
  }

  lemma ReadDict(data: bytes, n: nat, members: bytes, t: Tables, depth: nat)
    requires |data| >= 1 && depth >= 1
    requires data[0] / 0x40 == 3 && !Bit(data[0], 0x20) && !Bit(data[0], 0x10)
    requires ReadTagged(4, data[0], data[1..]) == Tagged(n, members)
    ensures ReadValue(data, t, depth) == AsDict(ReadAttributes(n, members, t, depth - 1))
  {
  }

  lemma {:induction false} ReadItemsOfWrite(items: seq<Value>, t: Tables, depth: nat, rest: bytes)
    requires WriteItems(items, t).Some?
    requires depth >= ItemsHeight(items)
    ensures var e := WriteItems(items, t).value;
      ReadItems(|items|, e.bytes + rest, t, depth) == Ok(NormaliseItems(items), rest, e.tables)
    decreases items, 0
  {
    if items == [] {
      assert [] + rest == rest;
    } else {
      var first := WriteValue(items[0], t).value;
      var others := WriteItems(items[1..], first.tables).value;
      Cut(first.bytes, others.bytes, rest);
      ReadValueOfWrite(items[0], t, depth, others.bytes + rest);
      ReadItemsOfWrite(items[1..], first.tables, depth, rest);
    }
  }

  lemma {:induction false} ReadNestedOfWrite(attributes: seq<Attribute>, t: Tables, depth: nat, rest: bytes)
    requires WriteNested(attributes, t).Some?
    requires depth >= NestedHeight(attributes)
    ensures var e := WriteNested(attributes, t).value;
      ReadAttributes(|attributes|, e.bytes + rest, t, depth) == Ok(NormaliseNested(attributes), rest, e.tables)
    decreases attributes, 0
  {
    if attributes == [] {
      assert [] + rest == rest;
    } else {
      var a := attributes[0];
      var first := WriteAttribute(a.id, a.value, ShouldCache(a), t).value;
      var others := WriteNested(attributes[1..], first.tables).value;
      Cut(first.bytes, others.bytes, rest);
      ReadAttributeOfWrite(a.id, a.value, ShouldCache(a), t, depth, others.bytes + rest);
      ReadNestedOfWrite(attributes[1..], first.tables, depth, rest);
    }
  }

  // ----- attributes -----

  /** A cached, table-free value: stored on first use, named by its index afterwards. */
  lemma {:induction false} ReadCachedOfWrite(value: Value, t: Tables, keys: KeyCache, tag: byte, depth: nat, rest: bytes)
    requires TableFree(value)
    requires WriteCached(value, t).Some?
    requires depth >= Height(value)
    requires var p := WriteCached(value, t).value;
      (Bit(tag, 0x80) <==> p.flags == 0x80) && (Bit(tag, 0x40) <==> p.flags == 0x40)
    ensures var p := WriteCached(value, t).value;
      ReadPayload(tag, p.bytes + rest, t.(keys := keys), depth)
      == Ok((Normalise(value), true), rest, p.tables.(keys := keys))
    decreases value, 1
  {
    var p := WriteCached(value, t).value;
    var u := t.(keys := keys);
    TableFreeWrite(value, t, u);
    var item := WriteValue(value, t).value.bytes;
    if p.flags == 0x80 {
      ReadValueOfWrite(value, u, depth, []);
      assert item + [] == item;
      ReadReference(item, Find(t.values.cache, item).value, u, tag, depth, rest);
    } else {
      ReadValueOfWrite(value, u, depth, rest);
      assert (item + rest)[..|item + rest| - |rest|] == item;
    }
  }

  /** A reference into the value table reads the stored bytes. */
  lemma ReadReference(item: bytes, index: u64, t: Tables, tag: byte, depth: nat, rest: bytes)
    requires Bit(tag, 0x80) && Get(t.values.cache, index) == Some(item)
    ensures ReadPayload(tag, WriteTagged(8, index, 0) + rest, t, depth) == AsStored(ReadValue(item, t, depth), rest)
  {
    ReadTaggedOfWrite(8, index, 0, rest);
    Behind(WriteTagged(8, index, 0), rest);
  }

  lemma {:induction false} ReadAttributeOfWrite(
    id: bytes, value: Value, cached: bool, t: Tables, depth: nat, rest: bytes)
    requires cached ==> TableFree(value)
    requires WriteAttribute(id, value, cached, t).Some?
    requires depth >= Height(value)
    ensures var e := WriteAttribute(id, value, cached, t).value;
      ReadAttribute(e.bytes + rest, t, depth) == Ok(Attribute(id, Normalise(value), cached), rest, e.tables)
    decreases value, 2
  {
    if cached {
      var p := WriteCached(value, t).value;
      TableFreeWrite(value, t, t);
      ReadAfterKey(id, p.flags, p.bytes, t, depth, rest);
      var (key, keys) := WriteKey(id, p.flags, t.keys).value;
      ReadCachedOfWrite(value, t, keys, key[0], depth, rest);
    } else {
      var keys := WriteKey(id, 0, t.keys).value.1;
      var body := WriteValue(value, t.(keys := keys)).value;
      ReadAfterKey(id, 0, body.bytes, t, depth, rest);
      ReadValueOfWrite(value, t.(keys := keys), depth, rest);
    }
  }

  /** After its key, an attribute is its payload. */
  lemma ReadAfterKey(id: bytes, flags: byte, payload: bytes, t: Tables, depth: nat, rest: bytes)
    requires flags == 0 || flags == 0x40 || flags == 0x80
    requires WriteKey(id, flags, t.keys).Some?
    ensures var (key, keys) := WriteKey(id, flags, t.keys).value;
      && |key| >= 1
      && (Bit(key[0], 0x80) <==> flags == 0x80)
      && (Bit(key[0], 0x40) <==> flags == 0x40)
      && ReadAttribute(key + payload + rest, t, depth)
         == AsAttribute(id, ReadPayload(key[0], payload + rest, t.(keys := keys), depth))
  {
    var key := WriteKey(id, flags, t.keys).value.0;
    Cut(key, payload, rest);
    ReadKeyOfWrite(id, flags, t, payload + rest);
    Behind(key, payload + rest);
  }

  // ----- messages -----

  /** What the encoder asks of its caller: a value it is told to cache uses no table itself. */
  predicate CacheSafe(attributes: seq<Attribute>) {
    forall i :: 0 <= i < |attributes| && attributes[i].cached ==> TableFree(attributes[i].value)
  }

  lemma {:induction false} ReadAllOfWrite(attributes: seq<Attribute>, t: Tables, depth: nat)
    requires CacheSafe(attributes)
    requires WriteAttributes(attributes, t).Some?
    requires depth >= NestedHeight(attributes)
    ensures var e := WriteAttributes(attributes, t).value;
      ReadAllAttributes(e.bytes, t, depth) == Ok(NormaliseAttributes(attributes), [], e.tables)
  {
    if attributes != [] {
      var a := attributes[0];
      var first := WriteAttribute(a.id, a.value, a.cached, t).value;
      var others := WriteAttributes(attributes[1..], first.tables).value;
      ReadAttributeOfWrite(a.id, a.value, a.cached, t, depth, others.bytes);
      ReadAllOfWrite(attributes[1..], first.tables, depth);
    }
  }

  /**
   Lockstep and round trip for one message: whatever the tables, the decoder reads
   exactly the encoder's bytes, returns the normalised message and ends with the
   encoder's tables.
   */
  lemma DecodeOfEncode(m: Message, t: Tables, depth: nat, rest: bytes)
    requires CacheSafe(m.attributes)
    requires EncodeMessage(m, t).Some?
    requires depth >= NestedHeight(m.attributes)
    ensures var e := EncodeMessage(m, t).value;
      DecodeMessage(e.bytes + rest, t, depth) == Ok(NormaliseMessage(m), rest, e.tables)
  {
    var body := WriteAttributes(m.attributes, t).value.bytes;
    ReadMessageHead(m.command, body, rest);
    assert (body + rest)[..|body|] == body;
    assert (body + rest)[|body|..] == rest;
    ReadAllOfWrite(m.attributes, t, depth);
  }

  lemma ReadMessageHead(command: byte, body: bytes, rest: bytes)
    requires |body| < U64
    ensures var data := [command] + (WriteTagged(8, |body|, 0) + body) + rest;
      && |data| >= 2 && data[0] == command
      && ReadTagged(8, data[1], data[2..]) == Tagged(|body|, body + rest)
  {
    var head := WriteTagged(8, |body|, 0);
    var data := [command] + (head + body) + rest;
    Cut(head, body, rest);
    assert data[1..] == head + (body + rest);
    Behind(head, body + rest);
    assert data[2..] == data[1..][1..];
    ReadTaggedOfWrite(8, |body|, 0, body + rest);
  }
}
