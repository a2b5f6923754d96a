/**
 `APSPackedEncoder` (src/aps.rs) as it runs: buffers grow and the tables roll in place.
 Every method is proved equal to the format function of module ApsSpec.
 */
module ApsCoder {
  import opened Bytes
  import opened Io
  import opened ApsTables
  import opened Varint
  import opened ApsSpec

  // ----- encoder -----

  /** `prefix` written before the encoding `e`. */
  ghost function Continue(prefix: bytes, e: Option<Encoded>): Option<Encoded> {
    match e
    case None => None
    case Some(x) => Some(Encoded(prefix + x.bytes, x.tables))
  }

  /** What a writing method did: `wrote` is the expected encoding. */
  twostate predicate Wrote(ok: bool, wrote: Option<Encoded>, w: Writer, after: Tables)
    reads w
  {
    && ok == wrote.Some?
    && (ok ==> w.out == old(w.out) + wrote.value.bytes && after == wrote.value.tables)
  }

  class Encoder {
    const keyTable: KeyTable
    const valueTable: ValueCache

    constructor (cacheSize: nat)
      ensures fresh(keyTable) && fresh(valueTable)
      ensures T() == Tables([], ValueTable([], 0, cacheSize))
    {
      keyTable := new KeyTable();
      valueTable := new ValueCache(cacheSize);
    }

    function T(): Tables
      reads keyTable, valueTable
    {
      Tables(keyTable.cache, valueTable.Table())
    }

    method WriteTaggedValue(w: width, value: nat, mask: byte, writer: Writer)
      requires Disjoint(mask, w)
      modifies writer
      ensures writer.out == old(writer.out) + WriteTagged(w, value, mask)
    {
      var top := Span(w) - 1;
      if value < top {
        writer.Write([value + mask]);
        return;
      }
      writer.Write([top + mask]);
      WriteGroups(value - top, writer);
      Assoc(old(writer.out), [top + mask], Groups(value - top));
    }

    /** The rest of a tagged integer, seven bits a byte. */
    method WriteGroups(value: nat, writer: Writer)
      modifies writer
      ensures writer.out == old(writer.out) + Groups(value)
    {
      var current := value;
      ghost var wanted := writer.out + Groups(value);
      if current == 0 {
        writer.Write([0]);
      }
      while current != 0
        invariant current >= 0
        invariant writer.out + (if current > 0 then Groups(current) else []) == wanted
      {
        var byte := current % 0x80;
        GroupsStep(writer.out, current);
        current := current / 0x80;
        if current != 0 {
          byte := byte + 0x80;
        }
        writer.Write([byte]);
      }
    }

    method WriteData(w: width, block: bytes, mask: byte, writer: Writer) returns (ok: bool)
      requires Disjoint(mask, w)
      modifies writer
      ensures ok == WriteBlock(w, block, mask).Some?
      ensures ok ==> writer.out == old(writer.out) + WriteBlock(w, block, mask).value
    {
      if |block| >= U64 {
        return false;
      }
      WriteTaggedValue(w, |block|, mask, writer);
      writer.Write(block);
      ok := true;
    }

    method WriteInteger(i: i64, writer: Writer) returns (ok: bool)
      modifies writer
      ensures ok == WriteInt(i).Some?
      ensures ok ==> writer.out == old(writer.out) + WriteInt(i).value
    {
      if 0 <= i < 0x20 {
        writer.Write([i + 0x80]);
      } else {
        if i == -0x8000_0000_0000_0000 {
          return false;
        }
        var magnitude := if i < 0 then -i else i;
        MagnitudeLength(magnitude);
        var block := FixedBigEndian(magnitude, 8);
        StrippedMagnitude(magnitude);
        while block[0] == 0
          invariant 1 <= |block| <= 8
          invariant Stripped(block) == BigEndian(magnitude)
          decreases |block|
        {
          block := block[1..];
        }
        var tag := |block| - 1 + 0xA0;
        if i < 0 {
          tag := tag + 8;
        }
        writer.Write([tag]);
        writer.Write(block);
      }
      ok := true;
    }

    method WriteAttr(a: Attribute, writer: Writer) returns (ok: bool)
      modifies writer, keyTable, valueTable
      ensures Wrote(ok, WriteAttribute(a.id, a.value, a.cached, old(T())), writer, T())
      decreases a.value, 2
    {
      var flags: byte := 0;
      var existing: Option<nat> := None;
      var cachedBuffer: bytes := [];
      if a.cached {
        ok, existing, cachedBuffer := CacheValue(a.value);
        if !ok {
          return;
        }
        flags := if existing.Some? then 0x80 else 0x40;
      }
      ghost var t := T();
      ok := WriteKeyPart(a.id, flags, writer);
      if !ok {
        return;
      }
      ghost var key := WriteKey(a.id, flags, t.keys).value.0;
      ghost var payload;
      ok, payload := WritePayload(a, existing, cachedBuffer, writer);
      Assoc(old(writer.out), key, payload);
    }

    /** Actually writes the value, or what stands for it. */
    method WritePayload(a: Attribute, existing: Option<nat>, cachedBuffer: bytes, writer: Writer)
      returns (ok: bool, ghost payload: bytes)
      requires existing.Some? ==> a.cached
      modifies writer, keyTable, valueTable
      ensures ok ==> writer.out == old(writer.out) + payload
      ensures a.cached ==> ok && T() == old(T())
      ensures a.cached ==> payload == if existing.Some? then WriteTagged(8, existing.value, 0) else cachedBuffer
      ensures !a.cached ==>
        var e := WriteValue(a.value, old(T()));
        ok == e.Some? && (ok ==> payload == e.value.bytes && T() == e.value.tables)
      decreases a.value, 1
    {
      ok, payload := true, [];
      if existing.Some? {
        WriteTaggedValue(8, existing.value, 0, writer);
        payload := WriteTagged(8, existing.value, 0);
      } else if a.cached {
        writer.Write(cachedBuffer);
        payload := cachedBuffer;
      } else {
        ghost var e := WriteValue(a.value, T());
        ok := WriteVal(a.value, writer);
        payload := if ok then e.value.bytes else [];
      }
    }

    /** Writes the value to a buffer and looks it up in the value table, or adds it. */
    method CacheValue(value: Value) returns (ok: bool, existing: Option<nat>, buffer: bytes)
      modifies keyTable, valueTable
      ensures var p := WriteCached(value, old(T()));
        && ok == p.Some?
        && (ok ==> T() == p.value.tables)
        && (ok && existing.Some? ==> p.value.flags == 0x80 && p.value.bytes == WriteTagged(8, existing.value, 0))
        && (ok && existing.None? ==> p.value.flags == 0x40 && p.value.bytes == buffer)
      decreases value, 1
    {
      existing, buffer := None, [];
      var w := new Writer();
      ok := WriteVal(value, w);
      if !ok {
        return;
      }
      buffer := w.out;
      ghost var plain := WriteValue(value, old(T())).value;
      assert T() == plain.tables && buffer == plain.bytes;
      existing := FindIndex(valueTable.cache, buffer);
      if existing.None? {
        ok := valueTable.AddItem(buffer);
      } else {
        ok := existing.value < U64;
      }
    }

    /** The tag byte, and the key's text when the table does not hold it. */
    method WriteKeyPart(id: bytes, flags: byte, writer: Writer) returns (ok: bool)
      requires flags == 0 || flags == 0x40 || flags == 0x80
      modifies writer, keyTable
      ensures var k := WriteKey(id, flags, old(keyTable.cache));
        && ok == k.Some?
        && (ok ==> writer.out == old(writer.out) + k.value.0 && keyTable.cache == k.value.1)
    {
      if |id| == 1 && IsLowNibble(id[0]) {
        writer.Write([id[0] + flags]);
      } else {
        var known := FindIndex(keyTable.cache, id);
        if known.Some? {
          writer.Write([0x20 + flags + known.value]);
        } else {
          if id == [] || |id| - 1 >= U64 {
            return false;
          }
          ghost var before := writer.out;
          WriteTaggedValue(4, |id| - 1, 0x10 + flags, writer);
          keyTable.AddItem(id);
          writer.Write(id);
          assert writer.out == before + (WriteTagged(4, |id| - 1, 0x10 + flags) + id);
        }
      }
      ok := true;
    }

    method WriteVal(v: Value, writer: Writer) returns (ok: bool)
      modifies writer, keyTable, valueTable
      ensures Wrote(ok, WriteValue(v, old(T())), writer, T())
      decreases v, 0
    {
      match v
      case Data(data) => ok := WriteData(6, data, 0, writer);
      case String(text) => ok := WriteData(5, text, 0x40, writer);
      case Int(i) => ok := WriteInteger(i, writer);
      case Bool(truth) =>
        WriteTaggedValue(4, if truth then 1 else 0, 0xE0, writer);
        ok := true;
      case Dict(attributes) =>
        if |attributes| >= U64 {
          return false;
        }
        WriteTaggedValue(4, |attributes|, 0xC0, writer);
        ok := WriteEntries(attributes, writer);
      case Array(items) =>
        if |items| >= U64 {
          return false;
        }
        WriteTaggedValue(4, |items|, 0xD0, writer);
        ok := WriteMembers(items, writer);
    }

    method WriteEntries(attributes: seq<Attribute>, writer: Writer) returns (ok: bool)
      modifies writer, keyTable, valueTable
      ensures Wrote(ok, WriteNested(attributes, old(T())), writer, T())
      decreases attributes, 0
    {
      ghost var done: bytes := [];
      assert attributes[0..] == attributes;
      ghost var wanted := WriteNested(attributes, T());
      ContinueNothing(wanted);
      for k := 0 to |attributes|
        invariant writer.out == old(writer.out) + done
        invariant wanted == Continue(done, WriteNested(attributes[k..], T()))
      {
        var e := attributes[k];
        NestedStep(attributes, k, done, T());
        ghost var first := WriteAttribute(e.id, e.value, ShouldCache(e), T());
        ok := WriteAttr(e.(cached := ShouldCache(e)), writer);
        if !ok {
          return;
        }
        Assoc(old(writer.out), done, first.value.bytes);
        done := done + first.value.bytes;
      }
      ok := true;
    }

    method WriteMembers(items: seq<Value>, writer: Writer) returns (ok: bool)
      modifies writer, keyTable, valueTable
      ensures Wrote(ok, WriteItems(items, old(T())), writer, T())
      decreases items, 0
    {
      ghost var done: bytes := [];
      assert items[0..] == items;
      ghost var wanted := WriteItems(items, T());
      ContinueNothing(wanted);
      for k := 0 to |items|
        invariant writer.out == old(writer.out) + done
        invariant wanted == Continue(done, WriteItems(items[k..], T()))
      {
        ItemsStep(items, k, done, T());
        ghost var first := WriteValue(items[k], T());
        ok := WriteVal(items[k], writer);
        if !ok {
          return;
        }
        Assoc(old(writer.out), done, first.value.bytes);
        done := done + first.value.bytes;
      }
      ok := true;
    }

    method Encode(m: Message, writer: Writer) returns (ok: bool)
      modifies writer, keyTable, valueTable
      ensures Wrote(ok, EncodeMessage(m, old(T())), writer, T())
    {
      writer.Write([m.command]);
      var buffer := new Writer();
      ok := WriteAll(m.attributes, buffer);
      if !ok {
        return;
      }
      ghost var start := writer.out;
      ok := WriteData(8, buffer.out, 0, writer);
      if ok {
        ghost var block := WriteBlock(8, buffer.out, 0).value;
        assert start + block == old(writer.out) + ([m.command] + block);
      }
    }

    method WriteAll(attributes: seq<Attribute>, buffer: Writer) returns (ok: bool)
      modifies buffer, keyTable, valueTable
      ensures Wrote(ok, WriteAttributes(attributes, old(T())), buffer, T())
    {
      ghost var done: bytes := [];
      assert attributes[0..] == attributes;
      ghost var wanted := WriteAttributes(attributes, T());
      ContinueNothing(wanted);
      for k := 0 to |attributes|
        invariant buffer.out == old(buffer.out) + done
        invariant wanted == Continue(done, WriteAttributes(attributes[k..], T()))
      {
        var a := attributes[k];
        AttributesStep(attributes, k, done, T());
        ghost var first := WriteAttribute(a.id, a.value, a.cached, T());
        ok := WriteAttr(a, buffer);
        if !ok {
          return;
        }
        Assoc(old(buffer.out), done, first.value.bytes);
        done := done + first.value.bytes;
      }
      ok := true;
    }
  }

  /** `b & 0xf == b` */
  predicate IsLowNibble(b: byte)
    ensures IsLowNibble(b) <==> b < 0x10
  {
    b % 0x10 == b
  }

  /** One more attribute written after `done`. */
  lemma NestedStep(attributes: seq<Attribute>, k: nat, done: bytes, t: Tables)
    requires k < |attributes|
    ensures var a := attributes[k];
      var first := WriteAttribute(a.id, a.value, ShouldCache(a), t);
      Continue(done, WriteNested(attributes[k..], t))
      == if first.None? then None
         else Continue(done + first.value.bytes, WriteNested(attributes[k + 1..], first.value.tables))
  {
    var a := attributes[k];
    var first := WriteAttribute(a.id, a.value, ShouldCache(a), t);
    assert attributes[k..][1..] == attributes[k + 1..];
    if first.Some? {
      ContinueTwice(done, first.value.bytes, WriteNested(attributes[k + 1..], first.value.tables));
    }
  }

  lemma ItemsStep(items: seq<Value>, k: nat, done: bytes, t: Tables)
    requires k < |items|
    ensures var first := WriteValue(items[k], t);
      Continue(done, WriteItems(items[k..], t))
      == if first.None? then None
         else Continue(done + first.value.bytes, WriteItems(items[k + 1..], first.value.tables))
  {
    var first := WriteValue(items[k], t);
    assert items[k..][1..] == items[k + 1..];
    if first.Some? {
      ContinueTwice(done, first.value.bytes, WriteItems(items[k + 1..], first.value.tables));
    }
  }

  lemma AttributesStep(attributes: seq<Attribute>, k: nat, done: bytes, t: Tables)
    requires k < |attributes|
    ensures var a := attributes[k];
      var first := WriteAttribute(a.id, a.value, a.cached, t);
      Continue(done, WriteAttributes(attributes[k..], t))
      == if first.None? then None
         else Continue(done + first.value.bytes, WriteAttributes(attributes[k + 1..], first.value.tables))
  {
    var a := attributes[k];
    var first := WriteAttribute(a.id, a.value, a.cached, t);
    assert attributes[k..][1..] == attributes[k + 1..];
    if first.Some? {
      ContinueTwice(done, first.value.bytes, WriteAttributes(attributes[k + 1..], first.value.tables));
    }
  }

  lemma ContinueNothing(e: Option<Encoded>)
    ensures Continue([], e) == e
  {
    if e.Some? {
      assert [] + e.value.bytes == e.value.bytes;
    }
  }

  lemma ContinueTwice(a: bytes, b: bytes, e: Option<Encoded>)
    ensures Continue(a, Continue(b, e)) == Continue(a + b, e)
  {
    if e.Some? {
      assert a + (b + e.value.bytes) == a + b + e.value.bytes;
    }
  }

  lemma StrippedMagnitude(n: nat)
    requires 0 < n < 0x8000_0000_0000_0000
    ensures Stripped(FixedBigEndian(n, 8)) == BigEndian(n)
  {
    assert Pow256(8) == U64 by {
      assert Pow256(4) == U32;
    }
    StrippedFixed(n, 8);
  }
}
