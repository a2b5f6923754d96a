/**
 Whole message streams of apns-pack-v1 (src/aps.rs): cutting the byte stream into
 messages, lockstep over any number of messages, and when the encoder succeeds.
 */
module ApsStream {
  import opened Bytes
  import opened ApsTables
  import opened Varint
  import opened ApsSpec
  import opened ApsRoundTrip

  // ----- framing -----

  /** Pulls length bytes until one has its top bit clear; `k` bytes have been pulled so far. */
  function HeadLength(data: bytes, k: nat): (r: Option<nat>)
    requires 1 <= k <= |data|
    ensures r.Some? ==> k <= r.value <= |data|
    decreases |data| - k
  {
    if data[k - 1] < 0x80 then Some(k)
    else if k == |data| then None
    else HeadLength(data, k + 1)
  }

  /** `read_from_stream`: collects one message, then decodes it. */
  function ReadFromStream(data: bytes, t: Tables, depth: nat): Read<Message> {
    if |data| < 2 then Eof([], t)
    else
      match FrameHead(data)
      case None => Eof([], t)
      case Some(k) => FinishFrame(data[..k], data[k..], t, depth)
  }

  /** The message whose command and length bytes are `head`; the stream goes on with `more`. */
  function FinishFrame(head: bytes, more: bytes, t: Tables, depth: nat): Read<Message>
    requires |head| >= 2
  {
    match ReadTagged(8, head[1], head[2..])
    case TaggedPanic => Panic
    case Tagged(n, _) =>
      if n > |more| then Eof([], t)
      else
        match DecodeMessage(head + more[..n], t, depth)
        case Ok(m, _, t') => Ok(m, more[n..], t')
        case Eof(e, t') => Eof(e, t')
        case Panic => Panic
  }

  /** The length bytes stop at the last group of the number. */
  lemma {:induction false} HeadOfGroups(before: bytes, n: nat, rest: bytes)
    requires |before| >= 1 && before[|before| - 1] >= 0x80
    ensures HeadLength(before + Groups(n) + rest, |before|) == Some(|before| + |Groups(n)|)
    decreases n
  {
    var data := before + Groups(n) + rest;
    assert data[|before|] == Groups(n)[0];
    assert data[|before| - 1] == before[|before| - 1];
    if n < 128 {
      assert data[|before|] < 0x80;
      assert HeadLength(data, |before|) == HeadLength(data, |before| + 1);
    } else {
      var longer := before + [n % 128 + 128];
      assert data == longer + Groups(n / 128) + rest;
      HeadOfGroups(longer, n / 128, rest);
    }
  }

  /** The length of the frame's head, from the stream's first bytes. */
  function FrameHead(data: bytes): (r: Option<nat>)
    requires |data| >= 2
    ensures r.Some? ==> 2 <= r.value <= |data|
  {
    if data[1] == 0xFF then HeadLength(data, 2) else Some(2)
  }

  lemma FrameHeadOfMessage(command: byte, n: u64, rest: bytes)
    ensures var head := [command] + WriteTagged(8, n, 0);
      FrameHead(head + rest) == Some(|head|)
  {
    var head := [command] + WriteTagged(8, n, 0);
    if n >= 0xFF {
      var before: bytes := [command, 0xFF];
      assert head == before + Groups(n - 0xFF);
      HeadOfGroups(before, n - 0xFF, rest);
    }
  }

  /** The collected message is exactly the one the encoder wrote. */
  lemma FrameOfMessage(command: byte, body: bytes, rest: bytes)
    requires |body| < U64
    ensures var head := [command] + WriteTagged(8, |body|, 0);
      var data := head + body + rest;
      && FrameHead(data) == Some(|head|)
      && ReadTagged(8, head[1], head[2..]) == Tagged(|body|, [])
      && data[..|head|] == head && data[|head|..] == body + rest
      && (body + rest)[..|body|] == body && (body + rest)[|body|..] == rest
  {
    var tagged := WriteTagged(8, |body|, 0);
    var head := [command] + tagged;
    var data := head + body + rest;
    assert data == head + (body + rest);
    FrameHeadOfMessage(command, |body|, body + rest);
    ReadTaggedOfWrite(8, |body|, 0, []);
    assert tagged[1..] + [] == tagged[1..];
    assert head[2..] == tagged[1..];
  }

  /** One message from a stream, whatever bytes follow it. */
  lemma ReadFromStreamOfEncode(m: Message, t: Tables, depth: nat, rest: bytes)
    requires CacheSafe(m.attributes)
    requires EncodeMessage(m, t).Some?
    requires depth >= NestedHeight(m.attributes)
    ensures var e := EncodeMessage(m, t).value;
      ReadFromStream(e.bytes + rest, t, depth) == Ok(NormaliseMessage(m), rest, e.tables)
  {
    var e := EncodeMessage(m, t).value;
    var body := WriteAttributes(m.attributes, t).value.bytes;
    var head := [m.command] + WriteTagged(8, |body|, 0);
    assert e.bytes == head + body;
    FrameOfMessage(m.command, body, rest);
    DecodeOfEncode(m, t, depth, []);
    assert e.bytes + [] == e.bytes;
  }

  // ----- streams -----

  function EncodeStream(ms: seq<Message>, t: Tables): Option<Encoded> {
    if ms == [] then Some(Encoded([], t))
    else
      var first :- EncodeMessage(ms[0], t);
      var others :- EncodeStream(ms[1..], first.tables);
      Some(Encoded(first.bytes + others.bytes, others.tables))
  }

  function DecodeStream(n: nat, data: bytes, t: Tables, depth: nat): Read<seq<Message>> {
    if n == 0 then Ok([], data, t)
    else
      match ReadFromStream(data, t, depth)
      case Eof(e, t1) => Eof(e, t1)
      case Panic => Panic
      case Ok(m, d1, t1) =>
        match DecodeStream(n - 1, d1, t1, depth)
        case Ok(ms, d2, t2) => Ok([m] + ms, d2, t2)
        case Eof(e, t2) => Eof(e, t2)
        case Panic => Panic
  }

  function NormaliseStream(ms: seq<Message>): (r: seq<Message>)
    ensures |r| == |ms|
    ensures forall i :: 0 <= i < |ms| ==> r[i] == NormaliseMessage(ms[i])
  {
    if ms == [] then [] else [NormaliseMessage(ms[0])] + NormaliseStream(ms[1..])
  }

  ghost predicate CacheSafeStream(ms: seq<Message>) {
    forall i :: 0 <= i < |ms| ==> CacheSafe(ms[i].attributes)
  }

  ghost predicate DeepEnough(ms: seq<Message>, depth: nat) {
    forall i :: 0 <= i < |ms| ==> depth >= NestedHeight(ms[i].attributes)
  }

  /**
   Lockstep over a stream: starting from equal tables, a decoder fed the encoder's
   concatenated bytes (and anything after them) cuts them at the true boundaries,
   returns the normalised messages in order and ends with the encoder's tables.
   As `ms` is any sequence, the tables agree after each message.
   */
  lemma {:induction false} StreamLockstep(ms: seq<Message>, t: Tables, depth: nat, rest: bytes)
    requires CacheSafeStream(ms) && DeepEnough(ms, depth)
    requires EncodeStream(ms, t).Some?
    ensures var e := EncodeStream(ms, t).value;
      DecodeStream(|ms|, e.bytes + rest, t, depth) == Ok(NormaliseStream(ms), rest, e.tables)
  {
    if ms == [] {
      assert [] + rest == rest;
    } else {
      var first := EncodeMessage(ms[0], t).value;
      var others := EncodeStream(ms[1..], first.tables).value;
      Cut(first.bytes, others.bytes, rest);
      ReadFromStreamOfEncode(ms[0], t, depth, others.bytes + rest);
      StreamLockstep(ms[1..], first.tables, depth, rest);
    }
  }

  // ----- when the encoder succeeds -----

  /** The bytes of a value that uses no table; they do not depend on the tables. */
  function PlainBytes(v: Value): Option<bytes> {
    var e :- WriteValue(v, Tables([], ValueTable([], 0, 0)));
    Some(e.bytes)
  }

  /** A value the encoder accepts, every nested cached value within the budget `max`. */
  predicate Encodable(v: Value, max: nat) {
    match v
    case Data(data) => |data| < U64
    case String(text) => |text| < U64
    case Int(i) => i != -0x8000_0000_0000_0000
    case Dict(attributes) =>
      && |attributes| < U64
      && forall i :: 0 <= i < |attributes| ==> EncodableEntry(attributes[i], ShouldCache(attributes[i]), max)
    case Array(items) =>
      && |items| < U64
      && forall i :: 0 <= i < |items| ==> Encodable(items[i], max)
    case Bool(_) => true
  }

  predicate EncodableEntry(a: Attribute, cached: bool, max: nat)
    decreases a
  {
    && 1 <= |a.id| <= U64
    && Encodable(a.value, max)
    && (cached ==> TableFree(a.value) && PlainBytes(a.value).Some? && Fits(PlainBytes(a.value).value, max))
  }

  ghost predicate Good(t: Tables, max: nat) {
    && Accounted(t.values)
    && t.values.max == max
    && |t.values.cache| < U64
  }

  /** An accounted table within a u64 budget has a u64 number of entries. */
  lemma {:induction false} AccountedCount(cache: seq<bytes>)
    ensures ITEM_OVERHEAD * |cache| <= AccountedSize(cache)
  {
    if cache != [] {
      AccountedCount(cache[1..]);
    }
  }

  lemma {:induction false} ValueSucceeds(v: Value, t: Tables, max: nat)
    requires Encodable(v, max) && Good(t, max) && max < U64
    ensures WriteValue(v, t).Some? && Good(WriteValue(v, t).value.tables, max)
    decreases v, 0
  {
    match v
    case Dict(attributes) => NestedSucceeds(attributes, t, max);
    case Array(items) => ItemsSucceed(items, t, max);
    case _ =>
  }

  lemma {:induction false} ItemsSucceed(items: seq<Value>, t: Tables, max: nat)
    requires forall i :: 0 <= i < |items| ==> Encodable(items[i], max)
    requires Good(t, max) && max < U64
    ensures WriteItems(items, t).Some? && Good(WriteItems(items, t).value.tables, max)
    decreases items, 0
  {
    if items != [] {
      ValueSucceeds(items[0], t, max);
      ItemsSucceed(items[1..], WriteValue(items[0], t).value.tables, max);
    }
  }

  lemma {:induction false} NestedSucceeds(attributes: seq<Attribute>, t: Tables, max: nat)
    requires forall i :: 0 <= i < |attributes| ==> EncodableEntry(attributes[i], ShouldCache(attributes[i]), max)
    requires Good(t, max) && max < U64
    ensures WriteNested(attributes, t).Some? && Good(WriteNested(attributes, t).value.tables, max)
    decreases attributes, 0
  {
    if attributes != [] {
      var a := attributes[0];
      EntrySucceeds(a.id, a.value, ShouldCache(a), t, max);
      NestedSucceeds(attributes[1..], WriteAttribute(a.id, a.value, ShouldCache(a), t).value.tables, max);
    }
  }

  lemma KeySucceeds(id: bytes, flags: byte, keys: KeyCache)
    requires 1 <= |id| <= U64
    requires flags == 0 || flags == 0x40 || flags == 0x80
    ensures WriteKey(id, flags, keys).Some?
  {
  }

  lemma {:induction false} EntrySucceeds(id: bytes, value: Value, cached: bool, t: Tables, max: nat)
    requires EncodableEntry(Attribute(id, value, cached), cached, max)
    requires Good(t, max) && max < U64
    ensures WriteAttribute(id, value, cached, t).Some?
    ensures Good(WriteAttribute(id, value, cached, t).value.tables, max)
    decreases value, 2
  {
    if cached {
      TableFreeWrite(value, Tables([], ValueTable([], 0, 0)), t);
      CachedSucceeds(value, t, max);
      var p := WriteCached(value, t).value;
      KeySucceeds(id, p.flags, p.tables.keys);
    } else {
      KeySucceeds(id, 0, t.keys);
      var keys := WriteKey(id, 0, t.keys).value.1;
      ValueSucceeds(value, t.(keys := keys), max);
    }
  }

  lemma CachedSucceeds(value: Value, t: Tables, max: nat)
    requires PlainBytes(value).Some? && Fits(PlainBytes(value).value, max)
    requires WriteValue(value, t) == Some(Encoded(PlainBytes(value).value, t))
    requires Good(t, max) && max < U64
    ensures WriteCached(value, t).Some? && Good(WriteCached(value, t).value.tables, max)
  {
    var item := PlainBytes(value).value;
    if Find(t.values.cache, item).None? {
      AddValueAccounted(t.values, item);
      AccountedCount(AddValue(t.values, item).value.cache);
    }
  }

  predicate EncodableMessage(m: Message, max: nat) {
    forall i :: 0 <= i < |m.attributes| ==> EncodableEntry(m.attributes[i], m.attributes[i].cached, max)
  }

  lemma {:induction false} AttributesSucceed(attributes: seq<Attribute>, t: Tables, max: nat)
    requires forall i :: 0 <= i < |attributes| ==> EncodableEntry(attributes[i], attributes[i].cached, max)
    requires Good(t, max) && max < U64
    ensures WriteAttributes(attributes, t).Some? && Good(WriteAttributes(attributes, t).value.tables, max)
  {
    if attributes != [] {
      var a := attributes[0];
      EntrySucceeds(a.id, a.value, a.cached, t, max);
      AttributesSucceed(attributes[1..], WriteAttribute(a.id, a.value, a.cached, t).value.tables, max);
    }
  }

  /**
   The encoder never panics on a well-formed message whose cached values fit the
   budget, and it keeps the value table's bookkeeping exact.
   */
  lemma EncodeSucceeds(m: Message, t: Tables)
    requires EncodableMessage(m, t.values.max)
    requires Accounted(t.values) && t.values.max < U64
    ensures WriteAttributes(m.attributes, t).Some?
    ensures |WriteAttributes(m.attributes, t).value.bytes| < U64 ==> EncodeMessage(m, t).Some?
    ensures Accounted(WriteAttributes(m.attributes, t).value.tables.values)
    ensures WriteAttributes(m.attributes, t).value.tables.values.max == t.values.max
    ensures CacheSafe(m.attributes)
  {
    AccountedCount(t.values.cache);
    AttributesSucceed(m.attributes, t, t.values.max);
  }
}
