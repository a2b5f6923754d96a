/**
 The apns-pack-v1 format (src/aps.rs) as functions: what the encoder writes and
 what the decoder reads, both relative to the rolling tables.

 The encoder's result is None where the Rust code panics (a checked build also
 panics on integer overflow), and where a length would not fit a u64.  The
 decoder tells the end of the data (an io error) from a panic, and `depth` bounds
 its recursion the way the stack does.
 */
module ApsSpec {
  import opened Bytes
  import opened ApsTables
  import opened Varint

  datatype Value =
    | Data(data: bytes)
    | String(text: utf8)
    | Int(number: i64)
    | Dict(attributes: seq<Attribute>)
    | Array(items: seq<Value>)
    | Bool(truth: bool)

  datatype Attribute = Attribute(id: bytes, value: Value, cached: bool)

  datatype Message = Message(command: byte, attributes: seq<Attribute>)

  // "sT", "tP", "ua", "t", "sP", "E", "H", "cT", "sI"
  const CACHE_KEYS: seq<bytes> := [
    [0x73, 0x54], [0x74, 0x50], [0x75, 0x61], [0x74], [0x73, 0x50],
    [0x45], [0x48], [0x63, 0x54], [0x73, 0x49]
  ]

  // ----- tagged integers -----

  /** The widths of the integer field of a tag byte. */
  type width = w: int | w == 4 || w == 5 || w == 6 || w == 8 witness 4

  /** 2 to the power `w`. */
  function Span(w: width): (s: nat) {
    if w == 4 then 16 else if w == 5 then 32 else if w == 6 then 64 else 256
  }

  /** `mask` is a tag byte whose low `w` bits are clear. */
  predicate Disjoint(mask: byte, w: width) {
    mask % Span(w) == 0
  }

  function WriteTagged(w: width, value: nat, mask: byte): (r: bytes)
    requires Disjoint(mask, w)
    ensures |r| >= 1
  {
    var top := Span(w) - 1;
    if value < top then [value + mask] else [top + mask] + Groups(value - top)
  }

  datatype TaggedRead = Tagged(number: nat, rest: bytes) | TaggedPanic

  /** `tag` is the byte already read, `data` what follows it. */
  function ReadTagged(w: width, tag: byte, data: bytes): (r: TaggedRead)
    ensures r.Tagged? ==> |r.rest| <= |data|
  {
    var top := Span(w) - 1;
    if tag % Span(w) != top then Tagged(tag % Span(w), data)
    else
      GroupsShorten(data, 0);
      match ReadGroups(data, 0)
      case Complete(n, rest) => AddTop(n, top, rest)
      case Truncated(n) => AddTop(n, top, [])
      case Overflow => TaggedPanic
  }

  function AddTop(n: nat, top: nat, rest: bytes): TaggedRead {
    if n + top < U64 then Tagged(n + top, rest) else TaggedPanic
  }

  lemma {:induction false} GroupsShorten(data: bytes, idx: nat)
    ensures var r := ReadGroups(data, idx); r.Complete? ==> |r.rest| < |data|
    decreases |data|
  {
    if data != [] {
      GroupsShorten(data[1..], idx + 1);
    }
  }

  // ----- encoder -----

  datatype Encoded = Encoded(bytes: bytes, tables: Tables)

  predicate IsNibble(id: bytes) {
    |id| == 1 && id[0] < 0x10
  }

  predicate ShouldCache(a: Attribute) {
    !a.value.Array? && !a.value.Dict? && a.id in CACHE_KEYS
  }

  function Tag(w: width, length: nat, mask: byte): Option<bytes>
    requires Disjoint(mask, w)
  {
    if length < U64 then Some(WriteTagged(w, length, mask)) else None
  }

  /** A length-prefixed byte string. */
  function WriteBlock(w: width, block: bytes, mask: byte): Option<bytes>
    requires Disjoint(mask, w)
  {
    var head :- Tag(w, |block|, mask);
    Some(head + block)
  }

  function WriteInt(i: i64): Option<bytes> {
    if 0 <= i < 0x20 then Some([i + 0x80])
    else if i == -0x8000_0000_0000_0000 then None            // abs overflows
    else
      var magnitude := if i < 0 then -i else i;
      MagnitudeLength(magnitude);
      Some([|BigEndian(magnitude)| - 1 + 0xA0 + if i < 0 then 8 else 0] + BigEndian(magnitude))
  }

  lemma MagnitudeLength(n: nat)
    requires 0 < n < 0x8000_0000_0000_0000
    ensures 1 <= |BigEndian(n)| <= 8
  {
    assert Pow256(8) == U64 by {
      assert Pow256(4) == U32;
    }
    BigEndianLength(n, 8);
  }

  function WriteValue(v: Value, t: Tables): Option<Encoded>
    decreases v, 0
  {
    match v
    case Data(data) => var b :- WriteBlock(6, data, 0); Some(Encoded(b, t))
    case String(text) => var b :- WriteBlock(5, text, 0x40); Some(Encoded(b, t))
    case Int(i) => var b :- WriteInt(i); Some(Encoded(b, t))
    case Dict(attributes) =>
      var head :- Tag(4, |attributes|, 0xC0);
      var body :- WriteNested(attributes, t);
      Some(Encoded(head + body.bytes, body.tables))
    case Array(items) =>
      var head :- Tag(4, |items|, 0xD0);
      var body :- WriteItems(items, t);
      Some(Encoded(head + body.bytes, body.tables))
    case Bool(truth) => Some(Encoded(WriteTagged(4, if truth then 1 else 0, 0xE0), t))
  }

  function WriteItems(items: seq<Value>, t: Tables): Option<Encoded>
    decreases items, 0
  {
    if items == [] then Some(Encoded([], t))
    else
      var first :- WriteValue(items[0], t);
      var others :- WriteItems(items[1..], first.tables);
      Some(Encoded(first.bytes + others.bytes, others.tables))
  }

  /** The attributes of a dictionary; their `cached` flags are recomputed. */
  function WriteNested(attributes: seq<Attribute>, t: Tables): Option<Encoded>
    decreases attributes, 0
  {
    if attributes == [] then Some(Encoded([], t))
    else
      var a := attributes[0];
      var first :- WriteAttribute(a.id, a.value, ShouldCache(a), t);
      var others :- WriteNested(attributes[1..], first.tables);
      Some(Encoded(first.bytes + others.bytes, others.tables))
  }

  /** The tag byte and, for a new key, its text. */
  function WriteKey(id: bytes, flags: byte, keys: KeyCache): Option<(bytes, KeyCache)>
    requires flags == 0 || flags == 0x40 || flags == 0x80
  {
    if IsNibble(id) then Some(([id[0] + flags], keys))
    else
      match Find(keys, id)
      case Some(existing) => Some(([0x20 + flags + existing], keys))
      case None =>
        if id == [] then None                                // len() - 1 underflows
        else
          var head :- Tag(4, |id| - 1, 0x10 + flags);
          Some((head + id, AddKey(keys, id)))
  }

  /** What follows the key of a cached attribute: the value, or a reference into the value table. */
  datatype Payload = Payload(flags: byte, bytes: bytes, tables: Tables)

  function WriteCached(value: Value, t: Tables): (r: Option<Payload>)
    ensures r.Some? ==> r.value.flags == 0x40 || r.value.flags == 0x80
    decreases value, 1
  {
    var plain :- WriteValue(value, t);
    match Find(plain.tables.values.cache, plain.bytes)
    case Some(existing) =>
      var reference :- Tag(8, existing, 0);
      Some(Payload(0x80, reference, plain.tables))
    case None =>
      var values :- AddValue(plain.tables.values, plain.bytes);
      Some(Payload(0x40, plain.bytes, plain.tables.(values := values)))
  }

  /** A cached value is written (to a buffer) before its key is looked up, any other value after. */
  function WriteAttribute(id: bytes, value: Value, cached: bool, t: Tables): Option<Encoded>
    decreases value, 2
  {
    if cached then
      var p :- WriteCached(value, t);
      var (key, keys) :- WriteKey(id, p.flags, p.tables.keys);
      Some(Encoded(key + p.bytes, p.tables.(keys := keys)))
    else
      var (key, keys) :- WriteKey(id, 0, t.keys);
      var body :- WriteValue(value, t.(keys := keys));
      Some(Encoded(key + body.bytes, body.tables))
  }

  function WriteAttributes(attributes: seq<Attribute>, t: Tables): Option<Encoded> {
    if attributes == [] then Some(Encoded([], t))
    else
      var a := attributes[0];
      var first :- WriteAttribute(a.id, a.value, a.cached, t);
      var others :- WriteAttributes(attributes[1..], first.tables);
      Some(Encoded(first.bytes + others.bytes, others.tables))
  }

  function EncodeMessage(m: Message, t: Tables): Option<Encoded> {
    var body :- WriteAttributes(m.attributes, t);
    var block :- WriteBlock(8, body.bytes, 0);
    Some(Encoded([m.command] + block, body.tables))
  }

  // ----- decoder -----

  datatype Read<+T> = Ok(value: T, rest: bytes, tables: Tables) | Eof(rest: bytes, tables: Tables) | Panic

  function AsArray(r: Read<seq<Value>>): Read<Value> {
    match r
    case Ok(items, rest, t) => Ok(Array(items), rest, t)
    case Eof(e, t) => Eof(e, t)
    case Panic => Panic
  }

  function AsDict(r: Read<seq<Attribute>>): Read<Value> {
    match r
    case Ok(attributes, rest, t) => Ok(Dict(attributes), rest, t)
    case Eof(e, t) => Eof(e, t)
    case Panic => Panic
  }

  /** A value read from the value table; the message goes on at `rest`. */
  function AsStored(r: Read<Value>, rest: bytes): Read<(Value, bool)> {
    match r
    case Ok(v, _, t) => Ok((v, true), rest, t)
    case Eof(_, t) => Eof(rest, t)
    case Panic => Panic
  }

  function AsAttribute(id: bytes, r: Read<(Value, bool)>): Read<Attribute> {
    match r
    case Ok(p, rest, t) => Ok(Attribute(id, p.0, p.1), rest, t)
    case Eof(e, t) => Eof(e, t)
    case Panic => Panic
  }

  /** The outcome of `read_n`, with the tables carried along. */
  function ReadBlock(n: nat, data: bytes, t: Tables): Read<bytes> {
    if n <= |data| then Ok(data[..n], data[n..], t) else Eof([], t)
  }

  /** The 64-bit pattern `n` read as a signed number. */
  function AsSigned(n: u64): i64 {
    if n < 0x8000_0000_0000_0000 then n else n - U64
  }

  function ReadInt(tag: byte, data: bytes, t: Tables): (r: Read<Value>)
    ensures r.Ok? ==> |r.rest| <= |data|
  {
    if Bit(tag, 0x20) then
      match ReadBlock(tag % 8 + 1, data, t)
      case Ok(block, rest, _) =>
        assert FromBigEndian(block) < U64 by {
          FromBigEndianBound(block);
          EightBytes(|block|);
        }
        var value := AsSigned(FromBigEndian(block));
        if !Bit(tag, 8) then Ok(Int(value), rest, t)
        else if value == -0x8000_0000_0000_0000 then Panic   // the negation overflows
        else Ok(Int(-value), rest, t)
      case Eof(e, _) => Eof(e, t)
      case Panic => Panic
    else Ok(Int(tag % 0x20), data, t)
  }

  lemma EightBytes(k: nat)
    requires k <= 8
    ensures Pow256(k) <= U64
  {
    assert Pow256(8) == U64 by {
      assert Pow256(4) == U32;
    }
    if k < 8 {
      assert Pow256(0) == 1 && Pow256(1) == 256 && Pow256(2) == 0x1_0000 && Pow256(3) == 0x100_0000;
      assert Pow256(4) == U32 && Pow256(5) == 256 * U32 && Pow256(6) == 0x1_0000 * U32 && Pow256(7) == 0x100_0000 * U32;
    }
  }

  function ReadValue(data: bytes, t: Tables, depth: nat): (r: Read<Value>)
    ensures r.Ok? ==> |r.rest| < |data|
    decreases depth, 0, 0
  {
    if depth == 0 then Panic                                  // stack overflow
    else if data == [] then Eof([], t)
    else
      var tag, after := data[0], data[1..];
      if tag / 0x40 == 0 then
        match ReadTagged(6, tag, after)
        case TaggedPanic => Panic
        case Tagged(n, d) =>
          match ReadBlock(n, d, t)
          case Ok(block, rest, _) => Ok(Data(block), rest, t)
          case Eof(e, _) => Eof(e, t)
          case Panic => Panic
      else if tag / 0x40 == 1 then
        match ReadTagged(5, tag, after)
        case TaggedPanic => Panic
        case Tagged(n, d) =>
          match ReadBlock(n, d, t)
          case Ok(block, rest, _) => if IsUtf8(block) then Ok(String(block), rest, t) else Panic
          case Eof(e, _) => Eof(e, t)
          case Panic => Panic
      else if tag / 0x40 == 2 then ReadInt(tag, after, t)
      else
        match ReadTagged(4, tag, after)
        case TaggedPanic => Panic
        case Tagged(n, d) =>
          if Bit(tag, 0x20) then Ok(Bool(n != 0), d, t)
          else if Bit(tag, 0x10) then AsArray(ReadItems(n, d, t, depth - 1))
          else AsDict(ReadAttributes(n, d, t, depth - 1))
  }

  function ReadItems(n: nat, data: bytes, t: Tables, depth: nat): (r: Read<seq<Value>>)
    ensures r.Ok? ==> |r.rest| <= |data|
    decreases depth, 2, n
  {
    if n == 0 then Ok([], data, t)
    else
      match ReadValue(data, t, depth)
      case Eof(e, t1) => Eof(e, t1)
      case Panic => Panic
      case Ok(v, d1, t1) =>
        match ReadItems(n - 1, d1, t1, depth)
        case Ok(vs, d2, t2) => Ok([v] + vs, d2, t2)
        case Eof(e, t2) => Eof(e, t2)
        case Panic => Panic
  }

  function ReadAttributes(n: nat, data: bytes, t: Tables, depth: nat): (r: Read<seq<Attribute>>)
    ensures r.Ok? ==> |r.rest| <= |data|
    decreases depth, 2, n
  {
    if n == 0 then Ok([], data, t)
    else
      match ReadAttribute(data, t, depth)
      case Eof(e, t1) => Eof(e, t1)
      case Panic => Panic
      case Ok(a, d1, t1) =>
        match ReadAttributes(n - 1, d1, t1, depth)
        case Ok(others, d2, t2) => Ok([a] + others, d2, t2)
        case Eof(e, t2) => Eof(e, t2)
        case Panic => Panic
  }

  /** The key that follows (or is named by) the tag byte. */
  function ReadKey(tag: byte, data: bytes, t: Tables): (r: Read<bytes>)
    ensures r.Ok? ==> |r.rest| <= |data|
  {
    if Bit(tag, 0x20) then
      match Get(t.keys, tag % 0x20)
      case Some(id) => Ok(id, data, t)
      case None => Panic                                      // "Cached key missing??"
    else if Bit(tag, 0x10) then
      match ReadTagged(4, tag, data)
      case TaggedPanic => Panic
      case Tagged(n, d) =>
        match ReadBlock(n + 1, d, t)
        case Ok(id, rest, _) => Ok(id, rest, t.(keys := AddKey(t.keys, id)))
        case Eof(e, _) => Eof(e, t)
        case Panic => Panic
    else Ok([tag % 0x10], data, t)
  }

  /** The value announced by the tag byte, and whether it is a cached one. */
  function ReadPayload(tag: byte, data: bytes, t: Tables, depth: nat): (r: Read<(Value, bool)>)
    ensures r.Ok? ==> |r.rest| <= |data|
    decreases depth, 1, 0
  {
    if Bit(tag, 0x80) then
      if data == [] then Eof([], t)
      else
        match ReadTagged(8, data[0], data[1..])
        case TaggedPanic => Panic
        case Tagged(n, rest) =>
          match Get(t.values.cache, n)
          case None => Panic                                  // "Cached value missing??"
          case Some(stored) => AsStored(ReadValue(stored, t, depth), rest)
    else
      match ReadValue(data, t, depth)
      case Eof(e, t') => Eof(e, t')
      case Panic => Panic
      case Ok(v, rest, t') =>
        if !Bit(tag, 0x40) then Ok((v, false), rest, t')
        else
          match AddValue(t'.values, data[..|data| - |rest|])  // the bytes TrackedReader captured
          case None => Panic
          case Some(values) => Ok((v, true), rest, t'.(values := values))
  }

  function ReadAttribute(data: bytes, t: Tables, depth: nat): (r: Read<Attribute>)
    ensures r.Ok? ==> |r.rest| < |data|
    decreases depth, 1, 1
  {
    if data == [] then Eof([], t)
    else
      match ReadKey(data[0], data[1..], t)
      case Eof(e, t1) => Eof(e, t1)
      case Panic => Panic
      case Ok(id, d1, t1) => AsAttribute(id, ReadPayload(data[0], d1, t1, depth))
  }

  /** Attributes up to the first io error; a short read leaves the cursor at the end of its data. */
  function ReadAllAttributes(data: bytes, t: Tables, depth: nat): (r: Read<seq<Attribute>>)
    ensures !r.Eof?
    decreases |data|
  {
    match ReadAttribute(data, t, depth)
    case Panic => Panic
    case Eof(e, t') => if e == [] then Ok([], [], t') else Panic   // "Ran over"
    case Ok(a, rest, t') =>
      match ReadAllAttributes(rest, t', depth)
      case Ok(others, end, t'') => Ok([a] + others, end, t'')
      case Panic => Panic
  }

  function DecodeMessage(data: bytes, t: Tables, depth: nat): Read<Message> {
    if |data| < 2 then Eof([], t)
    else
      match ReadTagged(8, data[1], data[2..])
      case TaggedPanic => Panic
      case Tagged(n, d) =>
        match ReadBlock(n, d, t)
        case Eof(e, _) => Eof(e, t)
        case Panic => Panic
        case Ok(block, rest, _) =>
          match ReadAllAttributes(block, t, depth)
          case Ok(attributes, _, t') => Ok(Message(data[0], attributes), rest, t')
          case Panic => Panic
  }
}
