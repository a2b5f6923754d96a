/**
 `APSPackedDecoder` (src/aps.rs) as it runs: a cursor advances and the tables roll in
 place.  Every method is proved equal to the format function of module ApsSpec.
 */
module ApsDecoder {
  import opened Bytes
  import opened Io
  import opened ApsTables
  import opened Varint
  import opened ApsSpec
  import opened ApsStream

  /** Done with a value, failed with an io error, or panicked. */
  datatype Outcome<+T> = Done(value: T) | Failed | Panicked

  /** A method's outcome and the state it leaves are the ones the format function gives. */
  ghost predicate Agrees<T>(r: Outcome<T>, wanted: Read<T>, rest: bytes, after: Tables) {
    match wanted
    case Ok(v, d, t) => r == Done(v) && rest == d && after == t
    case Eof(d, t) => r.Failed? && rest == d && after == t
    case Panic => r.Panicked?
  }

  ghost predicate AgreesTagged(r: Outcome<nat>, wanted: TaggedRead, rest: bytes) {
    match wanted
    case Tagged(n, d) => r == Done(n) && rest == d
    case TaggedPanic => r.Panicked?
  }

  /** Members already read, then the rest of the read. */
  ghost function Prepend<T>(done: seq<T>, r: Read<seq<T>>): Read<seq<T>> {
    match r
    case Ok(more, d, t) => Ok(done + more, d, t)
    case Eof(d, t) => Eof(d, t)
    case Panic => Panic
  }

  class Decoder {
    const keyTable: KeyTable
    const valueTable: ValueCache

    constructor (cacheSize: nat)
      ensures fresh(keyTable) && fresh(valueTable)
      ensures T() == Tables([], ValueTable([], 0, cacheSize))
    {
      keyTable := new KeyTable();
      valueTable := new ValueCache(cacheSize);
    }

    function T(): Tables
      reads keyTable, valueTable
    {
      Tables(keyTable.cache, valueTable.Table())
    }

    method ReadTaggedValue(w: width, tag: byte, reader: Reader) returns (r: Outcome<nat>)
      modifies reader
      ensures AgreesTagged(r, ReadTagged(w, tag, old(reader.rest)), reader.rest)
      ensures reader.All() == old(reader.All())
    {
      var top := Span(w) - 1;
      if tag % Span(w) != top {
        return Done(tag % Span(w));
      }
      var number := ReadNumber(reader);
      match number
      case Done(n) =>
        r := if n + top < U64 then Done(n + top) else Panicked;
      case _ => r := Panicked;
    }

    /** The varint loop; the end of the data ends it too. */
    method ReadNumber(reader: Reader) returns (r: Outcome<nat>)
      modifies reader
      ensures match ReadGroups(old(reader.rest), 0)
              case Complete(n, d) => r == Done(n) && reader.rest == d
              case Truncated(n) => r == Done(n) && reader.rest == []
              case Overflow => r.Panicked?
      ensures reader.All() == old(reader.All())
    {
      var number: nat, idx := 0, 0;
      AddNothing(ReadGroups(reader.rest, 0));
      while true
        invariant reader.All() == old(reader.All())
        invariant ReadGroups(old(reader.rest), 0) == AddGroup(number, ReadGroups(reader.rest, idx))
        decreases |reader.rest|
      {
        if reader.rest != [] && idx < 10 && reader.rest[0] >= 0x80 {
          GroupStep(reader.rest, number, idx);
        }
        var b := reader.ReadU8();
        if b.None? {
          return Done(number);
        }
        if idx >= 10 {
          return Panicked;
        }
        number := number + Shifted(b.value, idx);
        if b.value < 0x80 {
          return Done(number);
        }
        idx := idx + 1;
      }
    }

    method ReadInteger(tag: byte, reader: Reader) returns (r: Outcome<Value>)
      modifies reader
      ensures Agrees(r, ReadInt(tag, old(reader.rest), T()), reader.rest, T())
      ensures reader.All() == old(reader.All())
    {
      if !Bit(tag, 0x20) {
        return Done(Int(tag % 0x20));
      }
      var block := reader.ReadN(tag % 8 + 1);
      if block.None? {
        return Failed;
      }
      assert FromBigEndian(block.value) < U64 by {
        FromBigEndianBound(block.value);
        EightBytes(|block.value|);
      }
      var value := AsSigned(FromBigEndian(block.value));
      if Bit(tag, 8) {
        if value == -0x8000_0000_0000_0000 {
          return Panicked;
        }
        value := -value;
      }
      r := Done(Int(value));
    }

    /** The rest of a byte-string value after its tag byte. */
    method ReadBytes(w: width, tag: byte, reader: Reader) returns (r: Outcome<bytes>)
      modifies reader
      ensures reader.All() == old(reader.All())
      ensures match ReadTagged(w, tag, old(reader.rest))
              case TaggedPanic => r.Panicked?
              case Tagged(n, d) => Agrees(r, ReadBlock(n, d, T()), reader.rest, T())
    {
      var len := ReadTaggedValue(w, tag, reader);
      match len
      case Done(n) =>
        var block := reader.ReadN(n);
        r := if block.None? then Failed else Done(block.value);
      case _ => r := Panicked;
    }

    method ReadVal(reader: Reader, depth: nat) returns (r: Outcome<Value>)
      modifies reader, keyTable, valueTable
      ensures Agrees(r, ReadValue(old(reader.rest), old(T()), depth), reader.rest, T())
      ensures reader.All() == old(reader.All())
      decreases depth, 0, 0
    {
      if depth == 0 {
        return Panicked;
      }
      var b := reader.ReadU8();
      if b.None? {
        return Failed;
      }
      var tag := b.value;
      if tag / 0x40 == 0 {
        var block := ReadBytes(6, tag, reader);
        match block
        case Done(data) => r := Done(Data(data));
        case Failed => r := Failed;
        case Panicked => r := Panicked;
      } else if tag / 0x40 == 1 {
        var block := ReadBytes(5, tag, reader);
        match block
        case Done(data) => r := if IsUtf8(data) then Done(String(data)) else Panicked;
        case Failed => r := Failed;
        case Panicked => r := Panicked;
      } else if tag / 0x40 == 2 {
        r := ReadInteger(tag, reader);
      } else {
        r := ReadContainer(tag, reader, depth);
      }
    }

    method ReadContainer(tag: byte, reader: Reader, depth: nat) returns (r: Outcome<Value>)
      requires tag / 0x40 == 3 && depth > 0
      modifies reader, keyTable, valueTable
      ensures Agrees(r, ReadValue([tag] + old(reader.rest), old(T()), depth), reader.rest, T())
      ensures reader.All() == old(reader.All())
      decreases depth - 1, 3, 0
    {
      assert ([tag] + reader.rest)[1..] == reader.rest;
      var count := ReadTaggedValue(4, tag, reader);
      match count
      case Done(n) =>
        if Bit(tag, 0x20) {
          r := Done(Bool(n != 0));
        } else if Bit(tag, 0x10) {
          var members := ReadMembers(n, reader, depth - 1);
          match members
          case Done(items) => r := Done(Array(items));
          case Failed => r := Failed;
          case Panicked => r := Panicked;
        } else {
          var entries := ReadEntries(n, reader, depth - 1);
          match entries
          case Done(attributes) => r := Done(Dict(attributes));
          case Failed => r := Failed;
          case Panicked => r := Panicked;
        }
      case _ => r := Panicked;
    }

    method ReadMembers(n: nat, reader: Reader, depth: nat) returns (r: Outcome<seq<Value>>)
      modifies reader, keyTable, valueTable
      ensures Agrees(r, ReadItems(n, old(reader.rest), old(T()), depth), reader.rest, T())
      ensures reader.All() == old(reader.All())
      decreases depth, 2, 0
    {
      var results: seq<Value> := [];
      ghost var wanted := ReadItems(n, reader.rest, T(), depth);
      PrependNothing(wanted);
      for k := 0 to n
        invariant reader.All() == old(reader.All())
        invariant wanted == Prepend(results, ReadItems(n - k, reader.rest, T(), depth))
      {
        ItemsReadStep(n - k, results, reader.rest, T(), depth);
        var v := ReadVal(reader, depth);
        match v
        case Done(value) => results := results + [value];
        case Failed => return Failed;
        case Panicked => return Panicked;
      }
      assert results + [] == results;
      r := Done(results);
    }

    method ReadEntries(n: nat, reader: Reader, depth: nat) returns (r: Outcome<seq<Attribute>>)
      modifies reader, keyTable, valueTable
      ensures Agrees(r, ReadAttributes(n, old(reader.rest), old(T()), depth), reader.rest, T())
      ensures reader.All() == old(reader.All())
      decreases depth, 2, 0
    {
      var results: seq<Attribute> := [];
      ghost var wanted := ReadAttributes(n, reader.rest, T(), depth);
      PrependNothing(wanted);
      for k := 0 to n
        invariant reader.All() == old(reader.All())
        invariant wanted == Prepend(results, ReadAttributes(n - k, reader.rest, T(), depth))
      {
        EntriesReadStep(n - k, results, reader.rest, T(), depth);
        var a := ReadAttr(reader, depth);
        match a
        case Done(attribute) => results := results + [attribute];
        case Failed => return Failed;
        case Panicked => return Panicked;
      }
      assert results + [] == results;
      r := Done(results);
    }

    method ReadKeyPart(tag: byte, reader: Reader) returns (r: Outcome<bytes>)
      modifies reader, keyTable
      ensures Agrees(r, ReadKey(tag, old(reader.rest), old(T())), reader.rest, T())
      ensures reader.All() == old(reader.All())
    {
      if Bit(tag, 0x20) {
        var index := tag % 0x20;
        if index >= |keyTable.cache| {
          return Panicked;
        }
        r := Done(keyTable.cache[|keyTable.cache| - 1 - index]);
      } else if Bit(tag, 0x10) {
        var len := ReadTaggedValue(4, tag, reader);
        match len
        case Done(n) =>
          var id := reader.ReadN(n + 1);
          if id.None? {
            return Failed;
          }
          keyTable.AddItem(id.value);
          r := Done(id.value);
        case _ => r := Panicked;
      } else {
        r := Done([tag % 0x10]);
      }
    }

    method ReadStored(tag: byte, reader: Reader, depth: nat) returns (r: Outcome<(Value, bool)>)
      requires Bit(tag, 0x80)
      modifies reader, keyTable, valueTable
      ensures Agrees(r, ReadPayload(tag, old(reader.rest), old(T()), depth), reader.rest, T())
      ensures reader.All() == old(reader.All())
      decreases depth, 1, 0
    {
      var b := reader.ReadU8();
      if b.None? {
        return Failed;
      }
      var item := ReadTaggedValue(8, b.value, reader);
      match item
      case Done(n) =>
        if n >= |valueTable.cache| {
          return Panicked;
        }
        var stored := new Reader(valueTable.cache[|valueTable.cache| - 1 - n]);
        var v := ReadVal(stored, depth);
        match v {
          case Done(value) => r := Done((value, true));
          case Failed => r := Failed;
          case Panicked => r := Panicked;
        }
      case _ => r := Panicked;
    }

    method ReadNew(tag: byte, reader: Reader, depth: nat) returns (r: Outcome<(Value, bool)>)
      requires !Bit(tag, 0x80)
      modifies reader, keyTable, valueTable
      ensures Agrees(r, ReadPayload(tag, old(reader.rest), old(T()), depth), reader.rest, T())
      ensures reader.All() == old(reader.All())
      decreases depth, 1, 0
    {
      var start := |reader.captured|;
      var v := ReadVal(reader, depth);
      match v
      case Failed => r := Failed;
      case Panicked => r := Panicked;
      case Done(value) =>
        if !Bit(tag, 0x40) {
          return Done((value, false));
        }
        CapturedBytes(old(reader.captured), old(reader.rest), reader.captured, reader.rest);
        var ok := valueTable.AddItem(reader.captured[start..]);
        r := if ok then Done((value, true)) else Panicked;
    }

    method ReadAttr(reader: Reader, depth: nat) returns (r: Outcome<Attribute>)
      modifies reader, keyTable, valueTable
      ensures Agrees(r, ReadAttribute(old(reader.rest), old(T()), depth), reader.rest, T())
      ensures reader.All() == old(reader.All())
      decreases depth, 1, 1
    {
      var b := reader.ReadU8();
      if b.None? {
        return Failed;
      }
      var tag := b.value;
      var key := ReadKeyPart(tag, reader);
      match key
      case Failed => return Failed;
      case Panicked => return Panicked;
      case Done(id) =>
        var payload;
        if Bit(tag, 0x80) {
          payload := ReadStored(tag, reader, depth);
        } else {
          payload := ReadNew(tag, reader, depth);
        }
        match payload {
          case Failed => r := Failed;
          case Panicked => r := Panicked;
          case Done(p) => r := Done(Attribute(id, p.0, p.1));
        }
    }

    method Decode(reader: Reader, depth: nat) returns (r: Outcome<Message>)
      modifies reader, keyTable, valueTable
      ensures Agrees(r, DecodeMessage(old(reader.rest), old(T()), depth), if r.Failed? then [] else reader.rest, T())
    {
      var command := reader.ReadU8();
      if command.None? {
        return Failed;
      }
      var b := reader.ReadU8();
      if b.None? {
        return Failed;
      }
      assert reader.rest == old(reader.rest)[2..];
      var block := ReadBytes(8, b.value, reader);
      match block
      case Failed => return Failed;
      case Panicked => return Panicked;
      case Done(body) =>
        var cursor := new Reader(body);
        var attributes := ReadAll(cursor, depth);
        match attributes {
          case Done(list) => r := Done(Message(command.value, list));
          case _ => r := Panicked;
        }
    }

    /** Reads attributes until one fails; anything left over is a panic. */
    method ReadAll(cursor: Reader, depth: nat) returns (r: Outcome<seq<Attribute>>)
      modifies cursor, keyTable, valueTable
      ensures Agrees(r, ReadAllAttributes(old(cursor.rest), old(T()), depth), cursor.rest, T())
    {
      var results: seq<Attribute> := [];
      PrependNothing(ReadAllAttributes(cursor.rest, T(), depth));
      while true
        invariant ReadAllAttributes(old(cursor.rest), old(T()), depth)
               == Prepend(results, ReadAllAttributes(cursor.rest, T(), depth))
        decreases |cursor.rest|
      {
        AllReadStep(results, cursor.rest, T(), depth);
        var a := ReadAttr(cursor, depth);
        match a
        case Done(attribute) => results := results + [attribute];
        case Panicked => return Panicked;
        case Failed =>
          if cursor.rest != [] {
            return Panicked;
          }
          return Done(results);
      }
    }

    /** `read_from_stream`, pulling bytes from `stream`. */
    method ReadMessage(stream: Reader, depth: nat) returns (r: Outcome<Message>)
      modifies stream, keyTable, valueTable
      ensures Agrees(r, ReadFromStream(old(stream.rest), old(T()), depth), if r.Failed? then [] else stream.rest, T())
    {
      var head := ReadHead(stream);
      if head.None? {
        return Failed;
      }
      r := ReadFrame(head.value, stream, depth);
    }

    /** Pulls the body that `head` announces and decodes the whole message. */
    method ReadFrame(head: bytes, stream: Reader, depth: nat) returns (r: Outcome<Message>)
      requires |head| >= 2
      modifies stream, keyTable, valueTable
      ensures Agrees(r, FinishFrame(head, old(stream.rest), old(T()), depth), if r.Failed? then [] else stream.rest, T())
    {
      var cursor := new Reader(head[2..]);
      var len := ReadTaggedValue(8, head[1], cursor);
      match len
      case Done(n) =>
        var body := stream.ReadN(n);
        if body.None? {
          return Failed;
        }
        var whole := new Reader(head + body.value);
        r := Decode(whole, depth);
      case _ => r := Panicked;
    }

    /** The command byte and the length bytes. */
    method ReadHead(stream: Reader) returns (message: Option<bytes>)
      modifies stream
      ensures |old(stream.rest)| < 2 ==> message.None?
      ensures |old(stream.rest)| >= 2 ==>
        var k := FrameHead(old(stream.rest));
        && message.Some? == k.Some?
        && (k.Some? ==> message.value == old(stream.rest)[..k.value] && stream.rest == old(stream.rest)[k.value..])
    {
      ghost var data := stream.rest;
      message := stream.ReadN(2);
      if message.None? || message.value[1] != 0xFF {
        return;
      }
      var pulled := message.value;
      while pulled[|pulled| - 1] >= 0x80
        invariant 2 <= |pulled| <= |data|
        invariant pulled == data[..|pulled|]
        invariant stream.rest == data[|pulled|..]
        invariant HeadLength(data, 2) == HeadLength(data, |pulled|)
        decreases |data| - |pulled|
      {
        var b := stream.ReadU8();
        if b.None? {
          return None;
        }
        pulled := pulled + [b.value];
      }
      message := Some(pulled);
    }
  }

  // ----- loop steps -----

  lemma AddNothing(r: GroupsRead)
    ensures AddGroup(0, r) == r
  {
  }

  lemma GroupStep(data: bytes, number: nat, idx: nat)
    requires data != [] && idx < 10 && data[0] >= 0x80
    ensures AddGroup(number, ReadGroups(data, idx))
         == AddGroup(number + Shifted(data[0], idx), ReadGroups(data[1..], idx + 1))
  {
  }

  lemma PrependNothing<T>(r: Read<seq<T>>)
    ensures Prepend([], r) == r
  {
    if r.Ok? {
      assert [] + r.value == r.value;
    }
  }

  lemma PrependTwice<T>(done: seq<T>, x: T, r: Read<seq<T>>)
    ensures Prepend(done, Prepend([x], r)) == Prepend(done + [x], r)
  {
    if r.Ok? {
      assert done + ([x] + r.value) == done + [x] + r.value;
    }
  }

  lemma ItemsReadStep(n: nat, done: seq<Value>, data: bytes, t: Tables, depth: nat)
    requires n > 0
    ensures match ReadValue(data, t, depth)
            case Ok(v, d, t1) =>
              Prepend(done, ReadItems(n, data, t, depth)) == Prepend(done + [v], ReadItems(n - 1, d, t1, depth))
            case Eof(d, t1) => Prepend(done, ReadItems(n, data, t, depth)) == Eof(d, t1)
            case Panic => Prepend(done, ReadItems(n, data, t, depth)) == Panic
  {
    var first := ReadValue(data, t, depth);
    if first.Ok? {
      PrependTwice(done, first.value, ReadItems(n - 1, first.rest, first.tables, depth));
    }
  }

  lemma EntriesReadStep(n: nat, done: seq<Attribute>, data: bytes, t: Tables, depth: nat)
    requires n > 0
    ensures match ReadAttribute(data, t, depth)
            case Ok(a, d, t1) =>
              Prepend(done, ReadAttributes(n, data, t, depth)) == Prepend(done + [a], ReadAttributes(n - 1, d, t1, depth))
            case Eof(d, t1) => Prepend(done, ReadAttributes(n, data, t, depth)) == Eof(d, t1)
            case Panic => Prepend(done, ReadAttributes(n, data, t, depth)) == Panic
  {
    var first := ReadAttribute(data, t, depth);
    if first.Ok? {
      PrependTwice(done, first.value, ReadAttributes(n - 1, first.rest, first.tables, depth));
    }
  }

  lemma AllReadStep(done: seq<Attribute>, data: bytes, t: Tables, depth: nat)
    ensures match ReadAttribute(data, t, depth)
            case Ok(a, d, t1) =>
              Prepend(done, ReadAllAttributes(data, t, depth)) == Prepend(done + [a], ReadAllAttributes(d, t1, depth))
            case Eof(d, t1) =>
              Prepend(done, ReadAllAttributes(data, t, depth)) == if d == [] then Ok(done, [], t1) else Panic
            case Panic => Prepend(done, ReadAllAttributes(data, t, depth)) == Panic
  {
    var first := ReadAttribute(data, t, depth);
    if first.Ok? {
      PrependTwice(done, first.value, ReadAllAttributes(first.rest, first.tables, depth));
    } else if first.Eof? {
      assert done + [] == done;
    }
  }

  /** The bytes captured since `before` are the ones no longer in the cursor. */
  lemma CapturedBytes(before: bytes, data: bytes, after: bytes, rest: bytes)
    requires before + data == after + rest
    requires |rest| <= |data|
    ensures |before| <= |after|
    ensures after[|before|..] == data[..|data| - |rest|]
  {
    var all := before + data;
    assert all[|before|..] == data;
    assert all[..|after|] == after;
    assert after[|before|..] == all[|before|..|after|];
  }
}
