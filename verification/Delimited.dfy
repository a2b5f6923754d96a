/**
 Messages behind their uleb128 lengths: the requests and responses of CloudKit
 (src/util.rs, src/icloud/cloudkit.rs).
 */
module Delimited {
  import opened Bytes
  import opened Io
  import opened Varint

  /** `encode_uleb128` */
  method EncodeUleb128(n: u64) returns (result: bytes)
    ensures result == Groups(n)
  {
    var val: nat := n;
    result := [];
    while true
      invariant result + Groups(val) == Groups(n)
      decreases val
    {
      var low: byte := val % 128;
      GroupsStep(result, val);
      val := val / 128;
      if val == 0 {
        return result + [low];
      }
      result := result + [low + 128];
    }
  }

  datatype Length = Read(number: nat) | AtEnd | Panicked

  /** `decode_uleb128`; a shift by 64 bits or more overflows. */
  method DecodeUleb128(cursor: Reader) returns (r: Length)
    modifies cursor
    ensures cursor.All() == old(cursor.All())
    ensures match ReadGroups(old(cursor.rest), 0)
            case Complete(n, rest) => r == Read(n) && cursor.rest == rest
            case Truncated(_) => r.AtEnd?
            case Overflow => r.Panicked?
  {
    var number: nat, idx := 0, 0;
    ghost var wanted := ReadGroups(cursor.rest, 0);
    assert wanted == AddGroup(0, wanted);
    while true
      invariant cursor.All() == old(cursor.All())
      invariant wanted == AddGroup(number, ReadGroups(cursor.rest, idx))
      decreases |cursor.rest|
    {
      var b := cursor.ReadU8();
      if b.None? {
        return AtEnd;
      }
      if idx >= 10 {
        return Panicked;
      }
      number := number + Shifted(b.value, idx);
      if b.value < 0x80 {
        return Read(number);
      }
      idx := idx + 1;
    }
  }

  lemma {:induction false} GroupsShrink(data: bytes, idx: nat)
    ensures var r := ReadGroups(data, idx); r.Complete? ==> |r.rest| < |data|
    decreases |data|
  {
    if data != [] {
      GroupsShrink(data[1..], idx + 1);
    }
  }

  /** `undelimit_response`; None where the data ends inside a message or a length does not fit. */
  function Undelimit(data: bytes): Option<seq<bytes>>
    decreases |data|
  {
    GroupsShrink(data, 0);
    match ReadGroups(data, 0)
    case Truncated(_) => Some([])
    case Overflow => None
    case Complete(n, rest) =>
      if n > |rest| then None
      else
        var others :- Undelimit(rest[n..]);
        Some([rest[..n]] + others)
  }

  /** One message behind its length, as `build_request` writes it. */
  function Framed(message: bytes): bytes {
    Groups(|message|) + message
  }

  function Delimit(messages: seq<bytes>): bytes {
    if messages == [] then [] else Framed(messages[0]) + Delimit(messages[1..])
  }

  /** Messages read, then the rest of the read. */
  function Prepend(done: seq<bytes>, more: Option<seq<bytes>>): Option<seq<bytes>> {
    if more.None? then None else Some(done + more.value)
  }

  method UndelimitResponse(resp: Reader) returns (r: Option<seq<bytes>>)
    modifies resp
    ensures r == Undelimit(old(resp.rest))
  {
    var response: seq<bytes> := [];
    ghost var wanted := Undelimit(resp.rest);
    PrependNothing(wanted);
    while true
      invariant wanted == Prepend(response, Undelimit(resp.rest))
      decreases |resp.rest|
    {
      GroupsShrink(resp.rest, 0);
      UndelimitStep(response, resp.rest);
      var length := DecodeUleb128(resp);
      match length {
        case AtEnd =>
          assert response + [] == response;
          return Some(response);
        case Panicked =>
          return None;
        case Read(n) =>
          var data := resp.ReadN(n);
          if data.None? {
            return None;
          }
          response := response + [data.value];
      }
    }
  }

  lemma PrependNothing(more: Option<seq<bytes>>)
    ensures Prepend([], more) == more
  {
    if more.Some? {
      assert [] + more.value == more.value;
    }
  }

  lemma PrependTwice(done: seq<bytes>, x: bytes, more: Option<seq<bytes>>)
    ensures Prepend(done, Prepend([x], more)) == Prepend(done + [x], more)
  {
    if more.Some? {
      assert done + ([x] + more.value) == done + [x] + more.value;
    }
  }

  lemma UndelimitStep(done: seq<bytes>, data: bytes)
    ensures var r := ReadGroups(data, 0);
      r.Complete? && r.number <= |r.rest| ==>
        Prepend(done, Undelimit(data)) == Prepend(done + [r.rest[..r.number]], Undelimit(r.rest[r.number..]))
  {
    var r := ReadGroups(data, 0);
    if r.Complete? && r.number <= |r.rest| {
      PrependTwice(done, r.rest[..r.number], Undelimit(r.rest[r.number..]));
    }
  }

  // ----- what comes back -----

  lemma UndelimitFramed(message: bytes, rest: bytes)
    requires |message| < U64
    ensures Undelimit(Framed(message) + rest) == Prepend([message], Undelimit(rest))
  {
    var head := Groups(|message|);
    Assoc(head, message, rest);
    ReadGroupsOfGroups(|message|, 0, message + rest);
    assert (message + rest)[..|message|] == message && (message + rest)[|message|..] == rest;
  }

  lemma PrependFirst(messages: seq<bytes>, more: Option<seq<bytes>>)
    requires messages != []
    ensures Prepend([messages[0]], Prepend(messages[1..], more)) == Prepend(messages, more)
  {
    if more.Some? {
      assert [messages[0]] + (messages[1..] + more.value) == messages + more.value;
    }
  }

  /** The messages in front of any data are read, whatever the data then gives. */
  lemma {:induction false} UndelimitPrefix(messages: seq<bytes>, rest: bytes)
    requires forall i :: 0 <= i < |messages| ==> |messages[i]| < U64
    ensures Undelimit(Delimit(messages) + rest) == Prepend(messages, Undelimit(rest))
  {
    if messages == [] {
      assert Delimit(messages) + rest == rest;
      PrependNothing(Undelimit(rest));
    } else {
      var tail := Delimit(messages[1..]);
      calc {
        Undelimit(Delimit(messages) + rest);
        { Assoc(Framed(messages[0]), tail, rest); }
        Undelimit(Framed(messages[0]) + (tail + rest));
        { UndelimitFramed(messages[0], tail + rest); }
        Prepend([messages[0]], Undelimit(tail + rest));
        { UndelimitPrefix(messages[1..], rest); }
        Prepend([messages[0]], Prepend(messages[1..], Undelimit(rest)));
        { PrependFirst(messages, Undelimit(rest)); }
        Prepend(messages, Undelimit(rest));
      }
    }
  }

  lemma UndelimitOfDelimit(messages: seq<bytes>)
    requires forall i :: 0 <= i < |messages| ==> |messages[i]| < U64
    ensures Undelimit(Delimit(messages)) == Some(messages)
  {
    UndelimitPrefix(messages, []);
    assert Delimit(messages) + [] == Delimit(messages);
    assert messages + [] == messages;
  }

  /** A length cut short reads as the end of the data. */
  lemma {:induction false} CutLength(n: nat, k: nat, idx: nat)
    requires k < |Groups(n)| && ShiftLeft(n, idx) < U64 && (idx == 0 || n > 0)
    ensures ReadGroups(Groups(n)[..k], idx).Truncated?
    decreases k
  {
    if k > 0 {
      AtMostTenGroups(n, idx);
      ShiftSplit(n, idx);
      CutLength(n / 128, k - 1, idx + 1);
      assert Groups(n)[..k][1..] == Groups(n / 128)[..k - 1];
    }
  }

  /**
   A stream cut inside its last frame: inside the length the frame is dropped silently,
   behind the length and short of the end of the message the reader panics.
   */
  lemma UndelimitOfCut(messages: seq<bytes>, last: bytes, k: nat)
    requires |last| < U64 && forall i :: 0 <= i < |messages| ==> |messages[i]| < U64
    requires k < |Framed(last)|
    ensures Undelimit(Delimit(messages) + Framed(last)[..k])
         == if k < |Groups(|last|)| then Some(messages) else None
  {
    var head := Groups(|last|);
    UndelimitPrefix(messages, Framed(last)[..k]);
    if k < |head| {
      CutLength(|last|, k, 0);
      assert Framed(last)[..k] == head[..k];
      assert messages + [] == messages;
    } else {
      var part := last[..k - |head|];
      assert Framed(last)[..k] == head + part;
      ReadGroupsOfGroups(|last|, 0, part);
    }
  }

  /** The bytes that `perform_operations` sends for its operations. */
  method Concat(messages: seq<bytes>) returns (request: bytes)
    requires forall i :: 0 <= i < |messages| ==> |messages[i]| < U64
    ensures request == Delimit(messages) && Undelimit(request) == Some(messages)
  {
    request := [];
    assert messages[0..] == messages;
    for k := 0 to |messages|
      invariant request + Delimit(messages[k..]) == Delimit(messages)
    {
      var buf := EncodeUleb128(|messages[k]|);
      assert messages[k..][1..] == messages[k + 1..];
      Assoc(request, Framed(messages[k]), Delimit(messages[k + 1..]));
      request := request + (buf + messages[k]);
    }
    UndelimitOfDelimit(messages);
  }
}
