/** An output buffer and an input cursor, the `Write` and `Read` the codecs use. */
module Io {
  import opened Bytes

  class Writer {
    var out: bytes

    constructor ()
      ensures out == []
    {
      out := [];
    }

    method Write(data: bytes)
      modifies this
      ensures out == old(out) + data
    {
      out := out + data;
    }
  }

  /** `captured` holds every byte read so far, as a `TrackedReader` around the cursor collects them. */
  class Reader {
    var rest: bytes
    var captured: bytes

    constructor (data: bytes)
      ensures rest == data && captured == []
    {
      rest, captured := data, [];
    }

    ghost function All(): bytes
      reads this
    {
      captured + rest
    }

    method ReadU8() returns (r: Option<byte>)
      modifies this
      ensures All() == old(All())
      ensures old(rest) == [] ==> r == None && rest == []
      ensures old(rest) != [] ==> r == Some(old(rest)[0]) && rest == old(rest)[1..]
    {
      if rest == [] {
        return None;
      }
      r := Some(rest[0]);
      assert [rest[0]] + rest[1..] == rest;
      captured, rest := captured + [rest[0]], rest[1..];
    }

    /** Exactly `n` bytes, or None with everything consumed. */
    method ReadN(n: nat) returns (r: Option<bytes>)
      modifies this
      ensures All() == old(All())
      ensures n <= |old(rest)| ==> r == Some(old(rest)[..n]) && rest == old(rest)[n..]
      ensures n > |old(rest)| ==> r == None && rest == []
    {
      var k := if n <= |rest| then n else |rest|;
      assert rest[..k] + rest[k..] == rest;
      r := if n <= |rest| then Some(rest[..n]) else None;
      captured, rest := captured + rest[..k], rest[k..];
    }
  }
}
