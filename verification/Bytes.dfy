/**
 Bytes, optional results and the byte-string helpers shared by the codecs.

 A byte is a number below 256.  The Rust code combines bytes with `|` only where
 the two operands share no bit, so `a | b` is written `a + b`, and it masks with
 `& (2^w - 1)`, which is `% 2^w`.
 */
module Bytes {
  const U64: int := 0x1_0000_0000_0000_0000
  const U32: int := 0x1_0000_0000

  type byte = b: int | 0 <= b < 256
  type bytes = seq<byte>
  type u32 = n: int | 0 <= n < 0x1_0000_0000
  type u64 = n: int | 0 <= n < 0x1_0000_0000_0000_0000
  type i64 = n: int | -0x8000_0000_0000_0000 <= n < 0x8000_0000_0000_0000

  datatype Option<+T> = None | Some(value: T) {
    predicate IsFailure() {
      None?
    }

    function PropagateFailure<U>(): Option<U>
      requires None?
    {
      None
    }

    function Extract(): T
      requires Some?
    {
      value
    }
  }

  /** Whether bit `bit` (a power of two) is set in `b`. */
  predicate Bit(b: byte, bit: int)
    requires bit > 0
  {
    b / bit % 2 == 1
  }

  /** Well-formed UTF-8 (section 4 of RFC 3629), the invariant of every Rust string. */
  predicate IsUtf8(s: bytes) {
    if s == [] then true
    else if s[0] < 0x80 then IsUtf8(s[1..])
    else if 0xC2 <= s[0] <= 0xDF then |s| >= 2 && IsTail(s[1]) && IsUtf8(s[2..])
    else if 0xE0 <= s[0] <= 0xEF then
      && |s| >= 3 && IsTail(s[1]) && IsTail(s[2])
      && (s[0] == 0xE0 ==> s[1] >= 0xA0)
      && (s[0] == 0xED ==> s[1] < 0xA0)
      && IsUtf8(s[3..])
    else if 0xF0 <= s[0] <= 0xF4 then
      && |s| >= 4 && IsTail(s[1]) && IsTail(s[2]) && IsTail(s[3])
      && (s[0] == 0xF0 ==> s[1] >= 0x90)
      && (s[0] == 0xF4 ==> s[1] < 0x90)
      && IsUtf8(s[4..])
    else false
  }

  predicate IsTail(b: byte) {
    0x80 <= b < 0xC0
  }

  type utf8 = s: bytes | IsUtf8(s)

  /** Big-endian bytes of `n` without leading zero bytes. */
  function BigEndian(n: nat): (r: bytes) {
    if n == 0 then [] else BigEndian(n / 256) + [n % 256]
  }

  function FromBigEndian(s: bytes): nat {
    if s == [] then 0 else 256 * FromBigEndian(s[..|s| - 1]) + s[|s| - 1]
  }

  lemma {:induction false} BigEndianRoundTrip(n: nat)
    ensures FromBigEndian(BigEndian(n)) == n
  {
    if n > 0 {
      BigEndianRoundTrip(n / 256);
      var s := BigEndian(n);
      assert s[..|s| - 1] == BigEndian(n / 256);
    }
  }

  /** 256 to the power `k`. */
  function Pow256(k: nat): (p: nat)
    ensures p > 0
  {
    if k == 0 then 1 else 256 * Pow256(k - 1)
  }

  lemma {:induction false} BigEndianLength(n: nat, k: nat)
    requires n < Pow256(k)
    ensures |BigEndian(n)| <= k
    ensures n > 0 ==> |BigEndian(n)| > 0 && BigEndian(n)[0] != 0
  {
    if n > 0 {
      BigEndianLength(n / 256, k - 1);
      if n / 256 == 0 {
        assert BigEndian(n) == [n % 256];
      }
    }
  }

  lemma {:induction false} FromBigEndianBound(s: bytes)
    ensures FromBigEndian(s) < Pow256(|s|)
  {
    if s != [] {
      FromBigEndianBound(s[..|s| - 1]);
    }
  }

  /** Big-endian bytes of `n` in exactly `k` bytes (`to_be_bytes`). */
  function FixedBigEndian(n: nat, k: nat): (r: bytes)
    ensures |r| == k
  {
    if k == 0 then [] else FixedBigEndian(n / 256, k - 1) + [n % 256]
  }

  /** `s` without its leading zero bytes. */
  function Stripped(s: bytes): bytes {
    if s != [] && s[0] == 0 then Stripped(s[1..]) else s
  }

  lemma {:induction false} StrippedAppend(s: bytes, b: byte)
    ensures Stripped(s + [b]) == if Stripped(s) == [] then Stripped([b]) else Stripped(s) + [b]
  {
    if s == [] {
      assert s + [b] == [b];
    } else if s[0] == 0 {
      assert (s + [b])[1..] == s[1..] + [b];
      StrippedAppend(s[1..], b);
    }
  }

  lemma {:induction false} StrippedFixed(n: nat, k: nat)
    requires n < Pow256(k)
    ensures Stripped(FixedBigEndian(n, k)) == BigEndian(n)
  {
    if k > 0 {
      StrippedFixed(n / 256, k - 1);
      StrippedAppend(FixedBigEndian(n / 256, k - 1), n % 256);
      if n > 0 && n / 256 == 0 {
        assert BigEndian(n) == [n];
      }
    }
  }

  /** Little-endian bytes of `n` in exactly `k` bytes. */
  function LittleEndian(n: nat, k: nat): (r: bytes)
    ensures |r| == k
  {
    if k == 0 then [] else [n % 256] + LittleEndian(n / 256, k - 1)
  }

  function FromLittleEndian(s: bytes): nat {
    if s == [] then 0 else s[0] + 256 * FromLittleEndian(s[1..])
  }

  lemma {:induction false} FromLittleEndianBound(s: bytes)
    ensures FromLittleEndian(s) < Pow256(|s|)
  {
    if s != [] {
      FromLittleEndianBound(s[1..]);
    }
  }

  lemma {:induction false} LittleEndianRoundTrip(n: nat, k: nat)
    requires n < Pow256(k)
    ensures FromLittleEndian(LittleEndian(n, k)) == n
  {
    if k > 0 {
      LittleEndianRoundTrip(n / 256, k - 1);
      assert LittleEndian(n, k)[1..] == LittleEndian(n / 256, k - 1);
    }
  }

  lemma Assoc<T>(p: seq<T>, q: seq<T>, r: seq<T>)
    ensures (p + q) + r == p + (q + r)
  {
  }

  /** `(p + q) + r` starts with `p`, and what follows `p` is `q + r`. */
  lemma Cut(p: bytes, q: bytes, r: bytes)
    ensures (p + q) + r == p + (q + r)
    ensures ((p + q) + r)[..|p|] == p
    ensures ((p + q) + r)[|p|..] == q + r
  {
    assert (p + q) + r == p + (q + r);
  }
}
