/**
 Floats as their bit patterns, and what `as f32` and `as f64` make of a number (section 5.4.1 of
 IEEE 754, rounding to the nearest).
 */
module Floats {
  import opened Bytes

  type float32 = b: bytes | |b| == 4 witness [0, 0, 0, 0]
  type float64 = b: bytes | |b| == 8 witness [0, 0, 0, 0, 0, 0, 0, 0]

  function Pow2(k: nat): (p: nat)
    ensures p >= 1
  {
    if k == 0 then 1 else 2 * Pow2(k - 1)
  }

  /** The position of the highest bit. */
  function Log2(n: nat): (e: nat)
    requires n > 0
    ensures Pow2(e) <= n < 2 * Pow2(e)
  {
    if n == 1 then 0 else Log2(n / 2) + 1
  }

  /** `r` is `n` in units of `unit`, rounded to the nearest, and to the even of two. */
  ghost predicate Nearest(n: nat, unit: nat, r: nat) {
    var off := n - unit * r;
    0 <= 2 * off + unit && 2 * off <= unit && (2 * off == unit || 2 * off + unit == 0 ==> r % 2 == 0)
  }

  lemma Division(n: nat, unit: nat)
    requires unit > 0
    ensures n == unit * (n / unit) + n % unit && 0 <= n % unit < unit && n / unit >= 0
  {
  }

  lemma RoundUpOrDown(n: nat, unit: nat, q: nat, left: nat)
    requires left < unit && n == unit * q + left
    ensures Nearest(n, unit, if 2 * left > unit || (2 * left == unit && q % 2 == 1) then q + 1 else q)
  {
    assert unit * (q + 1) == unit * q + unit;
  }

  function Rounded(n: nat, unit: nat): (r: nat)
    requires unit > 0
    ensures Nearest(n, unit, r)
  {
    Division(n, unit);
    var q, left := n / unit, n % unit;
    RoundUpOrDown(n, unit, q, left);
    if 2 * left > unit || (2 * left == unit && q % 2 == 1) then q + 1 else q
  }

  function Shifted(n: nat, k: nat): nat {
    n * Pow2(k)
  }

  const HIDDEN_BIT_32 := 0x80_0000
  const HIDDEN_BIT_64 := 0x10_0000_0000_0000

  /**
   The highest bit of the significand is not stored.  A significand that is rounded up to the next
   power of two carries into the exponent.
   */
  function ToFloat(n: u32): float32 {
    if n == 0 then [0, 0, 0, 0]
    else
      var e := Log2(n);
      var significand := if e <= 23 then Shifted(n, 23 - e) else Rounded(n, Pow2(e - 23));
      LittleEndian((126 + e) * HIDDEN_BIT_32 + significand, 4)
  }

  /** Every 32-bit number is a double. */
  function ToDouble(n: u32): float64 {
    if n == 0 then [0, 0, 0, 0, 0, 0, 0, 0]
    else
      var e := Log2(n);
      Log2Below(n);
      LittleEndian((1022 + e) * HIDDEN_BIT_64 + Shifted(n, 52 - e), 8)
  }

  lemma {:induction false} Log2Less(n: nat, k: nat)
    requires 0 < n < Pow2(k)
    ensures Log2(n) < k
    decreases n
  {
    if n > 1 {
      Log2Less(n / 2, k - 1);
    }
  }

  lemma {:induction false} Pow2Sum(a: nat, b: nat)
    ensures Pow2(a + b) == Pow2(a) * Pow2(b)
    decreases b
  {
    if b > 0 {
      Pow2Sum(a, b - 1);
    }
  }

  lemma WordSize()
    ensures Pow2(32) == U32
  {
    assert Pow2(8) == 0x100;
    Pow2Sum(8, 8);
    assert Pow2(16) == 0x1_0000;
    Pow2Sum(16, 16);
  }

  lemma Log2Below(n: u32)
    requires n > 0
    ensures Log2(n) < 32
  {
    WordSize();
    Log2Less(n, 32);
  }
}
