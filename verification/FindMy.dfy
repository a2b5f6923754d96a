/**
 The key ratchets of accessories (src/findmy.rs): chains of secrets, windows on them and the
 count of days between two instants.

 The key derivation is a fixed function `update`; an instant is a number of nanoseconds
 since the epoch.
 */
module FindMy {
  import opened Bytes

  const SECOND: int := 1_000_000_000
  const DAY: int := 86_400 * SECOND
  const FOUR: int := 4 * 3_600 * SECOND

  // ----- days -----

  /** The instants after `start` and up to `end` at which the clock shows 04:00 UTC. */
  function FourAms(start: int, end: int): set<int> {
    set t | start < t <= end && t % DAY == FOUR
  }

  /** `count_4am_between_dt` */
  method CountFourAms(start: int, end: int) returns (count: nat)
    ensures count == |FourAms(start, end)|
  {
    if end <= start {
      assert FourAms(start, end) == {};
      return 0;
    }
    var first := start / DAY * DAY + FOUR;
    if first <= start {
      first := first + DAY;
    }
    FirstFourAm(start, first);
    FourAmsFrom(start, first, end);
    if end < first {
      count := 0;
    } else {
      count := (end - first) / DAY + 1;
    }
  }

  /** The first 04:00 after `start` is on its day or the next. */
  lemma FirstFourAm(start: int, first: int)
    requires var t := start / DAY * DAY + FOUR; first == if t <= start then t + DAY else t
    ensures first % DAY == FOUR && start < first
    ensures forall t :: start < t < first ==> t % DAY != FOUR
  {
    var day := start / DAY;
    assert day * DAY <= start < (day + 1) * DAY;
    forall t | start < t < first ensures t % DAY != FOUR {
    }
  }

  lemma {:induction false} FourAmsFrom(start: int, first: int, end: int)
    requires first % DAY == FOUR && start < first
    requires forall t :: start < t < first ==> t % DAY != FOUR
    ensures |FourAms(start, end)| == if end < first then 0 else (end - first) / DAY + 1
    decreases end - first
  {
    if end < first {
      assert FourAms(start, end) == {};
    } else {
      NoneBetween(first);
      FourAmsFrom(first, first + DAY, end);
      FourAmsSplit(start, first, end);
      OneDayLess(end - first);
    }
  }

  lemma NoneBetween(first: int)
    requires first % DAY == FOUR
    ensures (first + DAY) % DAY == FOUR
    ensures forall t :: first < t < first + DAY ==> t % DAY != FOUR
  {
  }

  lemma FourAmsSplit(start: int, first: int, end: int)
    requires first % DAY == FOUR && start < first <= end
    requires forall t :: start < t < first ==> t % DAY != FOUR
    ensures FourAms(start, end) == {first} + FourAms(first, end)
  {
  }

  lemma OneDayLess(span: int)
    ensures (span - DAY) / DAY + 1 == span / DAY
    ensures span < DAY <==> span / DAY <= 0
  {
  }

  lemma {:induction false} SubsetSize(a: set<int>, b: set<int>)
    requires a <= b
    ensures |a| <= |b|
  {
    assert b == a + (b - a);
  }

  // ----- ratchets -----

  datatype Ratchet = Ratchet(index: nat, secret: bytes) {
    function Next(update: bytes -> bytes): Ratchet {
      Ratchet(index + 1, update(secret))
    }
  }

  /** The `i`-th secret of the chain that starts with `original`. */
  function Chain(update: bytes -> bytes, original: bytes, i: nat): bytes {
    if i == 0 then original else update(Chain(update, original, i - 1))
  }

  function On(update: bytes -> bytes, original: bytes, i: nat): Ratchet {
    Ratchet(i, Chain(update, original, i))
  }

  lemma {:induction false} ChainFrom(update: bytes -> bytes, original: bytes, i: nat, j: nat)
    ensures Chain(update, Chain(update, original, i), j) == Chain(update, original, i + j)
  {
    if j > 0 {
      ChainFrom(update, original, i, j - 1);
    }
  }

  /** The ratchet `i` steps after `from`. */
  function Ahead(update: bytes -> bytes, from: Ratchet, i: nat): Ratchet {
    Ratchet(from.index + i, Chain(update, from.secret, i))
  }

  /** Moves on to `idx`, or starts again from `original`. */
  method Seek(update: bytes -> bytes, from: Ratchet, idx: nat, original: bytes) returns (ratchet: Ratchet)
    ensures idx < from.index ==> ratchet == On(update, original, idx)
    ensures from.index <= idx ==> ratchet == Ahead(update, from, idx - from.index)
    ensures from == On(update, original, from.index) ==> ratchet == On(update, original, idx)
  {
    ratchet := from;
    if idx < ratchet.index {
      ratchet := Ratchet(0, original);
    }
    ghost var begin := ratchet;
    while ratchet.index < idx
      invariant begin.index <= ratchet.index <= idx
      invariant ratchet.secret == Chain(update, begin.secret, ratchet.index - begin.index)
    {
      ratchet := ratchet.Next(update);
    }
    ChainFrom(update, original, from.index, idx - begin.index);
  }

  /** `from` and the `count` ratchets after it. */
  method Window(update: bytes -> bytes, from: Ratchet, count: nat) returns (ratchets: seq<Ratchet>)
    ensures |ratchets| == count + 1 && forall i :: 0 <= i <= count ==> ratchets[i] == Ahead(update, from, i)
  {
    ratchets := [from];
    for k := 0 to count
      invariant |ratchets| == k + 1 && forall i :: 0 <= i <= k ==> ratchets[i] == Ahead(update, from, i)
    {
      AheadNext(update, from, k);
      ratchets := ratchets + [ratchets[k].Next(update)];
    }
  }

  lemma AheadNext(update: bytes -> bytes, from: Ratchet, k: nat)
    ensures Ahead(update, from, k + 1) == Ahead(update, from, k).Next(update)
  {
  }

  /** `count + 1` consecutive ratchets of one chain. */
  ghost predicate Consecutive(update: bytes -> bytes, original: bytes, start: nat, count: nat, ratchets: seq<Ratchet>) {
    |ratchets| == count + 1 && forall i :: 0 <= i <= count ==> ratchets[i] == On(update, original, start + i)
  }

  lemma WindowOnChain(update: bytes -> bytes, original: bytes, start: nat, count: nat, ratchets: seq<Ratchet>)
    requires |ratchets| == count + 1
    requires forall i :: 0 <= i <= count ==> ratchets[i] == Ahead(update, On(update, original, start), i)
    ensures Consecutive(update, original, start, count, ratchets)
  {
    forall i | 0 <= i <= count ensures ratchets[i] == On(update, original, start + i) {
      ChainFrom(update, original, start, i);
    }
  }

  // ----- accessories -----

  /** `saturating_sub` */
  function Minus(n: nat, m: nat): nat {
    if n < m then 0 else n - m
  }

  /** The slots of fifteen minutes since the accessory was seen; a clock set back counts none. */
  function SlotsElapsed(seen: int, now: int): nat {
    if now < seen then 0 else (now - seen) / SECOND / 900
  }

  const HALF_DAY: int := 12 * 3_600 * SECOND

  /** How often the secondary key has changed since the pairing, half a day ahead of `now`. */
  function Rotations(pairing: int, now: int): nat {
    |FourAms(pairing, now + HALF_DAY)|
  }

  /** Where the secondary window of `now` begins. */
  function SecondaryStart(pairing: int, now: int): nat {
    Minus(Rotations(pairing, now), 7)
  }

  /** What `GetCurrentSecondary` makes of its ratchet. */
  function NextSecondary(update: bytes -> bytes, secret: bytes, pairing: int, ratchet: Ratchet, now: int): Ratchet {
    var start := SecondaryStart(pairing, now);
    if start < ratchet.index then On(update, secret, start)
    else Ahead(update, ratchet, start - ratchet.index)
  }

  class BeaconAccessory {
    const update: bytes -> bytes
    const sharedSecret: bytes
    const sharedSecret2: bytes
    const pairingDate: int
    var lastIndexObserved: i64
    var lastObservation: int
    var primary: Ratchet
    var secondary: Ratchet

    constructor (update: bytes -> bytes, secret: bytes, secret2: bytes, pairing: int, index: i64, seen: int)
      ensures this.update == update && sharedSecret == secret && sharedSecret2 == secret2 && pairingDate == pairing
      ensures lastIndexObserved == index && lastObservation == seen
      ensures primary == On(update, secret, 0) && secondary == On(update, secret2, 0)
    {
      this.update, sharedSecret, sharedSecret2, pairingDate := update, secret, secret2, pairing;
      lastIndexObserved, lastObservation := index, seen;
      primary, secondary := Ratchet(0, secret), Ratchet(0, secret2);
    }

    /**
     The keys from a week and a half day back to half a day ahead; fewer back if the accessory
     was seen since, none from before it.  None if the sum of indices overflows.
     */
    method GetCurrentPrimary(now: int) returns (r: Option<seq<Ratchet>>)
      modifies this`primary
      ensures r.None? <==> lastIndexObserved % U64 + Minus(SlotsElapsed(lastObservation, now), 720) >= U64
      ensures r.None? ==> primary == old(primary)
      ensures r.Some? && old(primary) == On(update, sharedSecret, old(primary).index) ==>
        var elapsed := SlotsElapsed(lastObservation, now);
        var start := lastIndexObserved % U64 + Minus(elapsed, 720);
        && primary == On(update, sharedSecret, start)
        && Consecutive(update, sharedSecret, start, elapsed - Minus(elapsed, 720) + 48, r.value)
        && |r.value| <= 769
        && r.value[|r.value| - 1].index == lastIndexObserved % U64 + elapsed + 48
    {
      var elapsed := SlotsElapsed(lastObservation, now);
      var seekSlots := Minus(elapsed, 720);
      var startSlot := lastIndexObserved % U64 + seekSlots;
      if startSlot >= U64 {
        return None;
      }
      ghost var onChain := primary == On(update, sharedSecret, primary.index);
      primary := Seek(update, primary, startSlot, sharedSecret);
      var window := Window(update, primary, elapsed - seekSlots + 48);
      if onChain {
        WindowOnChain(update, sharedSecret, startSlot, elapsed - seekSlots + 48, window);
      }
      r := Some(window);
    }

    /**
     The keys of the last seven days and the next.  Going forward the window is on the secondary
     chain; going back it restarts from the primary secret and leaves that chain.
     */
    method GetCurrentSecondary(now: int) returns (r: seq<Ratchet>)
      modifies this`secondary
      ensures secondary == NextSecondary(update, sharedSecret, pairingDate, old(secondary), now)
      ensures old(secondary) == On(update, sharedSecret2, old(secondary).index) ==>
        var rotations := Rotations(pairingDate, now);
        var start := Minus(rotations, 7);
        var secret := if old(secondary).index <= start then sharedSecret2 else sharedSecret;
        && secondary == On(update, secret, start)
        && Consecutive(update, secret, start, rotations - start + 1, r)
        && |r| <= 9 && r[|r| - 1].index == rotations + 1
    {
      var rotations := CountFourAms(pairingDate, now + HALF_DAY);
      var seekSlots := Minus(rotations, 7);
      ghost var onChain := secondary == On(update, sharedSecret2, secondary.index);
      ghost var secret := if secondary.index <= seekSlots then sharedSecret2 else sharedSecret;
      if onChain && secondary.index <= seekSlots {
        ChainFrom(update, sharedSecret2, secondary.index, seekSlots - secondary.index);
      }
      secondary := Seek(update, secondary, seekSlots, sharedSecret);
      r := Window(update, secondary, rotations - seekSlots + 1);
      if onChain {
        WindowOnChain(update, secret, seekSlots, rotations - seekSlots + 1, r);
      }
    }
  }

  // ----- all calls -----

  function AfterCalls(update: bytes -> bytes, secret: bytes, pairing: int, ratchet: Ratchet, times: seq<int>): Ratchet
    decreases |times|
  {
    if times == [] then ratchet
    else AfterCalls(update, secret, pairing, NextSecondary(update, secret, pairing, ratchet, times[0]), times[1..])
  }

  lemma StartGrows(pairing: int, now: int, later: int)
    requires now <= later
    ensures SecondaryStart(pairing, now) <= SecondaryStart(pairing, later)
  {
    SubsetSize(FourAms(pairing, now + HALF_DAY), FourAms(pairing, later + HALF_DAY));
  }

  /** As long as the clock is not set back, the secondary ratchet stays on its own chain. */
  lemma {:induction false} SecondaryStaysOnChain(update: bytes -> bytes, secret: bytes, secret2: bytes, pairing: int,
                                                 ratchet: Ratchet, times: seq<int>)
    requires ratchet == On(update, secret2, ratchet.index)
    requires times != [] ==> ratchet.index <= SecondaryStart(pairing, times[0])
    requires forall i :: 0 < i < |times| ==> times[i - 1] <= times[i]
    ensures var last := AfterCalls(update, secret, pairing, ratchet, times); last == On(update, secret2, last.index)
    decreases |times|
  {
    if times != [] {
      var start := SecondaryStart(pairing, times[0]);
      ChainFrom(update, secret2, ratchet.index, start - ratchet.index);
      if |times| > 1 {
        StartGrows(pairing, times[0], times[1]);
      }
      SecondaryStaysOnChain(update, secret, secret2, pairing, On(update, secret2, start), times[1..]);
    }
  }

  /** A clock set back by a day can leave the chain: the restart takes the other secret. */
  lemma SecondaryLeavesChain(update: bytes -> bytes, secret: bytes, secret2: bytes, pairing: int, ratchet: Ratchet, now: int)
    requires ratchet == On(update, secret2, ratchet.index) && SecondaryStart(pairing, now) < ratchet.index
    requires Chain(update, secret, SecondaryStart(pairing, now)) != Chain(update, secret2, SecondaryStart(pairing, now))
    ensures var next := NextSecondary(update, secret, pairing, ratchet, now);
      next != On(update, secret2, next.index)
  {
  }
}
