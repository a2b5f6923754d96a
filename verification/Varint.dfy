/**
 Seven-bit group numbers: the tail of an APS tagged integer (src/aps.rs) and the
 uleb128 lengths of CloudKit responses (src/util.rs) use the same groups.
 */
module Varint {
  import opened Bytes

  /** The groups of `n`, least significant first; the top bit says that more follow. */
  function Groups(n: nat): (r: bytes)
    ensures |r| >= 1
  {
    if n < 128 then [n] else [n % 128 + 128] + Groups(n / 128)
  }

  /** `n` shifted left by 7 * idx bits. */
  function ShiftLeft(n: nat, idx: nat): nat {
    if idx == 0 then n else 128 * ShiftLeft(n, idx - 1)
  }

  /** Writing the groups of `n` one at a time. */
  lemma GroupsStep(written: bytes, n: nat)
    ensures written + Groups(n)
         == if n / 128 == 0 then written + [n % 128] else written + [n % 128 + 128] + Groups(n / 128)
  {
    if n / 128 != 0 {
      assert written + ([n % 128 + 128] + Groups(n / 128)) == written + [n % 128 + 128] + Groups(n / 128);
    }
  }

  /** How a read of groups ends: at a last group, at the end of the data, or in a shift overflow. */
  datatype GroupsRead = Complete(number: nat, rest: bytes) | Truncated(number: nat) | Overflow

  /** One group shifted into place; a u64 shift drops the bits above bit 63. */
  function Shifted(b: byte, idx: nat): (r: nat)
    ensures r < U64
  {
    ShiftLeft(b % 128, idx) % U64
  }

  /** Reads groups from `data`, the first of them the `idx`-th of the number. */
  function ReadGroups(data: bytes, idx: nat): GroupsRead
    decreases |data|
  {
    if data == [] then Truncated(0)
    else if idx >= 10 then Overflow
    else if data[0] < 128 then Complete(Shifted(data[0], idx), data[1..])
    else
      AddGroup(Shifted(data[0], idx), ReadGroups(data[1..], idx + 1))
  }

  function AddGroup(part: nat, r: GroupsRead): GroupsRead {
    match r
    case Complete(n, rest) => Complete(part + n, rest)
    case Truncated(n) => Truncated(part + n)
    case Overflow => Overflow
  }

  lemma {:induction false} ShiftSplit(n: nat, idx: nat)
    ensures ShiftLeft(n, idx) == ShiftLeft(n % 128, idx) + ShiftLeft(n / 128, idx + 1)
  {
    if idx > 0 {
      ShiftSplit(n, idx - 1);
    }
  }

  /** Beyond ten groups a number does not fit 64 bits. */
  lemma {:induction false} ShiftGrows(n: nat, i: nat, j: nat)
    requires n > 0 && i <= j
    ensures ShiftLeft(n, i) <= ShiftLeft(n, j)
    decreases j
  {
    if i < j {
      ShiftGrows(n, i, j - 1);
    }
  }

  lemma ShiftTen(n: nat)
    requires n > 0
    ensures ShiftLeft(n, 10) >= U64
  {
    var two := ShiftLeft(n, 2);
    var four := ShiftLeft(n, 4);
    var six := ShiftLeft(n, 6);
    assert two == 128 * ShiftLeft(n, 1);
    assert four == 128 * ShiftLeft(n, 3);
    assert six == 128 * ShiftLeft(n, 5);
    assert ShiftLeft(n, 8) == 128 * ShiftLeft(n, 7);
    assert ShiftLeft(n, 10) == 128 * ShiftLeft(n, 9);
  }

  lemma AtMostTenGroups(n: nat, idx: nat)
    requires ShiftLeft(n, idx) < U64
    requires idx == 0 || n > 0
    ensures idx < 10
  {
    if idx >= 10 {
      ShiftTen(n);
      ShiftGrows(n, 10, idx);
    }
  }

  /** Reading back the groups of a number consumes exactly those groups. */
  lemma {:induction false} ReadGroupsOfGroups(n: nat, idx: nat, rest: bytes)
    requires ShiftLeft(n, idx) < U64
    requires idx == 0 || n > 0
    ensures ReadGroups(Groups(n) + rest, idx) == Complete(ShiftLeft(n, idx), rest)
    decreases n
  {
    AtMostTenGroups(n, idx);
    if n < 128 {
      ReadLast(n, rest, idx);
    } else {
      ShiftSplit(n, idx);
      ReadGroupsOfGroups(n / 128, idx + 1, rest);
      ReadMore(n % 128, Groups(n / 128), rest, idx);
    }
  }

  lemma ReadLast(low: nat, rest: bytes, idx: nat)
    requires low < 128 && idx < 10 && ShiftLeft(low, idx) < U64
    ensures ReadGroups([low] + rest, idx) == Complete(ShiftLeft(low, idx), rest)
  {
    assert ([low] + rest)[1..] == rest;
  }

  /** Reading past a group that announces more. */
  lemma ReadMore(low: nat, more: bytes, rest: bytes, idx: nat)
    requires low < 128 && idx < 10 && ShiftLeft(low, idx) < U64
    ensures ReadGroups([low + 128] + more + rest, idx)
         == AddGroup(ShiftLeft(low, idx), ReadGroups(more + rest, idx + 1))
  {
    var first: bytes := [low + 128];
    Cut(first, more, rest);
    ShiftedLow(low, idx);
    ReadFirst(first + more + rest, idx);
  }

  lemma ShiftedLow(low: nat, idx: nat)
    requires low < 128 && ShiftLeft(low, idx) < U64
    ensures Shifted(low + 128, idx) == ShiftLeft(low, idx)
  {
    assert (low + 128) % 128 == low;
  }

  lemma ReadFirst(data: bytes, idx: nat)
    requires |data| > 0 && data[0] >= 128 && idx < 10
    ensures ReadGroups(data, idx) == AddGroup(Shifted(data[0], idx), ReadGroups(data[1..], idx + 1))
  {
  }
}
