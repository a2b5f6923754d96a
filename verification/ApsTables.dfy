/**
 The two rolling tables of the apns-pack-v1 codec (src/aps.rs): at most 32 keys,
 and values whose accounted size stays within a budget.
 */
module ApsTables {
  import opened Bytes

  const KEY_LIMIT := 0x20
  const ITEM_OVERHEAD := 0x20

  type KeyCache = k: seq<bytes> | |k| <= KEY_LIMIT

  datatype ValueTable = ValueTable(cache: seq<bytes>, total: nat, max: nat)

  datatype Tables = Tables(keys: KeyCache, values: ValueTable)

  /** The key table after `item` is pushed; the oldest key leaves a full table. */
  function AddKey(keys: KeyCache, item: bytes): (r: KeyCache)
    ensures var all := keys + [item];
      r == if |all| <= KEY_LIMIT then all else all[|all| - KEY_LIMIT..]
  {
    (if |keys| >= KEY_LIMIT then keys[1..] else keys) + [item]
  }

  /** Pops the oldest items until `total` fits; None where the Rust code panics. */
  function Evict(cache: seq<bytes>, total: nat, max: nat): Option<(seq<bytes>, nat)> {
    if total <= max then Some((cache, total))
    else if cache == [] then None                             // "Deque empty??"
    else if |cache[0]| + ITEM_OVERHEAD > total then None      // total_size underflows
    else Evict(cache[1..], total - (|cache[0]| + ITEM_OVERHEAD), max)
  }

  predicate Fits(item: bytes, max: nat) {
    |item| + ITEM_OVERHEAD <= max
  }

  /** The value table after `item` is pushed.  An item over the budget skips the accounting. */
  function AddValue(v: ValueTable, item: bytes): (r: Option<ValueTable>) {
    if Fits(item, v.max) then
      var (cache, total) :- Evict(v.cache, v.total + |item| + ITEM_OVERHEAD, v.max);
      Some(ValueTable(cache + [item], total, v.max))
    else
      Some(v.(cache := v.cache + [item]))
  }

  /** The position of `item` counted back from the newest entry. */
  function Find(cache: seq<bytes>, item: bytes): (r: Option<nat>)
    ensures r.Some? <==> item in cache
    ensures r.Some? ==> r.value < |cache| && cache[|cache| - 1 - r.value] == item
    ensures r.Some? ==> forall p :: |cache| - r.value <= p < |cache| ==> cache[p] != item
  {
    if cache == [] then None
    else if cache[|cache| - 1] == item then Some(0)
    else
      var older :- Find(cache[..|cache| - 1], item);
      Some(older + 1)
  }

  function Get(cache: seq<bytes>, index: nat): Option<bytes> {
    if index < |cache| then Some(cache[|cache| - 1 - index]) else None
  }

  // ----- accounting -----

  function AccountedSize(cache: seq<bytes>): nat {
    if cache == [] then 0 else |cache[0]| + ITEM_OVERHEAD + AccountedSize(cache[1..])
  }

  /** The bookkeeping invariant of the value table. */
  ghost predicate Accounted(v: ValueTable) {
    && v.total == AccountedSize(v.cache)
    && v.total <= v.max
  }

  lemma {:induction false} AccountedSizeAppend(cache: seq<bytes>, item: bytes)
    ensures AccountedSize(cache + [item]) == AccountedSize(cache) + |item| + ITEM_OVERHEAD
  {
    if cache != [] {
      AccountedSizeAppend(cache[1..], item);
      assert (cache + [item])[1..] == cache[1..] + [item];
    }
  }

  /** How many of the oldest items have to leave before `extra` more fits. */
  ghost function Surplus(cache: seq<bytes>, extra: nat, max: nat): (k: nat)
    ensures k <= |cache|
  {
    if cache == [] || AccountedSize(cache) + extra <= max then 0
    else 1 + Surplus(cache[1..], extra, max)
  }

  /** Making room for an item within budget neither empties the deque nor underflows. */
  lemma {:induction false} EvictAccounted(cache: seq<bytes>, extra: nat, max: nat)
    requires extra <= max
    ensures var kept := cache[Surplus(cache, extra, max)..];
      && Evict(cache, AccountedSize(cache) + extra, max) == Some((kept, AccountedSize(kept) + extra))
      && AccountedSize(kept) + extra <= max
  {
    if cache == [] || AccountedSize(cache) + extra <= max {
      assert cache[0..] == cache;
    } else {
      var k := Surplus(cache[1..], extra, max);
      EvictAccounted(cache[1..], extra, max);
      assert cache[1..][k..] == cache[k + 1..];
    }
  }

  /** Eviction stops at the first point where the item fits. */
  lemma {:induction false} EvictMinimal(cache: seq<bytes>, extra: nat, max: nat, j: nat)
    requires j < Surplus(cache, extra, max)
    ensures AccountedSize(cache[j..]) + extra > max
  {
    if j == 0 {
      assert cache[0..] == cache;
    } else {
      EvictMinimal(cache[1..], extra, max, j - 1);
      assert cache[1..][j - 1..] == cache[j..];
    }
  }

  /** An item within budget is accepted, stays newest, and keeps the bookkeeping exact. */
  lemma AddValueAccounted(v: ValueTable, item: bytes)
    requires Accounted(v) && Fits(item, v.max)
    ensures AddValue(v, item).Some?
    ensures Accounted(AddValue(v, item).value)
    ensures AddValue(v, item).value.max == v.max
    ensures item in AddValue(v, item).value.cache
  {
    EvictAccounted(v.cache, |item| + ITEM_OVERHEAD, v.max);
    AccountedSizeAppend(v.cache[Surplus(v.cache, |item| + ITEM_OVERHEAD, v.max)..], item);
  }

  /** The table after a whole run of pushes. */
  function AddAll(v: ValueTable, items: seq<bytes>): Option<ValueTable> {
    if items == [] then Some(v)
    else
      var before :- AddAll(v, items[..|items| - 1]);
      AddValue(before, items[|items| - 1])
  }

  ghost predicate AccountedAfter(v: ValueTable, items: seq<bytes>, n: nat)
    requires n <= |items|
  {
    var r := AddAll(v, items[..n]);
    r.Some? && Accounted(r.value)
  }

  lemma {:induction false} AddAllKeepsMax(v: ValueTable, items: seq<bytes>)
    requires AddAll(v, items).Some?
    ensures AddAll(v, items).value.max == v.max
  {
    if items != [] {
      AddAllKeepsMax(v, items[..|items| - 1]);
    }
  }

  lemma AccountedStep(v: ValueTable, items: seq<bytes>, n: nat)
    requires n < |items| && AccountedAfter(v, items, n)
    ensures AccountedAfter(v, items, n + 1) <==> Fits(items[n], v.max)
  {
    assert items[..n + 1][..n] == items[..n];
    AddAllKeepsMax(v, items[..n]);
    var before := AddAll(v, items[..n]).value;
    if Fits(items[n], v.max) {
      AddValueAccounted(before, items[n]);
    } else {
      AccountedSizeAppend(before.cache, items[n]);
    }
  }

  /**
   Over a run of pushes onto an accounted table, `total_size` is the accounted
   size of the cache, within budget and with no panic, after every push
   if and only if every pushed item fits the budget.
   */
  lemma AccountedIffAllFit(v: ValueTable, items: seq<bytes>)
    requires Accounted(v)
    ensures (forall n :: 0 <= n <= |items| ==> AccountedAfter(v, items, n))
       <==> (forall i :: 0 <= i < |items| ==> Fits(items[i], v.max))
  {
    if forall i :: 0 <= i < |items| ==> Fits(items[i], v.max) {
      AccountedWhenAllFit(v, items, |items|);
    } else if forall n :: 0 <= n <= |items| ==> AccountedAfter(v, items, n) {
      var i :| 0 <= i < |items| && !Fits(items[i], v.max);
      assert AccountedAfter(v, items, i) && AccountedAfter(v, items, i + 1);
      AccountedStep(v, items, i);
    }
  }

  lemma {:induction false} AccountedWhenAllFit(v: ValueTable, items: seq<bytes>, upTo: nat)
    requires Accounted(v) && upTo <= |items|
    requires forall i :: 0 <= i < |items| ==> Fits(items[i], v.max)
    ensures forall n :: 0 <= n <= upTo ==> AccountedAfter(v, items, n)
  {
    if upTo > 0 {
      AccountedWhenAllFit(v, items, upTo - 1);
      AccountedStep(v, items, upTo - 1);
    }
  }

  /** What goes wrong otherwise: after a 40-byte item in a 64-byte budget, a later push underflows. */
  lemma OversizedItemPanics(big: bytes)
    requires |big| == 40
    ensures AddAll(ValueTable([], 0, 64), [big, [1], [2]]) == None
  {
    var empty := ValueTable([], 0, 64);
    assert [big, [1], [2]][..2] == [big] + [[1]];
    assert ([big] + [[1]])[..1] == [big];
    assert AddAll(empty, []) == Some(empty);
    assert [big][..0] == [];
    assert AddValue(empty, big) == Some(ValueTable([big], 0, 64)) by {
      assert [] + [big] == [big];
    }
    var t1 := ValueTable([big], 0, 64);
    assert AddAll(empty, [big]) == Some(t1);
    assert Evict([big], 33, 64) == Some(([big], 33));
    assert Evict([big] + [[1]], 66, 64) == None;
  }

  // ----- the mutable tables -----

  /** `APSItemCache<KeyItemAddBehavior>` */
  class KeyTable {
    var cache: KeyCache

    constructor ()
      ensures cache == []
    {
      cache := [];
    }

    method AddItem(item: bytes)
      modifies this
      ensures cache == AddKey(old(cache), item)
    {
      if |cache| >= KEY_LIMIT {
        cache := cache[1..];
      }
      cache := cache + [item];
    }
  }

  /** `APSItemCache<ValueItemAddBehavior>` */
  class ValueCache {
    var cache: seq<bytes>
    var totalSize: nat
    const maxSize: nat

    constructor (size: nat)
      ensures Table() == ValueTable([], 0, size)
    {
      cache, totalSize, maxSize := [], 0, size;
    }

    function Table(): ValueTable
      reads this
    {
      ValueTable(cache, totalSize, maxSize)
    }

    /** Pushes `item`; `ok` is false where the Rust code panics. */
    method AddItem(item: bytes) returns (ok: bool)
      modifies this
      ensures ok == AddValue(old(Table()), item).Some?
      ensures ok ==> Table() == AddValue(old(Table()), item).value
    {
      if |item| + ITEM_OVERHEAD <= maxSize {
        totalSize := totalSize + |item| + ITEM_OVERHEAD;
        while totalSize > maxSize
          invariant Evict(cache, totalSize, maxSize)
                 == Evict(old(cache), old(totalSize) + |item| + ITEM_OVERHEAD, maxSize)
          decreases |cache|
        {
          if cache == [] {
            return false;
          }
          var removed := cache[0];
          cache := cache[1..];
          if |removed| + ITEM_OVERHEAD > totalSize {
            return false;
          }
          totalSize := totalSize - (|removed| + ITEM_OVERHEAD);
        }
      }
      cache := cache + [item];
      ok := true;
    }
  }

  /** `get_buf_idx`: scans from the newest entry. */
  method FindIndex(cache: seq<bytes>, item: bytes) returns (r: Option<nat>)
    ensures r == Find(cache, item)
  {
    var i := 0;
    while i < |cache|
      invariant 0 <= i <= |cache|
      invariant forall p :: |cache| - i <= p < |cache| ==> cache[p] != item
    {
      if cache[|cache| - 1 - i] == item {
        return Some(i);
      }
      i := i + 1;
    }
    r := None;
  }
}
