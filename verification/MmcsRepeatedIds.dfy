/**
 Which chunk lists a target reassembles in step with every arrival order
 (`ChunkedContainer::write_chunk`, src/icloud/mmcs.rs): exactly those without a repeated id.
 */
module MmcsRepeatedIds {
  import opened Bytes
  import opened MmcsReassembly

  /** If the run does not panic, it ends in step with what has arrived. */
  ghost predicate KeepsStep(crypto: Crypto, chunks: seq<Chunk>, arrivals: seq<Id>) {
    var r := Run(crypto, Fresh(chunks), arrivals);
    r.Some? ==> InStep(r.value, Arrived(arrivals))
  }

  ghost predicate Listed(chunks: seq<Chunk>, arrivals: seq<Id>) {
    forall k :: 0 <= k < |arrivals| ==> arrivals[k] in Ids(chunks)
  }

  // ----- a chunk that is wanted again, has arrived and is not in the cache -----

  /** The drain loop never gets past a wanted chunk that is not in the cache and is not the one it puts there. */
  lemma {:induction false} DrainStuck(t: Target, id: Id, sealed: bytes, w: Id)
    requires t.current <= |t.chunks| && w != id && w !in t.cached && WantsMore(t.chunks, t.current, w)
    ensures var r := Drain(t, id, sealed);
      r.Some? && w !in r.value.cached && WantsMore(t.chunks, r.value.current, w)
    decreases |t.chunks| - t.current
  {
    var wanted := Wanted(t).value;
    if wanted in t.cached {
      var kept := t.cached - {wanted};
      var cached := if WantsMore(t.chunks, t.current + 1, wanted) then kept[id := sealed] else kept;
      DrainStuck(t.(written := t.written + t.cached[wanted], cached := cached, current := t.current + 1), id, sealed, w);
    }
  }

  /** Chunk `i` waits in the cache while those before it are written one by one. */
  ghost predicate Waits(t: Target, chunks: seq<Chunk>, i: nat, m: nat)
    requires i < |chunks| && m <= i
  {
    && t.chunks == chunks && t.current == m
    && chunks[i].id in t.cached
    && forall a :: m <= a < i ==> chunks[a].id !in t.cached
  }

  /** First chunk `i`, then the chunks before it in order. */
  function Hurried(chunks: seq<Chunk>, i: nat, m: nat): seq<Id>
    requires i < |chunks| && m <= |chunks|
  {
    [chunks[i].id] + IdList(chunks[..m])
  }

  lemma HurriedStep(chunks: seq<Chunk>, i: nat, m: nat)
    requires i < |chunks| && 0 < m <= |chunks|
    ensures var r := Hurried(chunks, i, m);
      r[..|r| - 1] == Hurried(chunks, i, m - 1) && r[|r| - 1] == chunks[m - 1].id
  {
  }

  lemma WaitsFirst(crypto: Crypto, chunks: seq<Chunk>, i: nat)
    requires 0 < i < |chunks| && Distinct(chunks[..i + 1])
    ensures var r := WriteChunk(Fresh(chunks), chunks[i].id, crypto.Sealed(chunks[i].id));
      r.Some? && Waits(r.value, chunks, i, 0)
  {
    var front := chunks[..i + 1];
    assert forall a :: 0 <= a < i ==> front[a].id != front[i].id;
    assert chunks[i].id in Ids(chunks) && WantsMore(chunks, 0, chunks[i].id);
  }

  lemma WaitsOn(crypto: Crypto, t: Target, chunks: seq<Chunk>, i: nat, m: nat)
    requires i < |chunks| && m + 1 < i && Distinct(chunks[..i + 1]) && Waits(t, chunks, i, m)
    ensures var r := WriteChunk(t, chunks[m].id, crypto.Sealed(chunks[m].id));
      r.Some? && Waits(r.value, chunks, i, m + 1)
  {
    var front := chunks[..i + 1];
    assert forall a :: m < a < i ==> front[a].id != front[m].id;
    assert chunks[m].id in Ids(chunks);
  }

  lemma {:induction false} WaitsForTurn(crypto: Crypto, chunks: seq<Chunk>, i: nat, m: nat)
    requires i < |chunks| && m < i && Distinct(chunks[..i + 1])
    ensures var r := Run(crypto, Fresh(chunks), Hurried(chunks, i, m));
      r.Some? && Waits(r.value, chunks, i, m)
    decreases m
  {
    RunStep(crypto, Fresh(chunks), Hurried(chunks, i, m));
    if m == 0 {
      assert Hurried(chunks, i, 0) == [chunks[i].id];
      WaitsFirst(crypto, chunks, i);
    } else {
      HurriedStep(chunks, i, m);
      WaitsForTurn(crypto, chunks, i, m - 1);
      WaitsOn(crypto, Run(crypto, Fresh(chunks), Hurried(chunks, i, m - 1)).value, chunks, i, m - 1);
    }
  }

  /** Such a chunk is lost once its turn has come: it is drained, and wanted again. */
  lemma HurriedIsLost(crypto: Crypto, chunks: seq<Chunk>, i: nat, p: nat)
    requires 0 < i < p < |chunks| && Distinct(chunks[..i + 1]) && chunks[p].id == chunks[i].id
    ensures !KeepsStep(crypto, chunks, Hurried(chunks, i, i))
  {
    var id, w := chunks[i - 1].id, chunks[i].id;
    var sealed := crypto.Sealed(id);
    HurriedStep(chunks, i, i);
    RunStep(crypto, Fresh(chunks), Hurried(chunks, i, i));
    WaitsForTurn(crypto, chunks, i, i - 1);
    var t := Run(crypto, Fresh(chunks), Hurried(chunks, i, i - 1)).value;
    assert chunks[..i + 1][i - 1].id != chunks[..i + 1][i].id;
    assert WantsMore(chunks, i + 1, w) && id in Ids(chunks);
    var t1 := t.(written := t.written + sealed, current := i);
    var t2 := t1.(written := t1.written + t1.cached[w], cached := (t1.cached - {w})[id := sealed], current := i + 1);
    assert Drain(t1, id, sealed) == Drain(t2, id, sealed);
    DrainStuck(t2, id, sealed, w);
    assert Hurried(chunks, i, i)[0] == w;
    assert w in Arrived(Hurried(chunks, i, i));
  }

  // ----- the first chunk arriving last -----

  /** The chunks from the second on, the first of `m`. */
  function Tail(chunks: seq<Chunk>, m: nat): seq<Id>
    requires 0 < m <= |chunks|
  {
    IdList(chunks[1..m])
  }

  ghost predicate AllCached(t: Target, chunks: seq<Chunk>, from: nat, to: nat)
    requires to <= |chunks|
  {
    t.chunks == chunks && forall a :: from <= a < to ==> chunks[a].id in t.cached
  }

  lemma CachedToo(crypto: Crypto, t: Target, chunks: seq<Chunk>, m: nat)
    requires 0 < m < |chunks| && Distinct(chunks[..m + 1])
    requires AllCached(t, chunks, 1, m) && t.current == 0 && chunks[0].id !in t.cached
    ensures var r := WriteChunk(t, chunks[m].id, crypto.Sealed(chunks[m].id));
      r.Some? && AllCached(r.value, chunks, 1, m + 1) && r.value.current == 0 && chunks[0].id !in r.value.cached
  {
    assert chunks[..m + 1][0].id != chunks[..m + 1][m].id;
    assert chunks[m].id in Ids(chunks) && WantsMore(chunks, 0, chunks[m].id);
  }

  lemma TailStep(chunks: seq<Chunk>, m: nat)
    requires 1 < m <= |chunks|
    ensures var r := Tail(chunks, m);
      r != [] && r[..|r| - 1] == Tail(chunks, m - 1) && r[|r| - 1] == chunks[m - 1].id
  {
  }

  lemma {:induction false} TailIsCached(crypto: Crypto, chunks: seq<Chunk>, m: nat)
    requires 0 < m <= |chunks| && Distinct(chunks[..m])
    ensures var r := Run(crypto, Fresh(chunks), Tail(chunks, m));
      r.Some? && AllCached(r.value, chunks, 1, m) && r.value.current == 0 && chunks[0].id !in r.value.cached
    decreases m
  {
    if m == 1 {
      assert Tail(chunks, 1) == [];
    } else {
      DistinctFront(chunks, m - 1, m);
      TailIsCached(crypto, chunks, m - 1);
      TailStep(chunks, m);
      RunStep(crypto, Fresh(chunks), Tail(chunks, m));
      CachedToo(crypto, Run(crypto, Fresh(chunks), Tail(chunks, m - 1)).value, chunks, m - 1);
    }
  }

  ghost predicate OnlyOnce(chunks: seq<Chunk>, from: nat, to: nat)
    requires to <= |chunks|
  {
    forall a, b :: from <= a < to && a < b < |chunks| ==> chunks[a].id != chunks[b].id
  }

  /** Draining chunks that occur only once gets to the first that is not cached. */
  lemma {:induction false} DrainAll(t: Target, j: nat, id: Id, sealed: bytes)
    requires t.current <= j < |t.chunks|
    requires AllCached(t, t.chunks, t.current, j) && OnlyOnce(t.chunks, t.current, j) && t.chunks[j].id !in t.cached
    ensures Drain(t, id, sealed).Some? && Drain(t, id, sealed).value.current == j
    decreases j - t.current
  {
    if t.current < j {
      var wanted := Wanted(t).value;
      var next := t.(written := t.written + t.cached[wanted], cached := t.cached - {wanted}, current := t.current + 1);
      assert forall a :: t.current < a < j ==> t.chunks[a].id != wanted;
      DrainAll(next, j, id, sealed);
    }
  }

  lemma DrainsToSecond(t: Target, chunks: seq<Chunk>, j: nat, sealed: bytes)
    requires 0 < j < |chunks| && chunks[j].id == chunks[0].id && OnlyOnce(chunks, 1, j)
    requires AllCached(t, chunks, 1, j) && t.current == 0 && chunks[0].id !in t.cached
    ensures var r := WriteChunk(t, chunks[0].id, sealed);
      r.Some? && r.value.chunks == chunks && r.value.current == j
  {
    assert chunks[0].id in Ids(chunks);
    DrainAll(t.(written := t.written + sealed, current := 1), j, chunks[0].id, sealed);
  }

  /** The drain stops in front of the second copy of the first chunk, which has arrived. */
  lemma FirstComesLast(crypto: Crypto, chunks: seq<Chunk>, j: nat)
    requires 0 < j < |chunks| && Distinct(chunks[..j]) && chunks[j].id == chunks[0].id
    requires OnlyOnce(chunks, 1, j)
    ensures !KeepsStep(crypto, chunks, Tail(chunks, j) + [chunks[0].id])
  {
    var arrivals, id := Tail(chunks, j) + [chunks[0].id], chunks[0].id;
    assert arrivals[..j - 1] == Tail(chunks, j) && arrivals[j - 1] == id;
    TailIsCached(crypto, chunks, j);
    RunStep(crypto, Fresh(chunks), arrivals);
    DrainsToSecond(Run(crypto, Fresh(chunks), Tail(chunks, j)).value, chunks, j, crypto.Sealed(id));
    assert id in Arrived(arrivals);
  }

  // ----- every list with a repeated id has such a run -----

  /** The first chunk whose id has been there before. */
  lemma {:induction false} FirstRepeat(chunks: seq<Chunk>) returns (i: nat, j: nat)
    requires !Distinct(chunks)
    ensures i < j < |chunks| && chunks[i].id == chunks[j].id && Distinct(chunks[..j])
    decreases |chunks|
  {
    var front := chunks[..|chunks| - 1];
    if Distinct(front) {
      forall a, b | 0 <= a < b < |chunks| - 1
        ensures chunks[a].id != chunks[b].id
      {
        assert front[a].id != front[b].id;
      }
      i, j :| 0 <= i < j < |chunks| && chunks[i].id == chunks[j].id;
      assert chunks[..j] == front;
    } else {
      i, j := FirstRepeat(front);
      assert front[..j] == chunks[..j];
    }
  }

  lemma DistinctFront(chunks: seq<Chunk>, n: nat, m: nat)
    requires n <= m <= |chunks| && Distinct(chunks[..m])
    ensures Distinct(chunks[..n])
  {
    assert forall a :: 0 <= a < n ==> chunks[..n][a] == chunks[..m][a];
  }

  lemma ListedHurried(chunks: seq<Chunk>, i: nat)
    requires i < |chunks|
    ensures Listed(chunks, Hurried(chunks, i, i))
  {
    forall k | 0 <= k < |Hurried(chunks, i, i)|
      ensures Hurried(chunks, i, i)[k] in Ids(chunks)
    {
      var c := if k == 0 then i else k - 1;
      assert chunks[c].id in Ids(chunks);
    }
  }

  lemma ListedTail(chunks: seq<Chunk>, j: nat)
    requires 0 < j < |chunks|
    ensures Listed(chunks, Tail(chunks, j) + [chunks[0].id])
  {
    var arrivals := Tail(chunks, j) + [chunks[0].id];
    forall k | 0 <= k < |arrivals|
      ensures arrivals[k] in Ids(chunks)
    {
      var c := if k == j - 1 then 0 else k + 1;
      assert chunks[c].id in Ids(chunks);
    }
  }

  /** With a repeated id some run goes on without a panic and loses a chunk that has arrived. */
  lemma RepeatBreaks(crypto: Crypto, chunks: seq<Chunk>) returns (arrivals: seq<Id>)
    requires !Distinct(chunks)
    ensures Listed(chunks, arrivals) && !KeepsStep(crypto, chunks, arrivals)
  {
    var i, j := FirstRepeat(chunks);
    var p := j;
    if i == 0 && !OnlyOnce(chunks, 1, j) {
      i, p :| 1 <= i < j && i < p < |chunks| && chunks[i].id == chunks[p].id;
    }
    if i > 0 {
      DistinctFront(chunks, i + 1, j);
      HurriedIsLost(crypto, chunks, i, p);
      ListedHurried(chunks, i);
      arrivals := Hurried(chunks, i, i);
    } else {
      FirstComesLast(crypto, chunks, j);
      ListedTail(chunks, j);
      arrivals := Tail(chunks, j) + [chunks[0].id];
    }
  }

  /**
   A target stays in step in every run that does not panic, whatever arrives in whatever order,
   if and only if no id occurs twice in its chunk list.
   */
  lemma InStepIffDistinct(crypto: Crypto, chunks: seq<Chunk>)
    ensures Distinct(chunks)
       <==> forall arrivals: seq<Id> :: Listed(chunks, arrivals) ==> KeepsStep(crypto, chunks, arrivals)
  {
    if Distinct(chunks) {
      forall arrivals: seq<Id> | Listed(chunks, arrivals)
        ensures KeepsStep(crypto, chunks, arrivals)
      {
        Progress(crypto, chunks, arrivals);
      }
    } else {
      var arrivals := RepeatBreaks(crypto, chunks);
    }
  }
}
