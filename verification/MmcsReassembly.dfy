/**
 `ChunkedContainer::write_chunk` (src/icloud/mmcs.rs): a target takes chunks in any
 order, writes the one it wants and keeps the others until their turn comes.

 The panic of the drain loop is kept: its guard unwraps `wanted_chunk()`, which is
 None once draining has written the final chunk.
 */
module MmcsReassembly {
  import opened Bytes

  type Id = bytes

  datatype Chunk = Chunk(id: Id, size: nat, offset: Option<nat>)

  /** `content` is what a chunk id stands for, `seal` the encryption keyed by the chunk. */
  datatype Crypto = Crypto(content: Id -> bytes, seal: (Id, bytes) -> bytes) {
    function Sealed(id: Id): bytes {
      seal(id, content(id))
    }
  }

  datatype Target = Target(chunks: seq<Chunk>, current: nat, cached: map<Id, bytes>, written: bytes, finalized: nat)

  function Ids(chunks: seq<Chunk>): (s: set<Id>) {
    set i | 0 <= i < |chunks| :: chunks[i].id
  }

  function IdList(chunks: seq<Chunk>): (r: seq<Id>)
    ensures |r| == |chunks|
    ensures forall i :: 0 <= i < |chunks| ==> r[i] == chunks[i].id
  {
    seq(|chunks|, i requires 0 <= i < |chunks| => chunks[i].id)
  }

  predicate Complete(t: Target) {
    t.current == |t.chunks|
  }

  function Wanted(t: Target): Option<Id> {
    if t.current < |t.chunks| then Some(t.chunks[t.current].id) else None
  }

  /** Whether a chunk at or after `from` has this id. */
  predicate WantsMore(chunks: seq<Chunk>, from: nat, id: Id) {
    exists i :: from <= i < |chunks| && chunks[i].id == id
  }

  /** The drain loop: writes cached chunks while the wanted one is cached.  None is the panic. */
  function Drain(t: Target, id: Id, sealed: bytes): (r: Option<Target>)
    requires t.current <= |t.chunks|
    ensures r.Some? ==> r.value.chunks == t.chunks && r.value.current <= |t.chunks| && r.value.finalized == t.finalized
    decreases |t.chunks| - t.current
  {
    if Complete(t) then None
    else
      var wanted := Wanted(t).value;
      if wanted !in t.cached then Some(t)
      else
        var kept := t.cached - {wanted};
        var cached := if WantsMore(t.chunks, t.current + 1, wanted) then kept[id := sealed] else kept;
        Drain(t.(written := t.written + t.cached[wanted], cached := cached, current := t.current + 1), id, sealed)
  }

  function WriteChunk(t: Target, id: Id, sealed: bytes): (r: Option<Target>)
    requires t.current <= |t.chunks|
    ensures r.Some? ==> r.value.chunks == t.chunks && r.value.current <= |t.chunks| && r.value.finalized == t.finalized
  {
    if id !in Ids(t.chunks) then None                          // "Written chunk not found?"
    else
      var t1 :-
        if Wanted(t) == Some(id) then
          var w := t.(written := t.written + sealed, current := t.current + 1);
          if Complete(w) then Some(w) else Drain(w, id, sealed)
        else Some(t);
      Some(if WantsMore(t1.chunks, t1.current, id) then t1.(cached := t1.cached[id := sealed]) else t1)
  }

  // ----- the written bytes, whatever arrives -----

  function Concat(crypto: Crypto, chunks: seq<Chunk>): bytes {
    if chunks == [] then []
    else Concat(crypto, chunks[..|chunks| - 1]) + crypto.Sealed(chunks[|chunks| - 1].id)
  }

  /** The target holds the sealed values of its first chunks, and only true values in its cache. */
  ghost predicate Faithful(crypto: Crypto, t: Target) {
    && t.current <= |t.chunks|
    && t.written == Concat(crypto, t.chunks[..t.current])
    && forall id :: id in t.cached ==> t.cached[id] == crypto.Sealed(id)
  }

  lemma WrittenGrows(crypto: Crypto, t: Target)
    requires t.current < |t.chunks|
    requires t.written == Concat(crypto, t.chunks[..t.current])
    ensures t.written + crypto.Sealed(t.chunks[t.current].id) == Concat(crypto, t.chunks[..t.current + 1])
  {
    assert t.chunks[..t.current + 1][..t.current] == t.chunks[..t.current];
  }

  lemma {:induction false} DrainFaithful(crypto: Crypto, t: Target, id: Id)
    requires Faithful(crypto, t)
    requires Drain(t, id, crypto.Sealed(id)).Some?
    ensures Faithful(crypto, Drain(t, id, crypto.Sealed(id)).value)
    decreases |t.chunks| - t.current
  {
    var wanted := Wanted(t).value;
    if wanted in t.cached {
      WrittenGrows(crypto, t);
      var kept := t.cached - {wanted};
      var cached := if WantsMore(t.chunks, t.current + 1, wanted) then kept[id := crypto.Sealed(id)] else kept;
      DrainFaithful(crypto, t.(written := t.written + t.cached[wanted], cached := cached, current := t.current + 1), id);
    }
  }

  lemma WriteChunkFaithful(crypto: Crypto, t: Target, id: Id)
    requires Faithful(crypto, t)
    requires WriteChunk(t, id, crypto.Sealed(id)).Some?
    ensures Faithful(crypto, WriteChunk(t, id, crypto.Sealed(id)).value)
  {
    if Wanted(t) == Some(id) {
      WrittenGrows(crypto, t);
      var w := t.(written := t.written + crypto.Sealed(id), current := t.current + 1);
      if !Complete(w) {
        DrainFaithful(crypto, w, id);
      }
    }
  }

  /** A target after a run of arrivals, each with its id's content. */
  function Run(crypto: Crypto, t: Target, arrivals: seq<Id>): (r: Option<Target>)
    requires t.current <= |t.chunks|
    ensures r.Some? ==> r.value.chunks == t.chunks && r.value.current <= |t.chunks|
    decreases |arrivals|
  {
    if arrivals == [] then Some(t)
    else
      var n := |arrivals| - 1;
      var before :- Run(crypto, t, arrivals[..n]);
      WriteChunk(before, arrivals[n], crypto.Sealed(arrivals[n]))
  }

  function Fresh(chunks: seq<Chunk>): Target {
    Target(chunks, 0, map[], [], 0)
  }

  /**
   Written prefix: for any chunk list (ids may repeat), any arrival order and any
   repeated arrivals, the target's bytes are the sealed values of `chunks[..current]`.
   */
  lemma {:induction false} WrittenPrefix(crypto: Crypto, chunks: seq<Chunk>, arrivals: seq<Id>)
    requires Run(crypto, Fresh(chunks), arrivals).Some?
    ensures Faithful(crypto, Run(crypto, Fresh(chunks), arrivals).value)
    decreases |arrivals|
  {
    if arrivals == [] {
      assert chunks[..0] == [];
    } else {
      var n := |arrivals| - 1;
      WrittenPrefix(crypto, chunks, arrivals[..n]);
      WriteChunkFaithful(crypto, Run(crypto, Fresh(chunks), arrivals[..n]).value, arrivals[n]);
    }
  }

  // ----- progress, with distinct ids -----

  ghost predicate Distinct(chunks: seq<Chunk>) {
    forall i, j :: 0 <= i < j < |chunks| ==> chunks[i].id != chunks[j].id
  }

  /** The length of the longest prefix of `chunks` whose ids have all arrived. */
  function ArrivedPrefix(chunks: seq<Chunk>, arrived: set<Id>): (n: nat)
    ensures n <= |chunks|
    ensures forall i :: 0 <= i < n ==> chunks[i].id in arrived
    ensures n < |chunks| ==> chunks[n].id !in arrived
  {
    if chunks == [] || chunks[0].id !in arrived then 0 else 1 + ArrivedPrefix(chunks[1..], arrived)
  }

  /** `current` is the arrived prefix, and the cache holds exactly the arrived ids beyond it. */
  ghost predicate InStep(t: Target, arrived: set<Id>) {
    && t.current <= |t.chunks|
    && (forall i :: 0 <= i < t.current ==> t.chunks[i].id in arrived)
    && (t.current < |t.chunks| ==> t.chunks[t.current].id !in arrived)
    && CacheExact(t, arrived)
  }

  ghost predicate CacheExact(t: Target, arrived: set<Id>) {
    forall id :: id in t.cached <==> id in arrived && WantsMore(t.chunks, t.current, id)
  }

  lemma PrefixUnique(t: Target, arrived: set<Id>)
    requires InStep(t, arrived)
    ensures t.current == ArrivedPrefix(t.chunks, arrived)
  {
  }

  /** Draining reaches the first chunk that has not arrived, or panics when there is none. */
  lemma {:induction false} DrainInStep(t: Target, arrived: set<Id>, id: Id, sealed: bytes)
    requires Distinct(t.chunks)
    requires t.current <= |t.chunks|
    requires forall i :: 0 <= i < t.current ==> t.chunks[i].id in arrived
    requires CacheExact(t, arrived)
    ensures Drain(t, id, sealed).None? <==> Ids(t.chunks) <= arrived
    ensures Drain(t, id, sealed).Some? ==> InStep(Drain(t, id, sealed).value, arrived)
    decreases |t.chunks| - t.current
  {
    if Complete(t) {
      assert Ids(t.chunks) <= arrived;
    } else {
      var wanted := Wanted(t).value;
      assert t.chunks[t.current].id == wanted;
      if wanted in t.cached {
        var next := t.(written := t.written + t.cached[wanted], cached := t.cached - {wanted}, current := t.current + 1);
        assert CacheExact(next, arrived);
        DrainInStep(next, arrived, id, sealed);
      } else {
        assert wanted in Ids(t.chunks) && wanted !in arrived;
      }
    }
  }

  /** One arrival: progress is kept, or the call panics because it drains the final chunk. */
  lemma WriteChunkInStep(t: Target, arrived: set<Id>, id: Id, sealed: bytes)
    requires Distinct(t.chunks) && InStep(t, arrived)
    requires id in Ids(t.chunks)
    ensures WriteChunk(t, id, sealed).None?
       <==> (!(Ids(t.chunks) <= arrived) && Ids(t.chunks) <= arrived + {id} && id != t.chunks[|t.chunks| - 1].id)
    ensures WriteChunk(t, id, sealed).Some? ==> InStep(WriteChunk(t, id, sealed).value, arrived + {id})
  {
    var ids := Ids(t.chunks);
    if Wanted(t) == Some(id) {
      assert id !in arrived;
      assert t.chunks[t.current].id == id;
      var w := t.(written := t.written + sealed, current := t.current + 1);
      assert CacheExact(w, arrived + {id});
      if !Complete(w) {
        DrainInStep(w, arrived + {id}, id, sealed);
        assert id != t.chunks[|t.chunks| - 1].id;
      }
    } else {
      if t.current < |t.chunks| {
        assert t.chunks[t.current].id in ids && t.chunks[t.current].id !in arrived + {id};
      } else {
        assert ids <= arrived;
      }
    }
  }

  /** The arrivals so far. */
  function Arrived(arrivals: seq<Id>): set<Id> {
    set i | 0 <= i < |arrivals| :: arrivals[i]
  }

  /** If the arrival of `id` makes the target's chunks complete, it is the final chunk. */
  ghost predicate FinalLast(chunks: seq<Chunk>, arrived: set<Id>, id: Id) {
    !(Ids(chunks) <= arrived) && Ids(chunks) <= arrived + {id} ==> id == chunks[|chunks| - 1].id
  }

  /** The hypothesis a caller can check: the last chunk to arrive is the target's final chunk. */
  ghost predicate FinalArrivesLast(chunks: seq<Chunk>, arrivals: seq<Id>) {
    forall k :: 0 <= k < |arrivals| ==> FinalLast(chunks, Arrived(arrivals[..k]), arrivals[k])
  }

  lemma ArrivedStep(arrivals: seq<Id>, k: nat)
    requires k < |arrivals|
    ensures Arrived(arrivals[..k + 1]) == Arrived(arrivals[..k]) + {arrivals[k]}
  {
    var longer := arrivals[..k + 1];
    assert longer[k] == arrivals[k];
    forall id | id in Arrived(longer)
      ensures id in Arrived(arrivals[..k]) + {arrivals[k]}
    {
      var i :| 0 <= i < |longer| && longer[i] == id;
      assert i < k ==> arrivals[..k][i] == id;
    }
    forall id | id in Arrived(arrivals[..k])
      ensures id in Arrived(longer)
    {
      var i :| 0 <= i < k && arrivals[..k][i] == id;
      assert longer[i] == id;
    }
  }

  /**
   Reassembly progress, with distinct chunk ids and any arrival order: the run never
   panics if and only if the final chunk is the last to arrive; and while it does not,
   `current` is the arrived prefix and the cache holds exactly the arrived ids beyond it.
   */
  lemma {:induction false} Progress(crypto: Crypto, chunks: seq<Chunk>, arrivals: seq<Id>)
    requires Distinct(chunks)
    requires forall i :: 0 <= i < |arrivals| ==> arrivals[i] in Ids(chunks)
    ensures Run(crypto, Fresh(chunks), arrivals).Some? <==> FinalArrivesLast(chunks, arrivals)
    ensures Run(crypto, Fresh(chunks), arrivals).Some? ==>
      var t := Run(crypto, Fresh(chunks), arrivals).value;
      InStep(t, Arrived(arrivals)) && t.current == ArrivedPrefix(chunks, Arrived(arrivals))
    decreases |arrivals|
  {
    if arrivals == [] {
      assert InStep(Fresh(chunks), Arrived(arrivals));
      PrefixUnique(Fresh(chunks), Arrived(arrivals));
    } else {
      var earlier := arrivals[..|arrivals| - 1];
      Progress(crypto, chunks, earlier);
      EarlierCompletions(chunks, arrivals);
      RunStep(crypto, Fresh(chunks), arrivals);
      var before := Run(crypto, Fresh(chunks), earlier);
      if before.Some? {
        ProgressStep(before.value, earlier, arrivals, crypto.Sealed(arrivals[|earlier|]));
      }
    }
  }

  lemma RunStep(crypto: Crypto, t: Target, arrivals: seq<Id>)
    requires t.current <= |t.chunks| && arrivals != []
    ensures var n := |arrivals| - 1;
      var before := Run(crypto, t, arrivals[..n]);
      Run(crypto, t, arrivals)
      == if before.None? then None else WriteChunk(before.value, arrivals[n], crypto.Sealed(arrivals[n]))
  {
  }

  lemma ProgressStep(t: Target, earlier: seq<Id>, arrivals: seq<Id>, sealed: bytes)
    requires Distinct(t.chunks) && InStep(t, Arrived(earlier))
    requires arrivals != [] && earlier == arrivals[..|arrivals| - 1]
    requires arrivals[|earlier|] in Ids(t.chunks)
    ensures var r := WriteChunk(t, arrivals[|earlier|], sealed);
      && (r.Some? <==> FinalLast(t.chunks, Arrived(earlier), arrivals[|earlier|]))
      && (r.Some? ==> InStep(r.value, Arrived(arrivals)) && r.value.current == ArrivedPrefix(t.chunks, Arrived(arrivals)))
  {
    var id := arrivals[|earlier|];
    ArrivedStep(arrivals, |earlier|);
    assert arrivals[..|earlier| + 1] == arrivals;
    WriteChunkInStep(t, Arrived(earlier), id, sealed);
    var r := WriteChunk(t, id, sealed);
    if r.Some? {
      PrefixUnique(r.value, Arrived(arrivals));
    }
  }

  lemma EarlierCompletions(chunks: seq<Chunk>, arrivals: seq<Id>)
    requires arrivals != []
    ensures var n := |arrivals| - 1;
      FinalArrivesLast(chunks, arrivals)
      <==> FinalArrivesLast(chunks, arrivals[..n]) && FinalLast(chunks, Arrived(arrivals[..n]), arrivals[n])
  {
    var n := |arrivals| - 1;
    var earlier := arrivals[..n];
    forall k | 0 <= k < n
      ensures earlier[..k] == arrivals[..k] && earlier[k] == arrivals[k]
    {
    }
  }

  /**
   Distinct ids are needed: when a drained id is wanted again, the loop puts the arriving
   chunk back into the cache instead.  Here w is drained once, wanted again, has arrived,
   and is in the cache no more.
   */
  lemma RepeatedIdIsLost(crypto: Crypto, x: Id, w: Id, y: Id)
    requires x != w && w != y && x != y
    ensures var chunks := [Chunk(x, 0, None), Chunk(w, 0, None), Chunk(y, 0, None), Chunk(w, 0, None)];
      var t := WriteChunk(Fresh(chunks), w, crypto.Sealed(w));
      && t.Some?
      && var u := WriteChunk(t.value, x, crypto.Sealed(x));
      && u.Some? && u.value.current == 2 && w !in u.value.cached && WantsMore(chunks, 2, w)
  {
    var chunks := [Chunk(x, 0, None), Chunk(w, 0, None), Chunk(y, 0, None), Chunk(w, 0, None)];
    assert chunks[0].id == x && chunks[1].id == w && chunks[2].id == y && chunks[3].id == w;
    assert WantsMore(chunks, 0, w) && WantsMore(chunks, 2, w) && !WantsMore(chunks, 2, x);
    assert x in Ids(chunks) && w in Ids(chunks);
    var t := Fresh(chunks).(cached := map[w := crypto.Sealed(w)]);
    assert WriteChunk(Fresh(chunks), w, crypto.Sealed(w)) == Some(t);
    var t1 := t.(written := crypto.Sealed(x), current := 1);
    var t2 := t1.(written := t1.written + crypto.Sealed(w), current := 2, cached := map[x := crypto.Sealed(x)]);
    assert t.written + crypto.Sealed(x) == crypto.Sealed(x);
    assert (t1.cached - {w})[x := crypto.Sealed(x)] == t2.cached;
    assert Drain(t2, x, crypto.Sealed(x)) == Some(t2);
    assert Drain(t1, x, crypto.Sealed(x)) == Some(t2);
  }

  // ----- the container as it runs -----

  class ChunkedContainer {
    const chunks: seq<Chunk>
    const seal: (Id, bytes) -> bytes
    var currentChunk: nat
    var cachedChunks: map<Id, bytes>
    var container: bytes
    var finalized: nat

    constructor (chunks: seq<Chunk>, seal: (Id, bytes) -> bytes)
      ensures Value() == Fresh(chunks) && this.seal == seal
    {
      this.chunks, this.seal := chunks, seal;
      currentChunk, cachedChunks, container, finalized := 0, map[], [], 0;
    }

    ghost function Value(): Target
      reads this
    {
      Target(chunks, currentChunk, cachedChunks, container, finalized)
    }

    /** `ok` is false where the Rust code panics. */
    method Write(id: Id, value: bytes) returns (ok: bool)
      requires currentChunk <= |chunks|
      modifies this
      ensures ok == WriteChunk(old(Value()), id, seal(id, value)).Some?
      ensures ok ==> Value() == WriteChunk(old(Value()), id, seal(id, value)).value
    {
      if id !in Ids(chunks) {
        return false;
      }
      var sealed := seal(id, value);
      if currentChunk < |chunks| && chunks[currentChunk].id == id {
        container := container + sealed;
        currentChunk := currentChunk + 1;
        if currentChunk < |chunks| {
          ok := CatchUp(id, sealed);
          if !ok {
            return;
          }
        }
      }
      var wantsMore := exists i :: currentChunk <= i < |chunks| && chunks[i].id == id;
      if wantsMore {
        cachedChunks := cachedChunks[id := sealed];
      }
      ok := true;
    }

    /** The drain loop. */
    method CatchUp(id: Id, sealed: bytes) returns (ok: bool)
      requires currentChunk <= |chunks|
      modifies this
      ensures ok == Drain(old(Value()), id, sealed).Some?
      ensures ok ==> Value() == Drain(old(Value()), id, sealed).value
    {
      while true
        invariant currentChunk <= |chunks|
        invariant Drain(Value(), id, sealed) == Drain(old(Value()), id, sealed)
        decreases |chunks| - currentChunk
      {
        if currentChunk == |chunks| {
          return false;
        }
        var wanted := chunks[currentChunk].id;
        if wanted !in cachedChunks {
          return true;
        }
        container := container + cachedChunks[wanted];
        cachedChunks := cachedChunks - {wanted};
        currentChunk := currentChunk + 1;
        var wantsMore := exists i :: currentChunk <= i < |chunks| && chunks[i].id == wanted;
        if wantsMore {
          cachedChunks := cachedChunks[id := sealed];
        }
      }
    }
  }
}
