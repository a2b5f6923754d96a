/**
 `MMCSMatcher` (src/icloud/mmcs.rs): chunks stream from many sources to every target
 that lists them.  A source is read from its first chunk to its last before another is
 chosen; each target reassembles its own order and is finalised when it completes.
 */
module MmcsMatcher {
  import opened Bytes
  import opened MmcsReassembly

  // ----- sources -----

  /** A `ChunkedContainer` being read; `stream` is what its container has not delivered yet. */
  datatype Source = Source(chunks: seq<Chunk>, current: nat, offset: nat, stream: bytes, finalized: nat)

  predicate Exhausted(s: Source) {
    s.current >= |s.chunks|
  }

  function Take(n: nat, s: bytes): bytes {
    if n <= |s| then s[..n] else s
  }

  function Skip(n: nat, s: bytes): bytes {
    if n <= |s| then s[n..] else []
  }

  /** Where the next chunk starts: at its offset, or right where the reader is. */
  function Start(c: Chunk, pos: nat): nat {
    match c.offset
    case Some(o) => o
    case None => pos
  }

  /** `read_next` before decryption; None when an offset lies behind the reader (usize underflow). */
  function ReadNext(s: Source): Option<(Id, bytes, Source)>
    requires !Exhausted(s)
  {
    var c := s.chunks[s.current];
    var start := Start(c, s.offset);
    if start < s.offset then None
    else
      var stream := Skip(start - s.offset, s.stream);
      var data := Take(c.size, stream);
      Some((c.id, data, s.(current := s.current + 1, offset := start + |data|, stream := Skip(c.size, stream))))
  }

  /**
   The chunks lie in the stream in order, possibly with gaps between them, and each
   decrypts to the content its id stands for.
   */
  ghost predicate LaidOut(crypto: Crypto, open: (Id, bytes) -> bytes, chunks: seq<Chunk>, pos: nat, stream: bytes)
    decreases chunks
  {
    chunks != [] ==>
      var c := chunks[0];
      var start := Start(c, pos);
      && pos <= start
      && start - pos + c.size <= |stream|
      && open(c.id, stream[start - pos..][..c.size]) == crypto.content(c.id)
      && LaidOut(crypto, open, chunks[1..], start + c.size, stream[start - pos + c.size..])
  }

  /** Gaps are skipped: every read returns the chunk at its own offset. */
  lemma ReadNextLaidOut(crypto: Crypto, open: (Id, bytes) -> bytes, s: Source)
    requires !Exhausted(s)
    requires LaidOut(crypto, open, s.chunks[s.current..], s.offset, s.stream)
    ensures ReadNext(s).Some?
    ensures var (id, data, next) := ReadNext(s).value;
      && id == s.chunks[s.current].id
      && open(id, data) == crypto.content(id)
      && next.current == s.current + 1
      && LaidOut(crypto, open, next.chunks[next.current..], next.offset, next.stream)
  {
    var rest := s.chunks[s.current..];
    assert rest[0] == s.chunks[s.current];
    assert rest[1..] == s.chunks[s.current + 1..];
    var gap := Start(rest[0], s.offset) - s.offset;
    assert Skip(rest[0].size, Skip(gap, s.stream)) == s.stream[gap + rest[0].size..];
  }

  // ----- targets -----

  /** One chunk offered to one target; a target that completes is finalised. */
  function Deliver(seal: (Id, bytes) -> bytes, t: Target, id: Id, value: bytes): (r: Option<Target>)
    requires t.current <= |t.chunks|
    ensures r.Some? ==> r.value.chunks == t.chunks && r.value.current <= |t.chunks|
  {
    if id !in Ids(t.chunks) then Some(t)
    else
      var w :- WriteChunk(t, id, seal(id, value));
      Some(if Complete(w) then w.(finalized := w.finalized + 1) else w)
  }

  /** Reassembly is in step and faithful, and the target has been finalised once if it is whole. */
  ghost predicate Delivered(crypto: Crypto, t: Target, arrived: set<Id>) {
    && Distinct(t.chunks)
    && InStep(t, arrived)
    && Faithful(crypto, t)
    && t.finalized == if t.chunks != [] && Ids(t.chunks) <= arrived then 1 else 0
  }

  lemma CompleteIffArrived(t: Target, arrived: set<Id>)
    requires InStep(t, arrived)
    ensures Complete(t) <==> Ids(t.chunks) <= arrived
  {
    if t.current < |t.chunks| {
      assert t.chunks[t.current].id in Ids(t.chunks);
    }
  }

  lemma ForeignArrival(t: Target, arrived: set<Id>, id: Id)
    requires InStep(t, arrived) && id !in Ids(t.chunks)
    ensures InStep(t, arrived + {id})
    ensures Ids(t.chunks) <= arrived + {id} <==> Ids(t.chunks) <= arrived
  {
    forall x
      ensures WantsMore(t.chunks, t.current, x) ==> x in Ids(t.chunks)
    {
    }
    if t.current < |t.chunks| {
      assert t.chunks[t.current].id in Ids(t.chunks);
    }
  }

  /** A first arrival of `id` is delivered, or panics exactly when it drains the final chunk. */
  lemma DeliverStep(crypto: Crypto, t: Target, arrived: set<Id>, id: Id)
    requires Delivered(crypto, t, arrived) && id !in arrived
    ensures var r := Deliver(crypto.seal, t, id, crypto.content(id));
      && (r.Some? <==> FinalLast(t.chunks, arrived, id))
      && (r.Some? ==> Delivered(crypto, r.value, arrived + {id}))
  {
    if id !in Ids(t.chunks) {
      ForeignArrival(t, arrived, id);
    } else {
      var sealed := crypto.Sealed(id);
      WriteChunkInStep(t, arrived, id, sealed);
      assert !(Ids(t.chunks) <= arrived);
      var w := WriteChunk(t, id, sealed);
      if w.Some? {
        WriteChunkFaithful(crypto, t, id);
        CompleteIffArrived(w.value, arrived + {id});
        Finalized(crypto, w.value, arrived + {id});
      }
    }
  }

  lemma Finalized(crypto: Crypto, w: Target, arrived: set<Id>)
    requires InStep(w, arrived) && Faithful(crypto, w)
    ensures InStep(w.(finalized := w.finalized + 1), arrived)
    ensures Faithful(crypto, w.(finalized := w.finalized + 1))
  {
  }

  /** A target whose chunks have all been delivered is whole, in its own order, and finalised once. */
  lemma DeliveredWhole(crypto: Crypto, t: Target, arrived: set<Id>)
    requires Delivered(crypto, t, arrived) && Ids(t.chunks) <= arrived
    ensures t.written == Concat(crypto, t.chunks)
    ensures t.finalized == if t.chunks != [] then 1 else 0
  {
    CompleteIffArrived(t, arrived);
    assert t.chunks[..|t.chunks|] == t.chunks;
  }

  // ----- choosing a source -----

  /** How many targets want this chunk next. */
  function Wanting(targets: seq<Target>, id: Id): nat {
    if targets == [] then 0
    else Wanting(targets[..|targets| - 1], id) + if Wanted(targets[|targets| - 1]) == Some(id) then 1 else 0
  }

  method CountWanting(targets: seq<Target>, id: Id) returns (n: nat)
    ensures n == Wanting(targets, id)
  {
    n := 0;
    for k := 0 to |targets|
      invariant n == Wanting(targets[..k], id)
    {
      assert targets[..k + 1][..k] == targets[..k];
      if Wanted(targets[k]) == Some(id) {
        n := n + 1;
      }
    }
    assert targets[..|targets|] == targets;
  }

  /** `max_by_key` over the sources not yet read: the last of the best, or none when all are read. */
  method BestSource(targets: seq<Target>, sources: seq<Source>) returns (best: Option<nat>)
    ensures best.None? ==> forall j :: 0 <= j < |sources| ==> Exhausted(sources[j])
    ensures best.Some? ==> best.value < |sources| && !Exhausted(sources[best.value])
    ensures best.Some? ==> forall j :: 0 <= j < |sources| && !Exhausted(sources[j]) ==>
      var mine, its := Wanting(targets, sources[best.value].chunks[0].id), Wanting(targets, sources[j].chunks[0].id);
      its < mine || (its == mine && j <= best.value)
  {
    best := None;
    var most := 0;
    for k := 0 to |sources|
      invariant best.None? ==> forall j :: 0 <= j < k ==> Exhausted(sources[j])
      invariant best.Some? ==> best.value < k && !Exhausted(sources[best.value])
      invariant best.Some? ==> most == Wanting(targets, sources[best.value].chunks[0].id)
      invariant best.Some? ==> forall j :: 0 <= j < k && !Exhausted(sources[j]) ==>
        var its := Wanting(targets, sources[j].chunks[0].id);
        its < most || (its == most && j <= best.value)
    {
      if !Exhausted(sources[k]) {
        var n := CountWanting(targets, sources[k].chunks[0].id);
        if best.None? || n >= most {
          best, most := Some(k), n;
        }
      }
    }
  }

  // ----- the transfer -----

  /** The ids of the sources in the order they are read. */
  function IdsInOrder(sources: seq<Source>, order: seq<nat>): seq<Id>
    requires forall k :: 0 <= k < |order| ==> order[k] < |sources|
  {
    if order == [] then []
    else IdsInOrder(sources, order[..|order| - 1]) + IdList(sources[order[|order| - 1]].chunks)
  }

  /** No id occurs twice, within a source or across sources. */
  ghost predicate DistinctSources(sources: seq<Source>) {
    && (forall i :: 0 <= i < |sources| ==> Distinct(sources[i].chunks))
    && forall i, j, a, b :: 0 <= i < j < |sources| && 0 <= a < |sources[i].chunks| && 0 <= b < |sources[j].chunks|
         ==> sources[i].chunks[a].id != sources[j].chunks[b].id
  }

  ghost predicate AllDelivered(crypto: Crypto, targets: seq<Target>, arrived: set<Id>) {
    forall k :: 0 <= k < |targets| ==> Delivered(crypto, targets[k], arrived)
  }

  ghost predicate AllFinalLast(targets: seq<Target>, arrivals: seq<Id>) {
    forall k :: 0 <= k < |targets| ==> FinalArrivesLast(targets[k].chunks, arrivals)
  }

  /** Every target has received exactly `arrivals`, and none has panicked. */
  ghost predicate Streaming(crypto: Crypto, targets: seq<Target>, arrivals: seq<Id>) {
    AllDelivered(crypto, targets, Arrived(arrivals)) && AllFinalLast(targets, arrivals)
  }

  ghost predicate SameChunks(a: seq<Target>, b: seq<Target>) {
    |a| == |b| && forall k :: 0 <= k < |a| ==> a[k].chunks == b[k].chunks
  }

  /** What a later arrival adds to the final-chunk condition. */
  lemma FinalLastStep(chunks: seq<Chunk>, arrivals: seq<Id>, id: Id)
    ensures FinalArrivesLast(chunks, arrivals + [id])
       <==> FinalArrivesLast(chunks, arrivals) && FinalLast(chunks, Arrived(arrivals), id)
  {
    EarlierCompletions(chunks, arrivals + [id]);
    assert (arrivals + [id])[..|arrivals|] == arrivals;
  }

  lemma ArrivedAppend(arrivals: seq<Id>, id: Id)
    ensures Arrived(arrivals + [id]) == Arrived(arrivals) + {id}
  {
    var all := arrivals + [id];
    ArrivedStep(all, |arrivals|);
    assert all[..|arrivals|] == arrivals && all[..|arrivals| + 1] == all;
  }

  /** Offers one chunk to every target in turn; `ok` is false where a target panics. */
  method DeliverAll(ghost crypto: Crypto, seal: (Id, bytes) -> bytes, before: seq<Target>, id: Id, value: bytes,
                    ghost arrivals: seq<Id>) returns (ok: bool, targets: seq<Target>)
    requires seal == crypto.seal && value == crypto.content(id)
    requires Streaming(crypto, before, arrivals) && id !in Arrived(arrivals)
    ensures SameChunks(before, targets)
    ensures ok ==> Streaming(crypto, targets, arrivals + [id])
    ensures ok <==> AllFinalLast(before, arrivals + [id])
  {
    targets := before;
    ghost var arrived := Arrived(arrivals);
    AllFinalLastStep(before, arrivals, id);
    for k := 0 to |before|
      invariant SameChunks(before, targets)
      invariant forall j :: 0 <= j < k ==> Delivered(crypto, targets[j], arrived + {id})
      invariant forall j :: 0 <= j < k ==> FinalLast(before[j].chunks, arrived, id)
      invariant targets[k..] == before[k..]
    {
      assert targets[k] == targets[k..][0] == before[k];
      DeliverStep(crypto, before[k], arrived, id);
      var r := Deliver(seal, targets[k], id, value);
      if r.None? {
        return false, targets;
      }
      ghost var after := before[k + 1..];
      assert targets[k + 1..] == targets[k..][1..];
      targets := targets[k := r.value];
      assert targets[k + 1..] == after;
    }
    ok := true;
    ArrivedAppend(arrivals, id);
    SameFinalLast(before, targets, arrivals + [id]);
  }

  lemma ArrivedConcat(a: seq<Id>, b: seq<Id>, id: Id)
    ensures id in Arrived(a + b) <==> id in Arrived(a) || id in Arrived(b)
  {
    var all := a + b;
    if id in Arrived(a) {
      var i :| 0 <= i < |a| && a[i] == id;
      assert all[i] == id;
    }
    if id in Arrived(b) {
      var i :| 0 <= i < |b| && b[i] == id;
      assert all[|a| + i] == id;
    }
  }

  ghost predicate InRange(order: seq<nat>, n: nat) {
    forall k :: 0 <= k < |order| ==> order[k] < n
  }

  lemma {:induction false} IdsInOrderArrived(sources: seq<Source>, order: seq<nat>, id: Id)
    requires InRange(order, |sources|)
    ensures id in Arrived(IdsInOrder(sources, order))
       <==> exists k :: 0 <= k < |order| && id in Arrived(IdList(sources[order[k]].chunks))
  {
    if order != [] {
      var n := |order| - 1;
      IdsInOrderArrived(sources, order[..n], id);
      ArrivedConcat(IdsInOrder(sources, order[..n]), IdList(sources[order[n]].chunks), id);
    }
  }

  /** The sources read so far are read to the end and finalised; the others are untouched. */
  ghost predicate ReadInOrder(before: seq<Source>, after: seq<Source>, order: seq<nat>) {
    && |after| == |before|
    && InRange(order, |before|)
    && NoRepeats(order)
    && (forall i :: 0 <= i < |before| && i !in order ==> after[i] == before[i])
    && (forall i :: 0 <= i < |before| && i in order ==>
          before[i].chunks != [] && after[i].chunks == before[i].chunks && Exhausted(after[i]) && after[i].finalized == 1)
  }

  ghost predicate Ready(crypto: Crypto, open: (Id, bytes) -> bytes, s: Source) {
    s.current == 0 && s.offset == 0 && s.finalized == 0 && LaidOut(crypto, open, s.chunks, 0, s.stream)
  }

  // ----- the order of reading, which the chunk lists alone decide -----

  /** The chunk a target waits for once `arrived` have arrived. */
  function NextWanted(chunks: seq<Chunk>, arrived: set<Id>): Option<Id> {
    var n := ArrivedPrefix(chunks, arrived);
    if n < |chunks| then Some(chunks[n].id) else None
  }

  function Waiting(targets: seq<Target>, arrived: set<Id>, id: Id): nat {
    if targets == [] then 0
    else
      var n := |targets| - 1;
      Waiting(targets[..n], arrived, id) + if NextWanted(targets[n].chunks, arrived) == Some(id) then 1 else 0
  }

  predicate Readable(sources: seq<Source>, order: seq<nat>, i: nat) {
    i < |sources| && sources[i].chunks != [] && i !in order
  }

  /** `b` is the last of the sources left to read that most targets wait for. */
  ghost predicate IsNext(sources: seq<Source>, targets: seq<Target>, order: seq<nat>, arrived: set<Id>, b: nat) {
    && Readable(sources, order, b)
    && forall j: nat {:trigger Readable(sources, order, j)} :: Readable(sources, order, j) ==>
         var mine := Waiting(targets, arrived, sources[b].chunks[0].id);
         var its := Waiting(targets, arrived, sources[j].chunks[0].id);
         its < mine || (its == mine && j <= b)
  }

  /** The next source among the first `k`. */
  function NextAmong(sources: seq<Source>, targets: seq<Target>, order: seq<nat>, arrived: set<Id>, k: nat): (r: Option<nat>)
    requires k <= |sources|
    ensures r.Some? ==> r.value < k && Readable(sources, order, r.value)
    ensures r.Some? ==> forall j: nat {:trigger Readable(sources, order, j)} :: j < k && Readable(sources, order, j) ==>
      var mine := Waiting(targets, arrived, sources[r.value].chunks[0].id);
      var its := Waiting(targets, arrived, sources[j].chunks[0].id);
      its < mine || (its == mine && j <= r.value)
    ensures r.None? ==> forall j: nat {:trigger Readable(sources, order, j)} :: j < k ==> !Readable(sources, order, j)
  {
    if k == 0 then None
    else
      var best := NextAmong(sources, targets, order, arrived, k - 1);
      if !Readable(sources, order, k - 1) then best
      else if best.Some? && Waiting(targets, arrived, sources[k - 1].chunks[0].id)
                            < Waiting(targets, arrived, sources[best.value].chunks[0].id) then best
      else Some(k - 1)
  }

  /** The sources left to read. */
  function Left(n: nat, order: seq<nat>): set<nat> {
    set i: nat | i < n && i !in order
  }

  /** The order in which all sources are read, once those of `order` have been. */
  function OrderFrom(sources: seq<Source>, targets: seq<Target>, order: seq<nat>): (r: seq<nat>)
    requires InRange(order, |sources|)
    ensures InRange(r, |sources|) && order <= r
    decreases |Left(|sources|, order)|
  {
    var next := NextAmong(sources, targets, order, Arrived(IdsInOrder(sources, order)), |sources|);
    match next
    case None => order
    case Some(b) =>
      FewerLeft(|sources|, order, b);
      OrderFrom(sources, targets, order + [b])
  }

  lemma FewerLeft(n: nat, order: seq<nat>, b: nat)
    requires b < n && b !in order
    ensures |Left(n, order + [b])| < |Left(n, order)|
  {
    assert b in Left(n, order) && Left(n, order + [b]) == Left(n, order) - {b};
  }

  function ReadOrder(sources: seq<Source>, targets: seq<Target>): (r: seq<nat>)
    ensures InRange(r, |sources|)
  {
    OrderFrom(sources, targets, [])
  }

  /** The chunks of all sources in the order they arrive. */
  function Arrivals(sources: seq<Source>, targets: seq<Target>): seq<Id> {
    IdsInOrder(sources, ReadOrder(sources, targets))
  }

  lemma NextIsUnique(sources: seq<Source>, targets: seq<Target>, order: seq<nat>, arrived: set<Id>, b: nat)
    requires IsNext(sources, targets, order, arrived, b)
    ensures NextAmong(sources, targets, order, arrived, |sources|) == Some(b)
  {
    var next := NextAmong(sources, targets, order, arrived, |sources|);
    assert Readable(sources, order, b);
    assert Readable(sources, order, next.value);
  }

  lemma OrderStep(sources: seq<Source>, targets: seq<Target>, order: seq<nat>, b: nat)
    requires InRange(order, |sources|) && InRange(order + [b], |sources|)
    requires IsNext(sources, targets, order, Arrived(IdsInOrder(sources, order)), b)
    ensures OrderFrom(sources, targets, order) == OrderFrom(sources, targets, order + [b])
  {
    NextIsUnique(sources, targets, order, Arrived(IdsInOrder(sources, order)), b);
  }

  lemma OrderEnds(sources: seq<Source>, targets: seq<Target>, order: seq<nat>)
    requires InRange(order, |sources|)
    requires forall j: nat {:trigger Readable(sources, order, j)} :: !Readable(sources, order, j)
    ensures OrderFrom(sources, targets, order) == order
  {
  }

  ghost predicate NoRepeats(order: seq<nat>) {
    forall j, k :: 0 <= j < k < |order| ==> order[j] != order[k]
  }

  lemma {:induction false} OrderHasNoRepeats(sources: seq<Source>, targets: seq<Target>, order: seq<nat>)
    requires InRange(order, |sources|) && NoRepeats(order)
    ensures NoRepeats(OrderFrom(sources, targets, order))
    decreases |Left(|sources|, order)|
  {
    var next := NextAmong(sources, targets, order, Arrived(IdsInOrder(sources, order)), |sources|);
    if next.Some? {
      FewerLeft(|sources|, order, next.value);
      OrderHasNoRepeats(sources, targets, order + [next.value]);
      assert OrderFrom(sources, targets, order) == OrderFrom(sources, targets, order + [next.value]);
    } else {
      assert OrderFrom(sources, targets, order) == order;
    }
  }

  /** What was read first arrived first. */
  lemma {:induction false} IdsOfPrefix(sources: seq<Source>, order: seq<nat>, longer: seq<nat>)
    requires InRange(longer, |sources|) && order <= longer
    ensures IdsInOrder(sources, order) <= IdsInOrder(sources, longer)
    decreases |longer|
  {
    if order != longer {
      IdsOfPrefix(sources, order, longer[..|longer| - 1]);
    } else {
      assert order == longer;
    }
  }

  /** A panic stays one, whatever would arrive after it. */
  lemma PanicStays(targets: seq<Target>, arrivals: seq<Id>, longer: seq<Id>)
    requires arrivals <= longer && AllFinalLast(targets, longer)
    ensures AllFinalLast(targets, arrivals)
  {
    forall k, m | 0 <= k < |targets| && 0 <= m < |arrivals|
      ensures FinalLast(targets[k].chunks, Arrived(arrivals[..m]), arrivals[m])
    {
      assert arrivals[..m] == longer[..m] && arrivals[m] == longer[m];
    }
  }

  /** While every target is in step with what has arrived, it wants what the lists say. */
  lemma {:induction false} WantingIsWaiting(crypto: Crypto, start: seq<Target>, targets: seq<Target>, arrived: set<Id>, id: Id)
    requires SameChunks(start, targets) && AllDelivered(crypto, targets, arrived)
    ensures Wanting(targets, id) == Waiting(start, arrived, id)
    decreases |targets|
  {
    if targets != [] {
      var n := |targets| - 1;
      WantingIsWaiting(crypto, start[..n], targets[..n], arrived, id);
      PrefixUnique(targets[n], arrived);
    }
  }

  /** The source chosen is the next one in the order of reading. */
  lemma ChosenIsNext(crypto: Crypto, before: seq<Source>, sources: seq<Source>, start: seq<Target>, targets: seq<Target>,
                     order: seq<nat>, b: nat)
    requires ReadInOrder(before, sources, order) && InRange(order + [b], |before|)
    requires forall i :: 0 <= i < |before| ==> before[i].current == 0
    requires SameChunks(start, targets) && AllDelivered(crypto, targets, Arrived(IdsInOrder(before, order)))
    requires b < |sources| && !Exhausted(sources[b])
    requires forall j :: 0 <= j < |sources| && !Exhausted(sources[j]) ==>
      var mine, its := Wanting(targets, sources[b].chunks[0].id), Wanting(targets, sources[j].chunks[0].id);
      its < mine || (its == mine && j <= b)
    ensures IsNext(before, start, order, Arrived(IdsInOrder(before, order)), b)
  {
    var arrived := Arrived(IdsInOrder(before, order));
    WantingIsWaiting(crypto, start, targets, arrived, before[b].chunks[0].id);
    forall j: nat {:trigger Readable(before, order, j)} | Readable(before, order, j)
      ensures var mine := Waiting(start, arrived, before[b].chunks[0].id);
        var its := Waiting(start, arrived, before[j].chunks[0].id);
        its < mine || (its == mine && j <= b)
    {
      assert !Exhausted(sources[j]);
      WantingIsWaiting(crypto, start, targets, arrived, before[j].chunks[0].id);
    }
  }

  // ----- transfers that cannot panic -----

  /** A chunk of another source completes no target. */
  lemma {:induction false} ForeignSource(chunks: seq<Chunk>, arrivals: seq<Id>, ids: seq<Id>)
    requires FinalArrivesLast(chunks, arrivals)
    requires forall a :: 0 <= a < |ids| ==> ids[a] !in Ids(chunks)
    ensures FinalArrivesLast(chunks, arrivals + ids)
    decreases |ids|
  {
    if ids == [] {
      assert arrivals + ids == arrivals;
    } else {
      var n := |ids| - 1;
      ForeignSource(chunks, arrivals, ids[..n]);
      assert arrivals + ids == arrivals + ids[..n] + [ids[n]];
      FinalLastStep(chunks, arrivals + ids[..n], ids[n]);
    }
  }

  /** The target's own chunks in its own order: the final chunk comes last. */
  lemma {:induction false} OwnSource(chunks: seq<Chunk>, arrivals: seq<Id>, n: nat)
    requires Distinct(chunks) && n <= |chunks|
    requires FinalArrivesLast(chunks, arrivals)
    requires forall a :: 0 <= a < |chunks| ==> chunks[a].id !in Arrived(arrivals)
    ensures FinalArrivesLast(chunks, arrivals + IdList(chunks[..n]))
    decreases n
  {
    if n == 0 {
      assert arrivals + IdList(chunks[..n]) == arrivals;
    } else {
      OwnSource(chunks, arrivals, n - 1);
      NewArrival(chunks, n - 1, arrivals);
      FinalLastStep(chunks, arrivals + IdList(chunks[..n - 1]), chunks[n - 1].id);
      if n < |chunks| {
        LastIsAhead(chunks, arrivals, n);
      }
    }
  }

  lemma LastIsAhead(chunks: seq<Chunk>, arrivals: seq<Id>, n: nat)
    requires Distinct(chunks) && 0 < n < |chunks|
    requires forall a :: 0 <= a < |chunks| ==> chunks[a].id !in Arrived(arrivals)
    ensures !(Ids(chunks) <= Arrived(arrivals + IdList(chunks[..n - 1])) + {chunks[n - 1].id})
  {
    var last := chunks[|chunks| - 1].id;
    ArrivedConcat(arrivals, IdList(chunks[..n - 1]), last);
    assert last in Ids(chunks);
  }

  lemma {:induction false} CopyTransfers(sources: seq<Source>, order: seq<nat>, i: nat)
    requires DistinctSources(sources) && InRange(order, |sources|) && i < |sources|
    requires NoRepeats(order)
    ensures FinalArrivesLast(sources[i].chunks, IdsInOrder(sources, order))
    decreases |order|
  {
    if order != [] {
      var chunks := sources[i].chunks;
      var n := |order| - 1;
      var earlier := IdsInOrder(sources, order[..n]);
      CopyTransfers(sources, order[..n], i);
      if order[n] == i {
        SourceIsNew(sources, order[..n], i);
        OwnSource(chunks, earlier, |chunks|);
        assert chunks[..|chunks|] == chunks;
      } else {
        var ids := IdList(sources[order[n]].chunks);
        forall a | 0 <= a < |ids|
          ensures ids[a] !in Ids(chunks)
        {
          OtherSource(sources, i, order[n], a);
          IdsAreListed(chunks, ids[a]);
        }
        ForeignSource(chunks, earlier, ids);
      }
    }
  }

  lemma IdsAreListed(chunks: seq<Chunk>, id: Id)
    ensures id in Ids(chunks) <==> id in Arrived(IdList(chunks))
  {
    var ids := IdList(chunks);
    if id in Ids(chunks) {
      var i :| 0 <= i < |chunks| && chunks[i].id == id;
      assert ids[i] == id;
    }
    if id in Arrived(ids) {
      var i :| 0 <= i < |ids| && ids[i] == id;
      assert chunks[i].id == id;
    }
  }

  /** The usual case, every target a copy of some source: no target panics, however many there are of both. */
  lemma CopiesTransfer(sources: seq<Source>, targets: seq<Target>)
    requires DistinctSources(sources)
    requires forall k :: 0 <= k < |targets| ==> exists i :: 0 <= i < |sources| && sources[i].chunks == targets[k].chunks
    ensures AllFinalLast(targets, Arrivals(sources, targets))
  {
    OrderHasNoRepeats(sources, targets, []);
    forall k | 0 <= k < |targets|
      ensures FinalArrivesLast(targets[k].chunks, Arrivals(sources, targets))
    {
      var i :| 0 <= i < |sources| && sources[i].chunks == targets[k].chunks;
      CopyTransfers(sources, ReadOrder(sources, targets), i);
    }
  }

  /** A source on its way from `before`: what it has still to deliver lies ahead of it. */
  ghost predicate Reading(crypto: Crypto, open: (Id, bytes) -> bytes, before: Source, s: Source) {
    && s.chunks == before.chunks && s.current <= |s.chunks|
    && s.finalized == (if Exhausted(s) then 1 else 0)
    && LaidOut(crypto, open, s.chunks[s.current..], s.offset, s.stream)
  }

  lemma ReadingStep(crypto: Crypto, open: (Id, bytes) -> bytes, before: Source, s: Source)
    requires Reading(crypto, open, before, s) && !Exhausted(s)
    ensures ReadNext(s).Some?
    ensures var (id, data, next) := ReadNext(s).value;
      && id == s.chunks[s.current].id && open(id, data) == crypto.content(id) && next.current == s.current + 1
      && Reading(crypto, open, before, if Exhausted(next) then next.(finalized := next.finalized + 1) else next)
  {
    ReadNextLaidOut(crypto, open, s);
  }

  /** Some chunks of the source `best` have been read and delivered. */
  ghost predicate Partway(crypto: Crypto, open: (Id, bytes) -> bytes, was: seq<Source>, start: seq<Target>,
                          sources: seq<Source>, targets: seq<Target>, best: nat, earlier: seq<Id>, arrivals: seq<Id>) {
    && best < |was| == |sources| && sources == was[best := sources[best]]
    && Reading(crypto, open, was[best], sources[best])
    && arrivals == earlier + IdList(was[best].chunks[..sources[best].current])
    && SameChunks(start, targets) && Streaming(crypto, targets, arrivals)
  }

  lemma NextPart(crypto: Crypto, open: (Id, bytes) -> bytes, was: seq<Source>, start: seq<Target>,
                 sources: seq<Source>, targets: seq<Target>, sources': seq<Source>, targets': seq<Target>,
                 best: nat, earlier: seq<Id>, came: seq<Id>, arrivals: seq<Id>)
    requires Partway(crypto, open, was, start, sources, targets, best, earlier, came)
    requires |sources'| == |sources| && sources' == sources[best := sources'[best]]
    requires sources[best].current < |was[best].chunks| && sources'[best].current == sources[best].current + 1
    requires Reading(crypto, open, was[best], sources'[best])
    requires arrivals == earlier + IdList(was[best].chunks[..sources[best].current + 1])
    requires SameChunks(targets, targets') && Streaming(crypto, targets', arrivals)
    ensures Partway(crypto, open, was, start, sources', targets', best, earlier, arrivals)
  {
  }

  /** `arrivals` leads from `earlier` towards `all` and ends with the first chunk a target panics at. */
  ghost predicate FirstPanic(targets: seq<Target>, earlier: seq<Id>, all: seq<Id>, arrivals: seq<Id>) {
    && earlier < arrivals <= all
    && AllFinalLast(targets, arrivals[..|arrivals| - 1])
    && !AllFinalLast(targets, arrivals)
  }

  lemma PrefixOfAll(chunks: seq<Chunk>, k: nat, earlier: seq<Id>)
    requires k < |chunks|
    ensures earlier + IdList(chunks[..k + 1]) <= earlier + IdList(chunks)
  {
    assert IdList(chunks) == IdList(chunks[..k + 1]) + IdList(chunks)[k + 1..];
    Assoc(earlier, IdList(chunks[..k + 1]), IdList(chunks)[k + 1..]);
  }

  lemma PanicsHere(targets: seq<Target>, current: seq<Target>, chunks: seq<Chunk>, k: nat, earlier: seq<Id>,
                   came: seq<Id>, arrivals: seq<Id>)
    requires k < |chunks| && came == earlier + IdList(chunks[..k])
    requires arrivals == came + [chunks[k].id] == earlier + IdList(chunks[..k + 1])
    requires SameChunks(targets, current) && AllFinalLast(current, came) && !AllFinalLast(current, arrivals)
    ensures FirstPanic(targets, earlier, earlier + IdList(chunks), arrivals)
    ensures !AllFinalLast(targets, earlier + IdList(chunks))
  {
    var all := earlier + IdList(chunks);
    SameFinalLast(targets, current, came);
    SameFinalLast(targets, current, arrivals);
    PrefixOfAll(chunks, k, earlier);
    if AllFinalLast(targets, all) {
      PanicStays(targets, arrivals, all);
    }
    assert arrivals[..|arrivals| - 1] == came;
  }

  lemma AllRead(start: seq<Target>, targets: seq<Target>, chunks: seq<Chunk>, earlier: seq<Id>, arrivals: seq<Id>)
    requires SameChunks(start, targets) && AllFinalLast(targets, arrivals)
    requires arrivals == earlier + IdList(chunks[..|chunks|])
    ensures arrivals == earlier + IdList(chunks) && AllFinalLast(start, arrivals)
  {
    assert chunks[..|chunks|] == chunks;
    SameFinalLast(start, targets, arrivals);
  }

  class Matcher {
    var sources: seq<Source>
    var targets: seq<Target>
    const seal: (Id, bytes) -> bytes
    const open: (Id, bytes) -> bytes

    constructor (sources: seq<Source>, targets: seq<Target>, seal: (Id, bytes) -> bytes, open: (Id, bytes) -> bytes)
      ensures this.sources == sources && this.targets == targets && this.seal == seal && this.open == open
    {
      this.sources, this.targets, this.seal, this.open := sources, targets, seal, open;
    }

    /** Reads the next chunk of the source `best` and offers it to every target; `ok` is false where one panics. */
    method PassChunk(ghost crypto: Crypto, best: nat, ghost before: Source, ghost arrivals: seq<Id>) returns (ok: bool)
      requires seal == crypto.seal
      requires best < |sources| && Reading(crypto, open, before, sources[best]) && !Exhausted(sources[best])
      requires Streaming(crypto, targets, arrivals)
      requires sources[best].chunks[sources[best].current].id !in Arrived(arrivals)
      modifies this
      ensures SameChunks(old(targets), targets)
      ensures |sources| == |old(sources)| && sources == old(sources)[best := sources[best]]
      ensures Reading(crypto, open, before, sources[best]) && sources[best].current == old(sources[best].current) + 1
      ensures var id := before.chunks[old(sources[best].current)].id;
        (ok <==> AllFinalLast(old(targets), arrivals + [id])) && (ok ==> Streaming(crypto, targets, arrivals + [id]))
    {
      ReadingStep(crypto, open, before, sources[best]);
      var (id, data, next) := ReadNext(sources[best]).value;
      if Exhausted(next) {
        next := next.(finalized := next.finalized + 1);
      }
      sources := sources[best := next];
      ok, targets := DeliverAll(crypto, seal, targets, id, open(id, data), arrivals);
    }

    /**
     Reads the source `best` to its end and offers every chunk to the targets.  `ok` is false where a
     target panics, and `arrivals` then ends with the chunk it panics at, the first to be out of order.
     */
    method ReadSource(ghost crypto: Crypto, best: nat, ghost earlier: seq<Id>) returns (ok: bool, ghost arrivals: seq<Id>)
      requires seal == crypto.seal
      requires best < |sources| && Ready(crypto, open, sources[best]) && sources[best].chunks != []
      requires Distinct(sources[best].chunks)
      requires forall a :: 0 <= a < |sources[best].chunks| ==> sources[best].chunks[a].id !in Arrived(earlier)
      requires Streaming(crypto, targets, earlier)
      modifies this
      ensures SameChunks(old(targets), targets)
      ensures ok <==> AllFinalLast(old(targets), earlier + IdList(old(sources)[best].chunks))
      ensures ok ==> arrivals == earlier + IdList(old(sources)[best].chunks)
      ensures !ok ==> FirstPanic(old(targets), earlier, earlier + IdList(old(sources)[best].chunks), arrivals)
      ensures ok ==> Streaming(crypto, targets, arrivals)
      ensures ok ==> |sources| == |old(sources)| && sources == old(sources)[best := sources[best]]
      ensures ok ==> sources[best].chunks == old(sources)[best].chunks && Exhausted(sources[best]) && sources[best].finalized == 1
    {
      ghost var start, was := targets, sources;
      arrivals := earlier;
      assert sources[best].chunks[0..] == sources[best].chunks && earlier + IdList(sources[best].chunks[..0]) == earlier;
      while !Exhausted(sources[best])
        invariant Partway(crypto, open, was, start, sources, targets, best, earlier, arrivals)
        decreases |sources[best].chunks| - sources[best].current
      {
        ghost var k, sources0, targets0, came := sources[best].current, sources, targets, arrivals;
        NewArrival(was[best].chunks, k, earlier);
        ok := PassChunk(crypto, best, was[best], arrivals);
        arrivals := earlier + IdList(was[best].chunks[..k + 1]);
        if !ok {
          PanicsHere(start, targets0, was[best].chunks, k, earlier, came, arrivals);
          return;
        }
        NextPart(crypto, open, was, start, sources0, targets0, sources, targets, best, earlier, came, arrivals);
      }
      AllRead(start, targets, was[best].chunks, earlier, arrivals);
      ok := true;
    }

    /**
     `transfer_chunks`.  The sources are read one after another, each to its end, in
     the order the chunk lists decide.  No target panics if and only if, for every
     target, the last of its chunks to arrive in that order is its final chunk; and
     then every source is exhausted and finalised, every target is in step with the
     chunks of all sources, and every target whose ids the sources cover holds its
     chunks in its own order and is finalised once.
     */
    method TransferChunks(ghost crypto: Crypto) returns (ok: bool)
      requires seal == crypto.seal
      requires DistinctSources(sources)
      requires forall i :: 0 <= i < |sources| ==> Ready(crypto, open, sources[i])
      requires forall k :: 0 <= k < |targets| ==> targets[k] == Fresh(targets[k].chunks) && Distinct(targets[k].chunks)
      modifies this
      ensures SameChunks(old(targets), targets)
      ensures ok <==> AllFinalLast(old(targets), Arrivals(old(sources), old(targets)))
      ensures ok ==> ReadInOrder(old(sources), sources, ReadOrder(old(sources), old(targets)))
      ensures ok ==> forall i :: 0 <= i < |sources| ==> Exhausted(sources[i])
      ensures ok ==> AllDelivered(crypto, targets, Arrived(Arrivals(old(sources), old(targets))))
      ensures ok ==> forall k :: 0 <= k < |targets| && Covered(old(sources), targets[k].chunks) ==> Whole(crypto, targets[k])
    {
      ghost var before, start: seq<Target>, order: seq<nat> := sources, targets, [];
      AllFresh(crypto, targets);
      while true
        invariant Halfway(crypto, before, start, sources, targets, order)
        decreases Unread(sources)
      {
        var best := BestSource(targets, sources);
        if best.None? {
          break;
        }
        ghost var was, arrivals := sources, IdsInOrder(before, order);
        NextSource(crypto, open, before, start, sources, targets, order, best.value);
        ok, arrivals := ReadSource(crypto, best.value, arrivals);
        if !ok {
          PanicInOrder(before, start, order + [best.value]);
          return;
        }
        AfterSource(crypto, before, start, was, sources, targets, order, best.value);
        order := order + [best.value];
      }
      NoSourceLeft(crypto, before, start, sources, targets, order);
      ok := true;
    }
  }

  /** Between two sources: those of `order` have been read and their chunks delivered. */
  ghost predicate Halfway(crypto: Crypto, before: seq<Source>, start: seq<Target>, sources: seq<Source>, targets: seq<Target>,
                          order: seq<nat>) {
    && SameChunks(start, targets)
    && ReadInOrder(before, sources, order)
    && OrderFrom(before, start, order) == ReadOrder(before, start)
    && Streaming(crypto, targets, IdsInOrder(before, order))
  }

  lemma NextSource(crypto: Crypto, open: (Id, bytes) -> bytes, before: seq<Source>, start: seq<Target>, sources: seq<Source>,
                   targets: seq<Target>, order: seq<nat>, b: nat)
    requires Halfway(crypto, before, start, sources, targets, order)
    requires DistinctSources(before) && forall i :: 0 <= i < |before| ==> Ready(crypto, open, before[i])
    requires b < |sources| && !Exhausted(sources[b])
    requires forall j :: 0 <= j < |sources| && !Exhausted(sources[j]) ==>
      var mine, its := Wanting(targets, sources[b].chunks[0].id), Wanting(targets, sources[j].chunks[0].id);
      its < mine || (its == mine && j <= b)
    ensures b !in order && sources[b] == before[b] && before[b].chunks != [] && InRange(order + [b], |before|)
    ensures forall a :: 0 <= a < |before[b].chunks| ==> before[b].chunks[a].id !in Arrived(IdsInOrder(before, order))
    ensures OrderFrom(before, start, order + [b]) == ReadOrder(before, start)
    ensures IdsInOrder(before, order + [b]) == IdsInOrder(before, order) + IdList(before[b].chunks)
    ensures AllFinalLast(start, IdsInOrder(before, order + [b])) <==> AllFinalLast(targets, IdsInOrder(before, order + [b]))
  {
    SourceIsNew(before, order, b);
    ChosenIsNext(crypto, before, sources, start, targets, order, b);
    OrderStep(before, start, order, b);
    assert (order + [b])[..|order|] == order;
    SameFinalLast(start, targets, IdsInOrder(before, order + [b]));
  }

  /** A panic while reading the sources in order is a panic of the whole. */
  lemma PanicInOrder(before: seq<Source>, start: seq<Target>, order: seq<nat>)
    requires InRange(order, |before|) && OrderFrom(before, start, order) == ReadOrder(before, start)
    requires !AllFinalLast(start, IdsInOrder(before, order))
    ensures !AllFinalLast(start, Arrivals(before, start))
  {
    IdsOfPrefix(before, order, ReadOrder(before, start));
    if AllFinalLast(start, Arrivals(before, start)) {
      PanicStays(start, IdsInOrder(before, order), Arrivals(before, start));
    }
  }

  lemma AfterSource(crypto: Crypto, before: seq<Source>, start: seq<Target>, was: seq<Source>, sources: seq<Source>,
                    targets: seq<Target>, order: seq<nat>, b: nat)
    requires b < |before| && b !in order && before[b].chunks != []
    requires ReadInOrder(before, was, order) && was[b] == before[b] && !Exhausted(was[b])
    requires |sources| == |was| && sources == was[b := sources[b]]
    requires sources[b].chunks == before[b].chunks && Exhausted(sources[b]) && sources[b].finalized == 1
    requires OrderFrom(before, start, order + [b]) == ReadOrder(before, start)
    requires SameChunks(start, targets)
    requires Streaming(crypto, targets, IdsInOrder(before, order) + IdList(before[b].chunks))
    ensures Halfway(crypto, before, start, sources, targets, order + [b])
    ensures Unread(sources) < Unread(was)
  {
    UnreadDrops(was, sources, b);
    NextInOrder(before, was, sources, order, b);
  }

  lemma NoSourceLeft(crypto: Crypto, before: seq<Source>, start: seq<Target>, sources: seq<Source>, targets: seq<Target>,
                     order: seq<nat>)
    requires Halfway(crypto, before, start, sources, targets, order)
    requires forall i :: 0 <= i < |before| ==> before[i].current == 0
    requires forall i :: 0 <= i < |sources| ==> Exhausted(sources[i])
    ensures order == ReadOrder(before, start)
    ensures Streaming(crypto, targets, Arrivals(before, start)) && AllFinalLast(start, Arrivals(before, start))
    ensures forall k :: 0 <= k < |targets| && Covered(before, targets[k].chunks) ==> Whole(crypto, targets[k])
  {
    forall j: nat {:trigger Readable(before, order, j)} | j < |before| && j !in order
      ensures before[j].chunks == []
    {
      assert Exhausted(sources[j]);
    }
    OrderEnds(before, start, order);
    AllWhole(crypto, before, sources, targets, order);
    SameFinalLast(start, targets, IdsInOrder(before, order));
  }

  /** Every chunk of the target is a chunk of some source. */
  ghost predicate Covered(sources: seq<Source>, chunks: seq<Chunk>) {
    forall c :: 0 <= c < |chunks| ==> exists i :: 0 <= i < |sources| && chunks[c].id in Arrived(IdList(sources[i].chunks))
  }

  /** The target holds its chunks in its own order and has been finalised exactly once. */
  ghost predicate Whole(crypto: Crypto, t: Target) {
    && t.written == Concat(crypto, t.chunks)
    && t.finalized == if t.chunks != [] then 1 else 0
  }

  lemma AllWhole(crypto: Crypto, before: seq<Source>, after: seq<Source>, targets: seq<Target>, order: seq<nat>)
    requires ReadInOrder(before, after, order)
    requires forall i :: 0 <= i < |before| ==> before[i].current == 0
    requires forall i :: 0 <= i < |after| ==> Exhausted(after[i])
    requires Streaming(crypto, targets, IdsInOrder(before, order))
    ensures forall k :: 0 <= k < |targets| && Covered(before, targets[k].chunks) ==> Whole(crypto, targets[k])
  {
    forall k | 0 <= k < |targets| && Covered(before, targets[k].chunks)
      ensures Whole(crypto, targets[k])
    {
      CoveredArrived(before, after, order, targets[k].chunks);
      DeliveredWhole(crypto, targets[k], Arrived(IdsInOrder(before, order)));
    }
  }

  lemma AllFresh(crypto: Crypto, targets: seq<Target>)
    requires forall k :: 0 <= k < |targets| ==> targets[k] == Fresh(targets[k].chunks) && Distinct(targets[k].chunks)
    ensures Streaming(crypto, targets, [])
  {
    forall k | 0 <= k < |targets|
      ensures Delivered(crypto, targets[k], Arrived([]))
    {
      FreshDelivered(crypto, targets[k].chunks);
    }
  }

  lemma FreshDelivered(crypto: Crypto, chunks: seq<Chunk>)
    requires Distinct(chunks)
    ensures Delivered(crypto, Fresh(chunks), Arrived([]))
  {
    assert chunks[..0] == [];
    if chunks != [] {
      assert chunks[0].id in Ids(chunks);
    }
  }

  function Unread(sources: seq<Source>): nat {
    if sources == [] then 0
    else Unread(sources[..|sources| - 1]) + if Exhausted(sources[|sources| - 1]) then 0 else 1
  }

  /** Reading a source to its end leaves fewer sources to read. */
  lemma {:induction false} UnreadDrops(before: seq<Source>, after: seq<Source>, i: nat)
    requires |before| == |after| && i < |before|
    requires after == before[i := after[i]] && !Exhausted(before[i]) && Exhausted(after[i])
    ensures Unread(after) < Unread(before)
    decreases |before|
  {
    var n := |before| - 1;
    if i < n {
      UnreadDrops(before[..n], after[..n], i);
    } else {
      assert before[..n] == after[..n];
    }
  }

  /** A source not yet read brings only ids that have not arrived. */
  lemma SourceIsNew(sources: seq<Source>, order: seq<nat>, best: nat)
    requires DistinctSources(sources) && InRange(order, |sources|)
    requires best < |sources| && best !in order
    ensures forall a :: 0 <= a < |sources[best].chunks| ==>
      sources[best].chunks[a].id !in Arrived(IdsInOrder(sources, order))
  {
    forall a | 0 <= a < |sources[best].chunks|
      ensures sources[best].chunks[a].id !in Arrived(IdsInOrder(sources, order))
    {
      IdsInOrderArrived(sources, order, sources[best].chunks[a].id);
      forall k | 0 <= k < |order|
        ensures sources[best].chunks[a].id !in Arrived(IdList(sources[order[k]].chunks))
      {
        OtherSource(sources, order[k], best, a);
      }
    }
  }

  lemma OtherSource(sources: seq<Source>, i: nat, j: nat, a: nat)
    requires DistinctSources(sources)
    requires i < |sources| && j < |sources| && i != j && a < |sources[j].chunks|
    ensures sources[j].chunks[a].id !in Arrived(IdList(sources[i].chunks))
  {
    var ids := IdList(sources[i].chunks);
    forall b | 0 <= b < |ids|
      ensures ids[b] != sources[j].chunks[a].id
    {
      assert ids[b] == sources[i].chunks[b].id;
    }
  }

  lemma NextInOrder(before: seq<Source>, was: seq<Source>, after: seq<Source>, order: seq<nat>, best: nat)
    requires ReadInOrder(before, was, order)
    requires best < |before| && best !in order && |after| == |was|
    requires after == was[best := after[best]]
    requires before[best].chunks != [] && after[best].chunks == before[best].chunks
    requires Exhausted(after[best]) && after[best].finalized == 1
    ensures ReadInOrder(before, after, order + [best])
    ensures IdsInOrder(before, order + [best]) == IdsInOrder(before, order) + IdList(before[best].chunks)
  {
    assert (order + [best])[..|order|] == order;
    assert forall i :: i in order + [best] <==> i in order || i == best;
  }

  /** Once every source is exhausted, the ids of a covered target have all arrived. */
  lemma CoveredArrived(before: seq<Source>, after: seq<Source>, order: seq<nat>, chunks: seq<Chunk>)
    requires ReadInOrder(before, after, order)
    requires forall i :: 0 <= i < |before| ==> before[i].current == 0
    requires forall i :: 0 <= i < |after| ==> Exhausted(after[i])
    requires Covered(before, chunks)
    ensures Ids(chunks) <= Arrived(IdsInOrder(before, order))
  {
    forall id | id in Ids(chunks)
      ensures id in Arrived(IdsInOrder(before, order))
    {
      var c :| 0 <= c < |chunks| && chunks[c].id == id;
      var i :| 0 <= i < |before| && id in Arrived(IdList(before[i].chunks));
      assert before[i].chunks != [];
      assert i in order;
      var k :| 0 <= k < |order| && order[k] == i;
      IdsInOrderArrived(before, order, id);
    }
  }

  /** The next chunk of a source has not arrived before, and its id comes after the earlier ones. */
  lemma NewArrival(chunks: seq<Chunk>, k: nat, earlier: seq<Id>)
    requires Distinct(chunks) && k < |chunks|
    requires forall a :: 0 <= a < |chunks| ==> chunks[a].id !in Arrived(earlier)
    ensures chunks[k].id !in Arrived(earlier + IdList(chunks[..k]))
    ensures earlier + IdList(chunks[..k]) + [chunks[k].id] == earlier + IdList(chunks[..k + 1])
  {
    ArrivedConcat(earlier, IdList(chunks[..k]), chunks[k].id);
    assert IdList(chunks[..k]) + [chunks[k].id] == IdList(chunks[..k + 1]);
  }

  lemma AllFinalLastStep(targets: seq<Target>, arrivals: seq<Id>, id: Id)
    ensures AllFinalLast(targets, arrivals + [id])
       <==> AllFinalLast(targets, arrivals)
            && forall k :: 0 <= k < |targets| ==> FinalLast(targets[k].chunks, Arrived(arrivals), id)
  {
    forall k | 0 <= k < |targets|
      ensures FinalArrivesLast(targets[k].chunks, arrivals + [id])
         <==> FinalArrivesLast(targets[k].chunks, arrivals) && FinalLast(targets[k].chunks, Arrived(arrivals), id)
    {
      FinalLastStep(targets[k].chunks, arrivals, id);
    }
  }

  lemma SameFinalLast(a: seq<Target>, b: seq<Target>, arrivals: seq<Id>)
    requires SameChunks(a, b)
    ensures AllFinalLast(a, arrivals) <==> AllFinalLast(b, arrivals)
  {
    forall k | 0 <= k < |a|
      ensures FinalArrivesLast(a[k].chunks, arrivals) <==> FinalArrivesLast(b[k].chunks, arrivals)
    {
    }
  }
}
