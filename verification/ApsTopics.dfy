/**
 Interest in topics (src/aps.rs): tokens are handed out and dropped anywhere, their orders go
 through a channel of 32 places, and one loop counts them and tells the server what is left.
 */
module ApsTopics {
  import opened Bytes

  type Topic = bytes
  type Topics = seq<Topic>

  /** What goes through the channel: the topics of a token, at its request or at its drop. */
  datatype Order = Order(topics: Topics, add: bool)

  const CAPACITY := 32

  /** `counts` is the multiset of topics: no entry for a count of zero. */
  ghost predicate Counts(table: map<Topic, nat>, counts: multiset<Topic>) {
    forall t :: (t in table <==> counts[t] > 0) && (t in table ==> table[t] == counts[t])
  }

  /** The count map of the topic manager's loop. */
  class TopicManager {
    var topics: map<Topic, nat>

    constructor ()
      ensures Counts(topics, multiset{})
    {
      topics := map[];
    }

    method CountOne(topic: Topic, add: bool, ghost counts: multiset<Topic>)
      requires Counts(topics, counts) && (add || topic in topics)
      modifies this
      ensures Counts(topics, if add then counts + multiset{topic} else counts - multiset{topic})
    {
      var entry := if topic in topics then topics[topic] else 0;
      if add {
        entry := entry + 1;
      } else {
        entry := entry - 1;
      }
      topics := topics[topic := entry];
      if entry == 0 {
        topics := topics - {topic};
      }
    }

    /** One order.  A count below zero panics, exactly if more is given back than was taken. */
    method Receive(order: Order, ghost counts: multiset<Topic>) returns (panicked: bool)
      requires Counts(topics, counts)
      modifies this
      ensures panicked <==> !order.add && !(multiset(order.topics) <= counts)
      ensures !panicked ==> Counts(topics, Counted(counts, order))
    {
      ghost var now := counts;
      for k := 0 to |order.topics|
        invariant Counting(counts, order, k) == Some(now) && Counts(topics, now)
      {
        var topic := order.topics[k];
        if !order.add && topic !in topics {
          CountingEnds(counts, order, k + 1);
          return true;
        }
        CountOne(topic, order.add, now);
        now := if order.add then now + multiset{topic} else now - multiset{topic};
      }
      CountingEnds(counts, order, |order.topics|);
      panicked := false;
    }
  }

  /** The counts after the first `k` topics of an order, if they do not go below zero. */
  function Counting(counts: multiset<Topic>, order: Order, k: nat): Option<multiset<Topic>>
    requires k <= |order.topics|
  {
    if k == 0 then Some(counts)
    else
      var before :- Counting(counts, order, k - 1);
      CountedOne(before, order.add, order.topics[k - 1])
  }

  /** The first `k` topics. */
  function Front(topics: Topics, k: nat): multiset<Topic>
    requires k <= |topics|
  {
    if k == 0 then multiset{} else Front(topics, k - 1) + multiset{topics[k - 1]}
  }

  lemma {:induction false} FrontAll(topics: Topics, k: nat)
    requires k <= |topics|
    ensures Front(topics, k) == multiset(topics[..k])
  {
    if k > 0 {
      FrontAll(topics, k - 1);
      assert topics[..k] == topics[..k - 1] + [topics[k - 1]];
    }
  }

  lemma {:induction false} FrontGrows(topics: Topics, k: nat, n: nat)
    requires k <= n <= |topics|
    ensures Front(topics, k) <= Front(topics, n)
  {
    if k < n {
      FrontGrows(topics, k, n - 1);
    }
  }

  /** Without what has been counted of it, or with it, `now` makes up `counts`. */
  ghost predicate AddsUp(counts: multiset<Topic>, add: bool, front: multiset<Topic>, now: Option<multiset<Topic>>) {
    match now
    case None => !add && !(front <= counts)
    case Some(m) => if add then m == counts + front else m + front == counts
  }

  function CountedOne(before: multiset<Topic>, add: bool, topic: Topic): Option<multiset<Topic>> {
    if add then Some(before + multiset{topic})
    else if topic in before then Some(before - multiset{topic})
    else None
  }

  lemma AddsUpOne(counts: multiset<Topic>, add: bool, front: multiset<Topic>, before: multiset<Topic>, topic: Topic)
    requires AddsUp(counts, add, front, Some(before))
    ensures AddsUp(counts, add, front + multiset{topic}, CountedOne(before, add, topic))
  {
    if !add && topic !in before {
      assert (front + multiset{topic})[topic] > counts[topic];
    }
  }

  lemma {:induction false} CountingSums(counts: multiset<Topic>, order: Order, k: nat)
    requires k <= |order.topics|
    ensures AddsUp(counts, order.add, Front(order.topics, k), Counting(counts, order, k))
  {
    if k > 0 {
      CountingSums(counts, order, k - 1);
      var before := Counting(counts, order, k - 1);
      if before.Some? {
        AddsUpOne(counts, order.add, Front(order.topics, k - 1), before.value, order.topics[k - 1]);
      } else {
        FrontGrows(order.topics, k - 1, k);
      }
    }
  }

  /** The whole order is counted, unless some part of it cannot be. */
  lemma CountingEnds(counts: multiset<Topic>, order: Order, k: nat)
    requires k <= |order.topics|
    ensures Counting(counts, order, k).None? ==> !order.add && !(multiset(order.topics) <= counts)
    ensures k == |order.topics| && Counting(counts, order, k).Some? ==>
      && Counting(counts, order, k).value == Counted(counts, order)
      && (order.add || multiset(order.topics) <= counts)
  {
    var n := |order.topics|;
    CountingSums(counts, order, k);
    FrontGrows(order.topics, k, n);
    FrontAll(order.topics, n);
    assert order.topics[..n] == order.topics;
  }

  // ----- the protocol -----

  /** The loop waits for an order, has applied one, stores the topics, sends the filter. */
  datatype Phase = Waiting | Applied | Storing | Filtering

  /**
   `live` are the tokens alive, `counts` what the loop has counted, `current` the shared topics;
   `server` is the last filter the server has, `stale` whether one since then went astray.
   */
  datatype State = State(live: seq<Topics>, queue: seq<Order>, counts: multiset<Topic>, phase: Phase,
                         current: set<Topic>, server: set<Topic>, stale: bool)

  datatype Event = Request(topics: Topics) | DropToken(topics: Topics) | Receive | Check | Store | Filter(sent: bool) | Reconnect

  /** `stale` if the first connection failed. */
  function Start(stale: bool): State {
    State([], [], multiset{}, Waiting, {}, {}, stale)
  }

  function Keys(counts: multiset<Topic>): (r: set<Topic>)
    ensures forall t :: t in r <==> counts[t] > 0
  {
    set t | t in counts
  }

  function Without(tokens: seq<Topics>, topics: Topics): seq<Topics> {
    if tokens == [] then []
    else if tokens[0] == topics then tokens[1..]
    else [tokens[0]] + Without(tokens[1..], topics)
  }

  predicate Enabled(s: State, e: Event) {
    match e
    case Request(_) => |s.queue| < CAPACITY
    case DropToken(topics) => topics in s.live && |s.queue| < CAPACITY
    case Receive => s.phase.Waiting? && s.queue != []
    case Check => s.phase.Applied?
    case Store => s.phase.Storing?
    case Filter(_) => s.phase.Filtering?
    case Reconnect => true
  }

  function Counted(counts: multiset<Topic>, order: Order): multiset<Topic> {
    if order.add then counts + multiset(order.topics) else counts - multiset(order.topics)
  }

  function Apply(s: State, e: Event): State
    requires Enabled(s, e)
  {
    match e
    case Request(topics) => s.(live := s.live + [topics], queue := s.queue + [Order(topics, true)])
    case DropToken(topics) => s.(live := Without(s.live, topics), queue := s.queue + [Order(topics, false)])
    case Receive => s.(queue := s.queue[1..], counts := Counted(s.counts, s.queue[0]), phase := Applied)
    case Check => s.(phase := if s.queue == [] then Storing else Waiting)
    case Store => s.(current := Keys(s.counts), phase := Filtering)
    case Filter(sent) => if sent then s.(server := Keys(s.counts), stale := false, phase := Waiting)
                         else s.(stale := true, phase := Waiting)
    case Reconnect => s.(server := s.current, stale := false)
  }

  predicate Possible(s: State, events: seq<Event>)
    decreases |events|
  {
    events == [] || (Enabled(s, events[0]) && Possible(Apply(s, events[0]), events[1..]))
  }

  function Run(s: State, events: seq<Event>): State
    requires Possible(s, events)
    decreases |events|
  {
    if events == [] then s else Run(Apply(s, events[0]), events[1..])
  }

  // ----- what the tokens hold -----

  /** All topics of the tokens, with their multiplicity. */
  function Total(tokens: seq<Topics>): multiset<Topic> {
    if tokens == [] then multiset{} else multiset(tokens[0]) + Total(tokens[1..])
  }

  lemma {:induction false} TotalAppend(tokens: seq<Topics>, topics: Topics)
    ensures Total(tokens + [topics]) == Total(tokens) + multiset(topics)
  {
    if tokens == [] {
      assert (tokens + [topics])[1..] == [];
    } else {
      assert (tokens + [topics])[1..] == tokens[1..] + [topics];
      TotalAppend(tokens[1..], topics);
    }
  }

  lemma {:induction false} TotalWithout(tokens: seq<Topics>, topics: Topics)
    requires topics in tokens
    ensures multiset(topics) + Total(Without(tokens, topics)) == Total(tokens)
  {
    if tokens[0] != topics {
      TotalWithout(tokens[1..], topics);
      assert ([tokens[0]] + Without(tokens[1..], topics))[1..] == Without(tokens[1..], topics);
    }
  }

  /** The tokens after `orders`, if no order gives back a token that is not there. */
  function Replayed(tokens: seq<Topics>, orders: seq<Order>): Option<seq<Topics>>
    decreases |orders|
  {
    if orders == [] then Some(tokens)
    else if orders[0].add then Replayed(tokens + [orders[0].topics], orders[1..])
    else if orders[0].topics in tokens then Replayed(Without(tokens, orders[0].topics), orders[1..])
    else None
  }

  lemma {:induction false} ReplayOneMore(tokens: seq<Topics>, orders: seq<Order>, order: Order)
    requires Replayed(tokens, orders).Some?
    ensures Replayed(tokens, orders + [order]) == Replayed(Replayed(tokens, orders).value, [order])
    decreases |orders|
  {
    if orders == [] {
      assert orders + [order] == [order];
    } else {
      assert (orders + [order])[1..] == orders[1..] + [order];
      var next := if orders[0].add then tokens + [orders[0].topics] else Without(tokens, orders[0].topics);
      ReplayOneMore(next, orders[1..], order);
    }
  }

  /**
   The loop has counted some tokens, `seen`; what is still in the channel turns them into those
   alive, never giving back what was not given out.
   */
  ghost predicate InStep(s: State, seen: seq<Topics>) {
    s.counts == Total(seen) && Replayed(seen, s.queue) == Some(s.live)
  }

  ghost predicate Inv(s: State) {
    && (exists seen :: InStep(s, seen))
    && (s.phase.Waiting? && s.queue == [] ==> s.current == Keys(s.counts))
    && (s.phase.Filtering? ==> s.current == Keys(s.counts))
    && (s.stale || s.server == s.current || s.phase.Filtering?)
  }

  lemma InStepQueued(s: State, e: Event, seen: seq<Topics>)
    requires Enabled(s, e) && (e.Request? || e.DropToken?) && InStep(s, seen)
    ensures InStep(Apply(s, e), seen)
  {
    var order := Order(e.topics, e.Request?);
    ReplayOneMore(seen, s.queue, order);
    assert [order][1..] == [];
  }

  lemma InStepReceived(s: State, seen: seq<Topics>)
    requires Enabled(s, Receive) && InStep(s, seen)
    ensures !s.queue[0].add ==> multiset(s.queue[0].topics) <= s.counts
    ensures InStep(Apply(s, Receive),
                   if s.queue[0].add then seen + [s.queue[0].topics] else Without(seen, s.queue[0].topics))
  {
    if s.queue[0].add {
      TotalAppend(seen, s.queue[0].topics);
    } else {
      TotalWithout(seen, s.queue[0].topics);
    }
  }

  lemma InvStep(s: State, e: Event)
    requires Enabled(s, e) && Inv(s)
    ensures Inv(Apply(s, e))
  {
    var seen :| InStep(s, seen);
    match e
    case Request(_) => InStepQueued(s, e, seen);
    case DropToken(_) => InStepQueued(s, e, seen);
    case Receive => InStepReceived(s, seen);
    case _ => assert InStep(Apply(s, e), seen);
  }

  lemma {:induction false} InvRun(s: State, events: seq<Event>)
    requires Inv(s) && Possible(s, events)
    ensures Inv(Run(s, events))
    decreases |events|
  {
    if events != [] {
      InvStep(s, events[0]);
      InvRun(Apply(s, events[0]), events[1..]);
    }
  }

  lemma StartInv(stale: bool)
    ensures Inv(Start(stale))
  {
    assert InStep(Start(stale), []);
  }

  /** No count ever goes below zero, whatever the interleaving. */
  lemma NoUnderflow(stale: bool, events: seq<Event>)
    requires Possible(Start(stale), events) && Enabled(Run(Start(stale), events), Receive)
    ensures var s := Run(Start(stale), events);
      !s.queue[0].add ==> multiset(s.queue[0].topics) <= s.counts
  {
    StartInv(stale);
    InvRun(Start(stale), events);
    var s := Run(Start(stale), events);
    var seen :| InStep(s, seen);
    InStepReceived(s, seen);
  }

  lemma {:induction false} TotalMembers(tokens: seq<Topics>, t: Topic)
    ensures Total(tokens)[t] > 0 <==> exists i :: 0 <= i < |tokens| && t in tokens[i]
  {
    if tokens != [] {
      TotalMembers(tokens[1..], t);
      if t in tokens[0] {
        assert t in multiset(tokens[0]);
      }
      if i :| 0 <= i < |tokens[1..]| && t in tokens[1..][i] {
        assert t in tokens[i + 1];
      }
    }
  }

  /**
   Whenever the channel is drained and the loop waits, the current topics are exactly those
   held by some live token; and so is what the server was told, unless the last filter failed
   and no connection has been made since.
   */
  lemma DrainedTopics(stale: bool, events: seq<Event>, t: Topic)
    requires Possible(Start(stale), events)
    ensures var s := Run(Start(stale), events);
      s.phase.Waiting? && s.queue == [] ==>
        && (t in s.current <==> exists i :: 0 <= i < |s.live| && t in s.live[i])
        && (!s.stale ==> s.server == s.current)
  {
    StartInv(stale);
    InvRun(Start(stale), events);
    var s := Run(Start(stale), events);
    TotalMembers(s.live, t);
  }

  /** Left to itself the loop drains the channel: it can always go on until it waits on an empty one. */
  lemma {:induction false} LoopDrains(s: State) returns (events: seq<Event>)
    ensures Possible(s, events) && Run(s, events).phase.Waiting? && Run(s, events).queue == []
    ensures Run(s, events).live == s.live
    ensures forall e :: e in events ==> !e.Request? && !e.DropToken?
    decreases |s.queue|, match s.phase case Waiting => 0 case Filtering => 1 case Storing => 2 case Applied => 3
  {
    if s.phase.Waiting? && s.queue == [] {
      events := [];
    } else {
      var e := match s.phase
        case Waiting => Receive
        case Applied => Check
        case Storing => Store
        case Filtering => Filter(true);
      var rest := LoopDrains(Apply(s, e));
      events := [e] + rest;
      assert events[1..] == rest;
    }
  }
}
