/**
 The regeneration loop of `ResourceManager` (src/util.rs) as a state machine: one step for
 each thing the loop or a caller does between two suspension points, in every interleaving.

 What a generation gives, when a timer fires and when a task ends are left to chance.
 */
module ResourceManager {
  import opened Bytes

  /** What is broadcast to the waiters. */
  datatype Answer = Ready | Failure(final: bool)

  /** A caller inside `refresh_option` that has subscribed to the answers. */
  datatype Waiter = Waiter(now: bool, signalled: bool, answer: Option<Answer>)

  /** `ResourceState` */
  datatype Published = Generated | Generating | Failed(final: bool) | Closed

  /** Where the loop is. */
  datatype Loop =
    | Idle
    | Woken
    | Marking
    | Working
    | FailDrain(final: bool)
    | FailDrainNow(final: bool)
    | FailSend(final: bool)
    | FailMark(final: bool)
    | Sleeping
    | Remarking
    | Install(handle: nat)
    | Upgrade
    | MarkGenerated
    | Notify
    | DrainRetry
    | DrainNow
    | Send
    | Stopping
    | Closing
    | Ended

  /**
   `retry`, `now` and `death` are the channels of capacity one; `unaborted` are the tasks
   spawned and not aborted; `ended` those that have ended by themselves, `polled` those
   whose end the loop has seen.
   */
  datatype State = State(
    loop: Loop, published: Published, retry: bool, now: bool, death: bool, dropped: bool,
    current: nat, spawned: nat, unaborted: set<nat>, ended: set<nat>, polled: set<nat>, waiters: map<nat, Waiter>)

  datatype Cause = ByEnd | ByRetry | ByNow | ByDeath | ByDrop | ByTimer

  /** Steps of the loop, and below them steps of its surroundings. */
  datatype Event =
    | Wake(cause: Cause)
    | Succeed
    | Fail(final: bool)
    | Take
    | Step
    | Subscribe(id: nat, now: bool)
    | Signal(id: nat)
    | Leave(id: nat)
    | RequestUpdate
    | Close
    | Finish(handle: nat)
    | Drop

  predicate IsLoopEvent(e: Event) {
    e.Wake? || e.Succeed? || e.Fail? || e.Take? || e.Step?
  }

  /** Handle 0 is the task given to `new`, or the empty one it spawns. */
  function Start(running: bool): State {
    State(Idle, if running then Generated else Generating, false, false, false, false, 0, 1, {0}, {}, {}, map[])
  }

  // ----- the steps -----

  /** The causes each `select!` waits for; a dropped sender shows only once its channel is empty. */
  predicate CanWake(s: State, cause: Cause) {
    match cause
    case ByEnd => s.loop.Idle? && s.current in s.ended
    case ByRetry => s.loop.Idle? && s.retry
    case ByNow => (s.loop.Idle? || s.loop.Sleeping?) && s.now
    case ByDeath => (s.loop.Idle? || s.loop.Working? || s.loop.Sleeping?) && s.death
    case ByDrop =>
      && s.dropped
      && ((s.loop.Idle? && !(s.retry && s.now && s.death)) || (s.loop.Working? && !s.death)
          || (s.loop.Sleeping? && !(s.now && s.death)))
    case ByTimer => s.loop.Sleeping?
  }

  /** Draining, and a signal is there to be taken. */
  predicate CanTake(s: State) {
    ((s.loop.FailDrain? || s.loop.DrainRetry?) && s.retry) || ((s.loop.FailDrainNow? || s.loop.DrainNow?) && s.now)
  }

  predicate CanStep(s: State) {
    !s.loop.Idle? && !s.loop.Working? && !s.loop.Sleeping? && !s.loop.Ended? && !CanTake(s)
  }

  predicate Enabled(s: State, e: Event) {
    match e
    case Wake(cause) => CanWake(s, cause)
    case Succeed => s.loop.Working?
    case Fail(_) => s.loop.Working?
    case Take => CanTake(s)
    case Step => CanStep(s)
    case Subscribe(id, _) => id !in s.waiters
    case Signal(id) => id in s.waiters && !s.waiters[id].signalled
    case Leave(id) => id in s.waiters
    case RequestUpdate => true
    case Close => true
    case Finish(handle) => handle in s.unaborted
    case Drop => true
  }

  function Woke(s: State, cause: Cause): State
    requires CanWake(s, cause)
  {
    match cause
    case ByEnd => s.(loop := Woken, polled := s.polled + {s.current})
    case ByRetry => s.(loop := Woken, retry := false)
    case ByNow => s.(loop := if s.loop.Idle? then Woken else Remarking, now := false)
    case ByDeath => s.(loop := Stopping, death := false)
    case ByDrop => s.(loop := Stopping)
    case ByTimer => s.(loop := Remarking)
  }

  /** A broadcast reaches everybody who has subscribed; each takes the first one. */
  function Answered(waiters: map<nat, Waiter>, answer: Answer): map<nat, Waiter> {
    map id | id in waiters :: if waiters[id].answer.None? then waiters[id].(answer := Some(answer)) else waiters[id]
  }

  /** Where a straight-line step leads. */
  function Following(loop: Loop, dropped: bool): Loop {
    match loop
    case Woken => Marking
    case Marking => Working
    case FailDrain(final) => FailDrainNow(final)
    case FailDrainNow(final) => FailSend(final)
    case FailSend(final) => FailMark(final)
    case FailMark(final) => if final then Stopping else Sleeping
    case Remarking => Working
    case Install(_) => Upgrade
    case Upgrade => if dropped then Stopping else MarkGenerated
    case MarkGenerated => Notify
    case Notify => DrainRetry
    case DrainRetry => DrainNow
    case DrainNow => Send
    case Send => Idle
    case Stopping => Closing
    case Closing => Ended
    case _ => loop
  }

  /** What the step at `loop` publishes; most leave it. */
  function Publishes(loop: Loop, before: Published): Published {
    if loop.Marking? || loop.Remarking? then Generating
    else if loop.FailMark? then Failed(loop.final)
    else if loop.MarkGenerated? then Generated
    else if loop.Stopping? then Closed
    else before
  }

  /** The straight-line steps of the loop. */
  function Stepped(s: State): State
    requires CanStep(s)
  {
    s.(loop := Following(s.loop, s.dropped),
       published := Publishes(s.loop, s.published),
       current := if s.loop.Install? then s.loop.handle else s.current,
       unaborted := if s.loop.Woken? || s.loop.Closing? then s.unaborted - {s.current} else s.unaborted,
       waiters := if s.loop.Send? then Answered(s.waiters, Ready)
                  else if s.loop.FailSend? then Answered(s.waiters, Failure(s.loop.final))
                  else s.waiters)
  }

  function Apply(s: State, e: Event): State
    requires Enabled(s, e)
  {
    match e
    case Wake(cause) => Woke(s, cause)
    case Succeed => s.(loop := Install(s.spawned), spawned := s.spawned + 1, unaborted := s.unaborted + {s.spawned})
    case Fail(final) => s.(loop := FailDrain(final))
    case Take => if s.loop.FailDrain? || s.loop.DrainRetry? then s.(retry := false) else s.(now := false)
    case Step => Stepped(s)
    case Subscribe(id, now) => s.(waiters := s.waiters[id := Waiter(now, false, None)])
    case Signal(id) =>
      var w := s.waiters[id];
      s.(retry := s.retry || !w.now, now := s.now || w.now, waiters := s.waiters[id := w.(signalled := true)])
    case Leave(id) => s.(waiters := s.waiters - {id})
    case RequestUpdate => s.(retry := true)
    case Close => s.(death := true)
    case Finish(handle) => s.(ended := s.ended + {handle})
    case Drop => s.(dropped := true)
  }

  /** Every event happens where it can. */
  predicate Possible(s: State, events: seq<Event>)
    decreases |events|
  {
    events == [] || (Enabled(s, events[0]) && Possible(Apply(s, events[0]), events[1..]))
  }

  function Run(s: State, events: seq<Event>): State
    requires Possible(s, events)
    decreases |events|
  {
    if events == [] then s else Run(Apply(s, events[0]), events[1..])
  }

  // ----- what every step keeps -----

  /** The loop will broadcast before it can wait for a signal again, unless it stops. */
  predicate Resolving(loop: Loop) {
    || loop.Woken? || loop.Marking? || loop.Working? || loop.FailDrain? || loop.FailDrainNow? || loop.FailSend?
    || loop.Remarking? || loop.Install? || loop.Upgrade? || loop.MarkGenerated? || loop.Notify?
    || loop.DrainRetry? || loop.DrainNow? || loop.Send?
  }

  predicate Stopped(loop: Loop) {
    loop.Stopping? || loop.Closing? || loop.Ended? || loop == FailMark(true)
  }

  /** Someone who waits has a signal pending, unless an answer or the end is on its way. */
  predicate Heard(s: State, w: Waiter) {
    w.signalled && w.answer.None? ==> (if w.now then s.now else s.retry) || Resolving(s.loop) || Stopped(s.loop)
  }

  ghost predicate AllHeard(s: State) {
    forall id :: id in s.waiters ==> Heard(s, s.waiters[id])
  }

  /** The tasks that may run: at most the current one, the new one before it is installed, none while generating. */
  predicate Held(s: State) {
    && s.current < s.spawned
    && (if s.loop.Install? then s.loop.handle < s.spawned && s.unaborted == {s.loop.handle}
        else if Vacant(s.loop) then s.unaborted == {}
        else if s.loop.Stopping? || s.loop.Closing? then s.unaborted <= {s.current}
        else s.unaborted == {s.current})
  }

  predicate Vacant(loop: Loop) {
    || loop.Marking? || loop.Working? || loop.FailDrain? || loop.FailDrainNow? || loop.FailSend? || loop.FailMark?
    || loop.Sleeping? || loop.Remarking? || loop.Ended?
  }

  /** What `ensure_ready` sees fits where the loop is. */
  predicate Truthful(s: State) {
    && (s.published.Closed? <==> s.loop.Closing? || s.loop.Ended?)
    && (s.loop.Working? ==> s.published.Generating?)
    && (s.loop.Sleeping? || s.loop.Remarking? ==> s.published == Failed(false))
    && (s.loop.Notify? || s.loop.DrainRetry? || s.loop.DrainNow? || s.loop.Send? ==> s.published.Generated?)
  }

  /** The end of a task is waited for only while it has not been seen. */
  predicate PolledOnce(s: State) {
    && (forall h :: h in s.polled ==> h < s.spawned)
    && (s.loop.Install? ==> s.loop.handle !in s.polled)
    && (Serving(s.loop) ==> s.current !in s.polled)
  }

  predicate Serving(loop: Loop) {
    || loop.Idle? || loop.Upgrade? || loop.MarkGenerated? || loop.Notify? || loop.DrainRetry? || loop.DrainNow?
    || loop.Send?
  }

  ghost predicate Inv(s: State) {
    AllHeard(s) && Held(s) && Truthful(s) && PolledOnce(s)
  }

  lemma SteppedHeard(s: State, id: nat)
    requires CanStep(s) && id in s.waiters && Heard(s, s.waiters[id])
    ensures id in Stepped(s).waiters && Heard(Stepped(s), Stepped(s).waiters[id])
  {
  }

  lemma HeardByOne(s: State, e: Event, id: nat)
    requires Enabled(s, e) && id in Apply(s, e).waiters
    requires id in s.waiters ==> Heard(s, s.waiters[id])
    ensures Heard(Apply(s, e), Apply(s, e).waiters[id])
  {
    if e.Step? {
      SteppedHeard(s, id);
    }
  }

  lemma HeardStep(s: State, e: Event)
    requires Enabled(s, e) && AllHeard(s)
    ensures AllHeard(Apply(s, e))
  {
    var t := Apply(s, e);
    forall id | id in t.waiters ensures Heard(t, t.waiters[id]) {
      HeardByOne(s, e, id);
    }
  }

  lemma SteppedHeld(s: State)
    requires CanStep(s) && Held(s)
    ensures Held(Stepped(s))
  {
  }

  lemma WokeHeld(s: State, cause: Cause)
    requires CanWake(s, cause) && Held(s)
    ensures Held(Woke(s, cause))
  {
  }

  /** The surroundings neither move the loop nor touch its tasks. */
  lemma OthersLeaveLoop(s: State, e: Event)
    requires Enabled(s, e) && !IsLoopEvent(e)
    ensures var t := Apply(s, e);
      t.loop == s.loop && t.current == s.current && t.spawned == s.spawned && t.unaborted == s.unaborted
      && t.published == s.published && t.polled == s.polled
  {
  }

  lemma HeldStep(s: State, e: Event)
    requires Enabled(s, e) && Held(s)
    ensures Held(Apply(s, e))
  {
    if !IsLoopEvent(e) {
      OthersLeaveLoop(s, e);
    } else {
      match e
      case Wake(cause) => WokeHeld(s, cause);
      case Step => SteppedHeld(s);
      case _ =>
    }
  }

  lemma SteppedTruthful(s: State)
    requires CanStep(s) && Truthful(s)
    ensures Truthful(Stepped(s))
  {
  }

  lemma TruthfulStep(s: State, e: Event)
    requires Enabled(s, e) && Truthful(s)
    ensures Truthful(Apply(s, e))
  {
    if !IsLoopEvent(e) {
      OthersLeaveLoop(s, e);
    } else {
      match e
      case Wake(cause) => assert Apply(s, e) == Woke(s, cause);
      case Step => SteppedTruthful(s);
      case _ =>
    }
  }

  lemma SteppedPolledOnce(s: State)
    requires CanStep(s) && Held(s) && PolledOnce(s)
    ensures PolledOnce(Stepped(s))
  {
  }

  lemma WokePolledOnce(s: State, cause: Cause)
    requires CanWake(s, cause) && Held(s) && PolledOnce(s)
    ensures PolledOnce(Woke(s, cause))
  {
  }

  lemma PolledOnceStep(s: State, e: Event)
    requires Enabled(s, e) && Held(s) && PolledOnce(s)
    ensures PolledOnce(Apply(s, e))
  {
    if !IsLoopEvent(e) {
      OthersLeaveLoop(s, e);
    } else {
      match e
      case Wake(cause) => WokePolledOnce(s, cause);
      case Step => SteppedPolledOnce(s);
      case _ =>
    }
  }

  lemma InvStep(s: State, e: Event)
    requires Enabled(s, e) && Inv(s)
    ensures Inv(Apply(s, e))
  {
    HeardStep(s, e);
    HeldStep(s, e);
    TruthfulStep(s, e);
    PolledOnceStep(s, e);
  }

  lemma {:induction false} InvRun(s: State, events: seq<Event>)
    requires Inv(s) && Possible(s, events)
    ensures Inv(Run(s, events))
    decreases |events|
  {
    if events != [] {
      InvStep(s, events[0]);
      InvRun(Apply(s, events[0]), events[1..]);
    }
  }

  /**
   No refresh is lost: in every interleaving, a waiter that has signalled and has no answer
   has its own signal pending, or a broadcast is ahead, or the manager has stopped.
   */
  lemma NoRefreshLost(running: bool, events: seq<Event>, id: nat)
    requires Possible(Start(running), events)
    requires id in Run(Start(running), events).waiters
    ensures var s := Run(Start(running), events);
      var w := s.waiters[id];
      w.signalled && w.answer.None? ==> (if w.now then s.now else s.retry) || Resolving(s.loop) || Stopped(s.loop)
  {
    InvRun(Start(running), events);
  }

  /** At most one task is left unaborted, none while the next one is generated and none at the end. */
  lemma OneTask(running: bool, events: seq<Event>)
    requires Possible(Start(running), events)
    ensures var s := Run(Start(running), events);
      && |s.unaborted| <= 1
      && (s.loop.Working? || s.loop.Sleeping? || s.loop.Ended? ==> s.unaborted == {})
      && (s.loop.Idle? ==> s.unaborted == {s.current} && s.current !in s.polled)
  {
    InvRun(Start(running), events);
    var s := Run(Start(running), events);
    if s.unaborted <= {s.current} && s.unaborted != {} {
      assert s.unaborted == {s.current};
    }
  }

  /** "Closed" is published before the last task is aborted, so for one step it is seen too early. */
  lemma ClosedBeforeAbort()
    ensures var events := [Close, Wake(ByDeath), Step];
      && Possible(Start(true), events)
      && Run(Start(true), events).published.Closed?
      && Run(Start(true), events).unaborted == {0}
  {
    var s0 := Start(true);
    var s1 := Apply(s0, Close);
    var s2 := Apply(s1, Wake(ByDeath));
    var s3 := Apply(s2, Step);
    var e3: seq<Event> := [];
    var e2 := [Step];
    var e1 := [Wake(ByDeath), Step];
    var e0 := [Close, Wake(ByDeath), Step];
    assert e2[1..] == e3 && e1[1..] == e2 && e0[1..] == e1;
    assert Possible(s3, e3) && Run(s3, e3) == s3;
    assert Possible(s2, e2) && Run(s2, e2) == s3;
    assert Possible(s1, e1) && Run(s1, e1) == s3;
  }

  /** A closed manager has no task left once the loop has made its last step. */
  lemma ClosedHoldsNone(running: bool, events: seq<Event>)
    requires Possible(Start(running), events)
    ensures var s := Run(Start(running), events);
      s.published.Closed? ==> s.loop.Closing? || (s.loop.Ended? && s.unaborted == {})
  {
    InvRun(Start(running), events);
  }

  lemma {:induction false} EndedStays(s: State, events: seq<Event>)
    requires s.loop.Ended? && Possible(s, events)
    ensures Run(s, events).loop.Ended?
    decreases |events|
  {
    if events != [] {
      EndedStays(Apply(s, events[0]), events[1..]);
    }
  }

  /** While the loop stops it starts and aborts nothing before its last step. */
  lemma {:induction false} StoppingAbortsNone(s: State, events: seq<Event>)
    requires (s.loop.Stopping? || s.loop.Closing?) && Possible(s, events) && Run(s, events).loop.Closing?
    ensures Run(s, events).unaborted == s.unaborted
    decreases |events|
  {
    if events != [] {
      var t := Apply(s, events[0]);
      if t.loop.Ended? {
        EndedStays(t, events[1..]);
      } else {
        StoppingAbortsNone(t, events[1..]);
      }
    }
  }

  lemma StopLeaves(s: State, stop: Event)
    requires Enabled(s, stop) && Held(s) && !s.loop.Stopping? && Apply(s, stop).loop.Stopping?
    ensures Apply(s, stop).unaborted == if s.loop.Idle? || s.loop.Upgrade? then {s.current} else {}
  {
    if !IsLoopEvent(stop) {
      OthersLeaveLoop(s, stop);
      assert false;
    } else {
      match stop
      case Wake(cause) => assert Apply(s, stop) == Woke(s, cause);
      case Step => assert Apply(s, stop) == Stepped(s);
      case _ =>
    }
  }

  /**
   The manager is closed and its last step is still ahead: the current task is left running if and
   only if the loop was stopped while it waited for a reason to retry, or found the manager dropped.
   Stopped while it generated or slept, or by a final failure, it has none to leave.
   */
  lemma TaskLeftWhenClosed(running: bool, events: seq<Event>, stop: Event, more: seq<Event>)
    requires Possible(Start(running), events)
    requires var s := Run(Start(running), events);
      && Enabled(s, stop) && !s.loop.Stopping? && Apply(s, stop).loop.Stopping?
      && Possible(Apply(s, stop), more) && Run(Apply(s, stop), more).loop.Closing?
    ensures var s := Run(Start(running), events);
      Run(Apply(s, stop), more).unaborted == if s.loop.Idle? || s.loop.Upgrade? then {s.current} else {}
  {
    InvRun(Start(running), events);
    var s := Run(Start(running), events);
    StopLeaves(s, stop);
    StoppingAbortsNone(Apply(s, stop), more);
  }

  ghost predicate AnsweredTruly(s: State, answer: Option<Answer>) {
    match answer
    case None => true
    case Some(Ready) => s.published.Generated? && s.unaborted == {s.current}
    case Some(Failure(_)) => s.unaborted == {}
  }

  lemma SteppedAnswers(s: State, id: nat)
    requires CanStep(s) && Inv(s) && id in s.waiters && s.waiters[id].answer.None?
    ensures id in Stepped(s).waiters && AnsweredTruly(s, Stepped(s).waiters[id].answer)
  {
  }

  lemma OthersAnswerNobody(s: State, e: Event, id: nat)
    requires Enabled(s, e) && !e.Step? && id in s.waiters && s.waiters[id].answer.None?
    ensures id in Apply(s, e).waiters ==> Apply(s, e).waiters[id].answer.None?
  {
  }

  /** "Ready" is broadcast only with a task installed and published, a failure only without one. */
  lemma AnswersAreTrue(running: bool, events: seq<Event>, e: Event, id: nat)
    requires Possible(Start(running), events) && Enabled(Run(Start(running), events), e)
    requires var s := Run(Start(running), events);
      id in s.waiters && s.waiters[id].answer.None? && id in Apply(s, e).waiters
    ensures var s := Run(Start(running), events);
      AnsweredTruly(s, Apply(s, e).waiters[id].answer)
  {
    InvRun(Start(running), events);
    var s := Run(Start(running), events);
    if e.Step? {
      SteppedAnswers(s, id);
    } else {
      OthersAnswerNobody(s, e, id);
    }
  }

  // ----- progress -----

  /** How many steps of the loop lie before the next broadcast. */
  function Distance(loop: Loop): nat {
    match loop
    case Send => 1
    case FailSend(_) => 1
    case DrainNow => 2
    case FailDrainNow(_) => 2
    case DrainRetry => 3
    case FailDrain(_) => 3
    case Notify => 4
    case MarkGenerated => 5
    case Upgrade => 6
    case Install(_) => 7
    case Working => 8
    case Marking => 9
    case Woken => 10
    case Idle => 11
    case Remarking => 9
    case Sleeping => 10
    case FailMark(_) => 11
    case _ => 0
  }

  /** A pending signal may cost one step more, to be drained. */
  function Rank(s: State): nat {
    Distance(s.loop) + (if s.retry then 1 else 0) + (if s.now then 1 else 0)
  }

  predicate Waits(s: State, id: nat) {
    id in s.waiters && s.waiters[id].signalled && s.waiters[id].answer.None?
  }

  /** While somebody waits the loop is never stuck, whatever the surroundings do. */
  lemma NeverStuck(s: State, id: nat)
    requires Inv(s) && Waits(s, id) && !Stopped(s.loop)
    ensures exists e :: IsLoopEvent(e) && Enabled(s, e)
  {
    assert Heard(s, s.waiters[id]);
    var e := if s.loop.Idle? then (if s.retry then Wake(ByRetry) else Wake(ByNow))
             else if s.loop.Working? then Succeed
             else if s.loop.Sleeping? then Wake(ByTimer)
             else if CanTake(s) then Take else Step;
    assert IsLoopEvent(e) && Enabled(s, e);
  }

  lemma SteppedRank(s: State, id: nat)
    requires CanStep(s) && Waits(s, id) && Waits(Stepped(s), id) && !Stopped(s.loop) && !Stopped(Stepped(s).loop)
    ensures Rank(Stepped(s)) < Rank(s)
  {
  }

  /** A step of the loop stops it, answers or comes closer; one of its surroundings costs at most one. */
  lemma RankStep(s: State, e: Event, id: nat)
    requires Inv(s) && Enabled(s, e) && Waits(s, id) && !Stopped(s.loop)
    requires var t := Apply(s, e); Waits(t, id) && !Stopped(t.loop)
    ensures Rank(Apply(s, e)) <= if IsLoopEvent(e) then Rank(s) - 1 else Rank(s) + 1
  {
    if !IsLoopEvent(e) {
      OthersLeaveLoop(s, e);
    } else {
      match e
      case Wake(cause) => assert Apply(s, e) == Woke(s, cause);
      case Step => SteppedRank(s, id);
      case _ =>
    }
  }

  function LoopEvents(events: seq<Event>): nat {
    if events == [] then 0 else (if IsLoopEvent(events[0]) then 1 else 0) + LoopEvents(events[1..])
  }

  /** `id` waits throughout and the loop does not stop. */
  predicate WaitsThroughout(s: State, events: seq<Event>, id: nat)
    requires Possible(s, events)
    decreases |events|
  {
    && Waits(s, id) && !Stopped(s.loop)
    && (events == [] || WaitsThroughout(Apply(s, events[0]), events[1..], id))
  }

  /**
   Bounded waiting: as long as a waiter has no answer and the loop does not stop, the loop makes
   at most thirteen steps, and one more for each thing its surroundings do meanwhile.
   */
  lemma {:induction false} BoundedWait(s: State, events: seq<Event>, id: nat)
    requires Inv(s) && Possible(s, events) && WaitsThroughout(s, events, id)
    ensures LoopEvents(events) <= Rank(s) + (|events| - LoopEvents(events))
    ensures Rank(s) <= 13
    decreases |events|
  {
    if events != [] {
      RankStep(s, events[0], id);
      InvStep(s, events[0]);
      BoundedWait(Apply(s, events[0]), events[1..], id);
    }
  }
}
