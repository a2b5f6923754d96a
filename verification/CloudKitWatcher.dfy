/**
 `CloudKitNotifWatcher::handle` (src/icloud/cloudkit.rs): zone notifications are gathered for
 ten seconds and handed over together by the last handler.  The handlers interleave at
 their suspension points in every possible way, and any of them may be cancelled there.
 */
module CloudKitWatcher {
  import opened Bytes

  type Zone = bytes

  function Added(zones: seq<Zone>, zone: Zone): seq<Zone> {
    if zone in zones then zones else zones + [zone]
  }

  // ----- handlers, step by step -----

  /** Where a handler waits: for the lock's release, in its sleep, for the lock again; or how it ended. */
  datatype Handler = Noted | Asleep(mine: nat) | Passed | Done(returned: seq<Zone>) | Cancelled

  datatype State = State(changed: seq<Zone>, gen: nat, handlers: map<nat, Handler>)

  datatype Event = Notify(id: nat, zone: Zone) | Count(id: nat) | Wake(id: nat) | Take(id: nat) | Cancel(id: nat)

  const START := State([], 0, map[])

  predicate Enabled(s: State, e: Event) {
    if e.Notify? then e.id !in s.handlers
    else
      && e.id in s.handlers
      && match e
         case Count(id) => s.handlers[id].Noted?
         case Wake(id) => s.handlers[id].Asleep?
         case Take(id) => s.handlers[id].Passed?
         case _ => !s.handlers[e.id].Done? && !s.handlers[e.id].Cancelled?
  }

  function Apply(s: State, e: Event): State
    requires Enabled(s, e)
  {
    match e
    case Notify(id, zone) => State(Added(s.changed, zone), s.gen, s.handlers[id := Noted])
    case Count(id) => State(s.changed, s.gen + 1, s.handlers[id := Asleep(s.gen + 1)])
    case Wake(id) => s.(handlers := s.handlers[id := if s.gen == s.handlers[id].mine then Passed else Done([])])
    case Take(id) => State([], s.gen, s.handlers[id := Done(s.changed)])
    case Cancel(id) => s.(handlers := s.handlers[id := Cancelled])
  }

  predicate Possible(s: State, events: seq<Event>)
    decreases |events|
  {
    events == [] || (Enabled(s, events[0]) && Possible(Apply(s, events[0]), events[1..]))
  }

  function Run(s: State, events: seq<Event>): State
    requires Possible(s, events)
    decreases |events|
  {
    if events == [] then s else Run(Apply(s, events[0]), events[1..])
  }

  /** What the handlers return during a run, in order. */
  function Delivered(s: State, events: seq<Event>): seq<Zone>
    requires Possible(s, events)
    decreases |events|
  {
    if events == [] then []
    else (if events[0].Take? then s.changed else []) + Delivered(Apply(s, events[0]), events[1..])
  }

  function Notified(events: seq<Event>): seq<Zone> {
    if events == [] then [] else (if events[0].Notify? then [events[0].zone] else []) + Notified(events[1..])
  }

  lemma {:induction false} RunSplit(s: State, front: seq<Event>, back: seq<Event>)
    requires Possible(s, front + back)
    ensures Possible(s, front) && Possible(Run(s, front), back)
    ensures Run(s, front + back) == Run(Run(s, front), back)
    decreases |front|
  {
    if front == [] {
      assert front + back == back;
    } else {
      assert (front + back)[1..] == front[1..] + back;
      RunSplit(Apply(s, front[0]), front[1..], back);
    }
  }

  // ----- nothing is lost, nothing is made up -----

  /**
   Over any part of any run, cancellations or not, the zones delivered or still listed at its
   end are those listed at its start or notified during it.
   */
  lemma {:induction false} ZonesConserved(s: State, events: seq<Event>)
    requires Possible(s, events)
    ensures forall z ::
      (z in Delivered(s, events) || z in Run(s, events).changed) <==> (z in s.changed || z in Notified(events))
    decreases |events|
  {
    if events != [] {
      ZonesConserved(Apply(s, events[0]), events[1..]);
    }
  }

  function Times(z: Zone, zones: seq<Zone>): nat {
    if zones == [] then 0 else (if zones[0] == z then 1 else 0) + Times(z, zones[1..])
  }

  lemma {:induction false} TimesSum(z: Zone, front: seq<Zone>, back: seq<Zone>)
    ensures Times(z, front + back) == Times(z, front) + Times(z, back)
  {
    if front == [] {
      assert front + back == back;
    } else {
      assert (front + back)[1..] == front[1..] + back;
      TimesSum(z, front[1..], back);
    }
  }

  /** A zone is delivered at most as often as it is notified. */
  lemma {:induction false} NeverTwice(s: State, events: seq<Event>, z: Zone)
    requires Possible(s, events)
    ensures Times(z, Delivered(s, events)) + Times(z, Run(s, events).changed)
         <= Times(z, s.changed) + Times(z, Notified(events))
    decreases |events|
  {
    if events != [] {
      var e, next := events[0], Apply(s, events[0]);
      NeverTwice(next, events[1..], z);
      TimesSum(z, if e.Take? then s.changed else [], Delivered(next, events[1..]));
      TimesSum(z, if e.Notify? then [e.zone] else [], Notified(events[1..]));
      if e.Notify? {
        TimesSum(z, s.changed, [e.zone]);
      }
    }
  }

  // ----- a listed zone has somebody to hand it over -----

  predicate WillTake(s: State, h: Handler) {
    h.Noted? || h == Asleep(s.gen) || h.Passed?
  }

  ghost predicate Attended(s: State) {
    s.changed != [] ==> exists id :: id in s.handlers && WillTake(s, s.handlers[id])
  }

  lemma AttendedStep(s: State, e: Event)
    requires Enabled(s, e) && !e.Cancel? && Attended(s)
    ensures Attended(Apply(s, e))
  {
    var t := Apply(s, e);
    if t.changed != [] {
      if e.Notify? || e.Count? {
        assert e.id in t.handlers && WillTake(t, t.handlers[e.id]);
      } else {
        var id :| id in s.handlers && WillTake(s, s.handlers[id]);
        assert id in t.handlers && WillTake(t, t.handlers[id]);
      }
    }
  }

  predicate WithoutCancel(events: seq<Event>) {
    forall i :: 0 <= i < |events| ==> !events[i].Cancel?
  }

  lemma {:induction false} AttendedRun(s: State, events: seq<Event>)
    requires Possible(s, events) && WithoutCancel(events) && Attended(s)
    ensures Attended(Run(s, events))
    decreases |events|
  {
    if events != [] {
      AttendedStep(s, events[0]);
      AttendedRun(Apply(s, events[0]), events[1..]);
    }
  }

  /**
   Whenever zones are listed, some handler has yet to count itself, is the last to have done
   so and asleep, or is past the check.
   */
  lemma ListedZonesAttended(events: seq<Event>)
    requires Possible(START, events) && WithoutCancel(events)
    ensures var s := Run(START, events);
      s.changed != [] ==> exists id :: id in s.handlers && WillTake(s, s.handlers[id])
  {
    AttendedRun(START, events);
  }

  ghost predicate AllEnded(s: State) {
    forall id :: id in s.handlers ==> s.handlers[id].Done? || s.handlers[id].Cancelled?
  }

  /**
   No notification is lost: once all handlers have ended, none of them cancelled, the list is
   empty and each notified zone has been returned after its notification.
   */
  lemma NoNotificationLost(events: seq<Event>, k: nat)
    requires Possible(START, events) && WithoutCancel(events) && AllEnded(Run(START, events))
    requires k < |events| && events[k].Notify?
    ensures Run(START, events).changed == []
    ensures Possible(START, events[..k]) && Possible(Run(START, events[..k]), events[k..])
    ensures events[k].zone in Delivered(Run(START, events[..k]), events[k..])
  {
    ListedZonesAttended(events);
    assert events == events[..k] + events[k..];
    RunSplit(START, events[..k], events[k..]);
    ZonesConserved(Run(START, events[..k]), events[k..]);
    assert events[k..][0] == events[k];
  }

  /** A cancelled handler can leave a zone behind with nobody to return it, until the next notification. */
  lemma CancelStrands(z: Zone)
    ensures var events := [Notify(0, z), Cancel(0)];
      Possible(START, events) && AllEnded(Run(START, events)) && Run(START, events).changed == [z]
  {
    var events := [Notify(0, z), Cancel(0)];
    var s := Apply(START, events[0]);
    assert events[1..] == [Cancel(0)] && events[1..][1..] == [];
    assert Added([], z) == [z];
    assert s == State([z], 0, map[0 := Noted]);
    var t := Apply(s, Cancel(0));
    assert Possible(t, events[1..][1..]) && Run(t, events[1..][1..]) == t;
    assert Possible(s, events[1..]) && Run(s, events[1..]) == t;
  }

  // ----- the watcher itself -----

  /**
   The fields of the watcher and the suspended calls of `handle`, each where it waits.  A method
   is what one call does between two of its suspension points.
   */
  class Watcher {
    var changedZones: seq<Zone>
    var gen: nat
    var handlers: map<nat, Handler>

    constructor ()
      ensures Now() == START
    {
      changedZones, gen, handlers := [], 0, map[];
    }

    function Now(): State
      reads this
    {
      State(changedZones, gen, handlers)
    }

    /** A notification comes in: the zone is listed unless it is already. */
    method Note(id: nat, zone: Zone)
      requires Enabled(Now(), Notify(id, zone))
      modifies this
      ensures Now() == Apply(old(Now()), Notify(id, zone))
    {
      if zone !in changedZones {
        changedZones := changedZones + [zone];
      }
      handlers := handlers[id := Noted];
    }

    /** The call takes its number and goes to sleep. */
    method Sleep(id: nat)
      requires Enabled(Now(), Count(id))
      modifies this
      ensures Now() == Apply(old(Now()), Count(id))
    {
      gen := gen + 1;
      handlers := handlers[id := Asleep(gen)];
    }

    /** The call wakes up, and returns nothing unless it was the last to go to sleep. */
    method Check(id: nat)
      requires Enabled(Now(), Wake(id))
      modifies this
      ensures Now() == Apply(old(Now()), Wake(id))
    {
      if gen != handlers[id].mine {
        handlers := handlers[id := Done([])];
      } else {
        handlers := handlers[id := Passed];
      }
    }

    /** The last call takes the whole list. */
    method TakeZones(id: nat) returns (zones: seq<Zone>)
      requires Enabled(Now(), Take(id))
      modifies this
      ensures Now() == Apply(old(Now()), Take(id))
      ensures zones == old(Now()).changed
    {
      zones, changedZones := changedZones, [];
      handlers := handlers[id := Done(zones)];
    }

    /** One section of one call; `zones` is what it returns. */
    method Step(e: Event) returns (zones: seq<Zone>)
      requires Enabled(Now(), e)
      modifies this
      ensures Now() == Apply(old(Now()), e)
      ensures zones == if e.Take? then old(Now()).changed else []
    {
      zones := [];
      match e {
        case Notify(id, zone) => Note(id, zone);
        case Count(id) => Sleep(id);
        case Wake(id) => Check(id);
        case Take(id) => zones := TakeZones(id);
        case Cancel(id) => handlers := handlers[id := Cancelled];
      }
    }

    /** The calls run interleaved as `events` says; `returned` is what they return, one after the other. */
    method Interleave(events: seq<Event>) returns (returned: seq<Zone>)
      requires Possible(Now(), events)
      modifies this
      ensures Now() == Run(old(Now()), events)
      ensures returned == Delivered(old(Now()), events)
    {
      returned := [];
      ghost var start := Now();
      assert events[0..] == events && events[..0] == [];
      for k := 0 to |events|
        invariant Midway(start, events, k, Now(), returned)
      {
        NextEvent(start, events, k, Now(), returned);
        var zones := Step(events[k]);
        returned := returned + zones;
      }
      assert events[|events|..] == [];
    }
  }

  /** After the first `k` events. */
  ghost predicate Midway(start: State, events: seq<Event>, k: nat, now: State, returned: seq<Zone>)
    requires Possible(start, events) && k <= |events|
  {
    && Possible(now, events[k..])
    && Run(now, events[k..]) == Run(start, events)
    && returned + Delivered(now, events[k..]) == Delivered(start, events)
  }

  lemma NextEvent(start: State, events: seq<Event>, k: nat, now: State, returned: seq<Zone>)
    requires Possible(start, events) && k < |events| && Midway(start, events, k, now, returned)
    ensures Enabled(now, events[k])
    ensures Midway(start, events, k + 1, Apply(now, events[k]),
                   returned + if events[k].Take? then now.changed else [])
  {
    var left := events[k..];
    assert left[0] == events[k] && left[1..] == events[k + 1..];
    var zones := if events[k].Take? then now.changed else [];
    var later := Delivered(Apply(now, left[0]), left[1..]);
    assert returned + (zones + later) == returned + zones + later;
  }
}
