/** Concurrency slots with a bounded queue: callers take a free slot, wait in line, or are turned away;
    a released slot goes straight to the first in line. */
module SlotProtocol {

  datatype Limits = Limits(max: int, maxQueue: int)

  /** `active` is the counter the clients keep. `holders` are the callers that were granted a slot and
      have not released it, `granted` all grants in their order, `seen` every caller so far. */
  datatype State = State(active: int, waiters: seq<nat>, holders: set<nat>, granted: seq<nat>, seen: set<nat>)

  /** A caller asks once, may give up while it waits, and releases what it was granted. */
  datatype Event = Acquire(id: nat) | GiveUp(id: nat) | Release(id: nat)

  function Max(a: int, b: int): int
  {
    if a < b then b else a
  }

  const INITIAL: State := State(0, [], {}, [], {})

  function Grant(s: State, id: nat): State
  {
    s.(holders := s.holders + {id}, granted := s.granted + [id])
  }

  function AfterAcquire(l: Limits, s: State, id: nat): State
  {
    var s' := s.(seen := s.seen + {id});
    if id in s.seen then s
    else if s.active < l.max then Grant(s'.(active := s.active + 1), id)
    else if |s.waiters| >= l.maxQueue then s'
    else s'.(waiters := s.waiters + [id])
  }

  function Position(waiters: seq<nat>, id: nat): (i: nat)
    ensures i <= |waiters| && (i < |waiters| ==> waiters[i] == id) && forall j | 0 <= j < i :: waiters[j] != id
    ensures i < |waiters| <==> id in waiters
  {
    if waiters == [] || waiters[0] == id then 0 else 1 + Position(waiters[1..], id)
  }

  function Leave(waiters: seq<nat>, id: nat): seq<nat>
  {
    var i := Position(waiters, id);
    if i < |waiters| then waiters[..i] + waiters[i + 1..] else waiters
  }

  function AfterRelease(s: State, id: nat): State
  {
    if id !in s.holders then s
    else
      var s' := s.(holders := s.holders - {id});
      if s.waiters == [] then s'.(active := s.active - 1) else Grant(s'.(waiters := s.waiters[1..]), s.waiters[0])
  }

  function Step(l: Limits, s: State, e: Event): State
  {
    match e
    case Acquire(id) => AfterAcquire(l, s, id)
    case GiveUp(id) => s.(waiters := Leave(s.waiters, id))
    case Release(id) => AfterRelease(s, id)
  }

  /** The state after any interleaving of events. */
  function Run(l: Limits, s: State, events: seq<Event>): State
    decreases |events|
  {
    if events == [] then s else Run(l, Step(l, s, events[0]), events[1..])
  }

  // ---------------------------------------------------------------------------------------------
  // Safety
  // ---------------------------------------------------------------------------------------------

  ghost predicate NoRepeats(s: seq<nat>)
  {
    forall i, j | 0 <= i < j < |s| :: s[i] != s[j]
  }

  /** The counter counts the holders, both bounds hold, and nobody waits while a slot is free. */
  ghost predicate Safe(l: Limits, s: State)
  {
    && s.active == |s.holders| <= Max(l.max, 0)
    && |s.waiters| <= Max(l.maxQueue, 0)
    && (s.waiters != [] ==> l.max <= s.active)
    && NoRepeats(s.waiters) && NoRepeats(s.granted)
    && (forall id | id in s.waiters :: id in s.seen && id !in s.granted)
    && (forall id | id in s.granted :: id in s.seen)
    && (forall id | id in s.holders :: id in s.granted)
  }

  lemma RemovalKeepsOthers(waiters: seq<nat>, i: nat)
    requires NoRepeats(waiters) && i < |waiters|
    ensures var rest := waiters[..i] + waiters[i + 1..];
            NoRepeats(rest) && forall x :: x in rest <==> x in waiters && x != waiters[i]
  {
    var rest := waiters[..i] + waiters[i + 1..];
    assert forall k | 0 <= k < |rest| :: rest[k] == waiters[if k < i then k else k + 1];
    assert forall j | 0 <= j < |waiters| && j != i :: waiters[j] == rest[if j < i then j else j - 1];
  }

  lemma LeaveKeepsOthers(waiters: seq<nat>, id: nat)
    requires NoRepeats(waiters)
    ensures NoRepeats(Leave(waiters, id)) && |Leave(waiters, id)| <= |waiters|
    ensures forall x :: x in Leave(waiters, id) <==> x in waiters && x != id
  {
    var i := Position(waiters, id);
    if i < |waiters| {
      RemovalKeepsOthers(waiters, i);
    }
  }

  lemma AppendKeepsDistinct(s: seq<nat>, id: nat)
    requires NoRepeats(s) && id !in s
    ensures NoRepeats(s + [id]) && forall x :: x in s + [id] <==> x in s || x == id
  {
  }

  lemma GrantIsSafe(l: Limits, s: State, id: nat)
    requires NoRepeats(s.granted) && id !in s.granted && id in s.seen
    requires (forall x | x in s.granted :: x in s.seen) && forall x | x in s.holders :: x in s.granted
    ensures NoRepeats(Grant(s, id).granted) && |Grant(s, id).holders| == |s.holders| + 1
    ensures (forall x | x in Grant(s, id).granted :: x in s.seen) && forall x | x in Grant(s, id).holders ::
        x in Grant(s, id).granted
  {
    AppendKeepsDistinct(s.granted, id);
  }

  lemma AcquireIsSafe(l: Limits, s: State, id: nat)
    requires Safe(l, s)
    ensures Safe(l, AfterAcquire(l, s, id))
  {
    if id !in s.seen {
      assert id !in s.waiters && id !in s.granted;
      if s.active < l.max {
        GrantIsSafe(l, s.(seen := s.seen + {id}, active := s.active + 1), id);
      } else {
        AppendKeepsDistinct(s.waiters, id);
      }
    }
  }

  lemma ReleaseIsSafe(l: Limits, s: State, id: nat)
    requires Safe(l, s)
    ensures Safe(l, AfterRelease(s, id))
  {
    if id in s.holders {
      assert |s.holders - {id}| == |s.holders| - 1;
      if s.waiters != [] {
        assert s.waiters[0] in s.waiters;
        assert forall x | x in s.waiters[1..] :: x in s.waiters && x != s.waiters[0];
        GrantIsSafe(l, s.(holders := s.holders - {id}, waiters := s.waiters[1..]), s.waiters[0]);
      }
    }
  }

  lemma StepIsSafe(l: Limits, s: State, e: Event)
    requires Safe(l, s)
    ensures Safe(l, Step(l, s, e))
  {
    match e
    case Acquire(id) => AcquireIsSafe(l, s, id);
    case GiveUp(id) => LeaveKeepsOthers(s.waiters, id);
    case Release(id) => ReleaseIsSafe(l, s, id);
  }

  lemma {:induction false} RunsAreSafe(l: Limits, s: State, events: seq<Event>)
    requires Safe(l, s)
    ensures Safe(l, Run(l, s, events))
    decreases |events|
  {
    if events != [] {
      StepIsSafe(l, s, events[0]);
      RunsAreSafe(l, Step(l, s, events[0]), events[1..]);
    }
  }

  // ---------------------------------------------------------------------------------------------
  // Fairness
  // ---------------------------------------------------------------------------------------------

  /** How many slots are released along the run. */
  function Releases(l: Limits, s: State, events: seq<Event>): nat
    decreases |events|
  {
    if events == [] then 0
    else
      (if events[0].Release? && events[0].id in s.holders then 1 else 0)
      + Releases(l, Step(l, s, events[0]), events[1..])
  }

  lemma PositionIs(waiters: seq<nat>, i: nat)
    requires NoRepeats(waiters) && i < |waiters|
    ensures Position(waiters, waiters[i]) == i
  {
  }

  /** When another waiter leaves, those behind it move up by one place. */
  lemma LeaveMovesUp(waiters: seq<nat>, other: nat, id: nat)
    requires NoRepeats(waiters) && id in waiters && id != other
    ensures id in Leave(waiters, other)
    ensures Position(Leave(waiters, other), id) ==
        Position(waiters, id) - if Position(waiters, other) < Position(waiters, id) then 1 else 0
  {
    LeaveKeepsOthers(waiters, other);
    var i, k := Position(waiters, id), Position(waiters, other);
    if k < |waiters| {
      var j := if i < k then i else i - 1;
      assert Leave(waiters, other)[j] == id;
      PositionIs(Leave(waiters, other), j);
    }
  }

  lemma FirstLeaves(waiters: seq<nat>, id: nat)
    requires NoRepeats(waiters) && id in waiters && id != waiters[0]
    ensures id in waiters[1..] && Position(waiters[1..], id) == Position(waiters, id) - 1
  {
  }

  lemma AppendKeepsPlaces(waiters: seq<nat>, more: seq<nat>, id: nat)
    requires id in waiters
    ensures Position(waiters + more, id) == Position(waiters, id)
  {
    var i, j := Position(waiters, id), Position(waiters + more, id);
    assert (waiters + more)[i] == id;
    assert j <= i;
    assert waiters[j] == (waiters + more)[j];
  }

  /** One step moves a waiter up by the releases it sees, unless the waiter is served or gives up. */
  lemma StepMovesUp(l: Limits, s: State, e: Event, id: nat)
    requires Safe(l, s) && id in s.waiters && e != GiveUp(id)
    ensures var s' := Step(l, s, e); var released := if e.Release? && e.id in s.holders then 1 else 0;
            if id in s'.waiters then Position(s'.waiters, id) + released <= Position(s.waiters, id) && id !in s'.granted
            else id in s'.granted
  {
    StepIsSafe(l, s, e);
    match e
    case Acquire(other) => AppendKeepsPlaces(s.waiters, [other], id);
    case GiveUp(other) => LeaveMovesUp(s.waiters, other, id);
    case Release(other) =>
      if other in s.holders && id != s.waiters[0] {
        FirstLeaves(s.waiters, id);
      }
  }

  lemma {:induction false} GrantsStay(l: Limits, s: State, events: seq<Event>, id: nat)
    requires id in s.granted
    ensures id in Run(l, s, events).granted
    decreases |events|
  {
    if events != [] {
      GrantsStay(l, Step(l, s, events[0]), events[1..], id);
    }
  }

  /** In every continuation a waiter gives up, is granted a slot, or has moved up by one place for every
      slot released: from place `i` it is served after at most `i + 1` releases. */
  lemma {:induction false} WaiterIsServed(l: Limits, s: State, events: seq<Event>, id: nat)
    requires Safe(l, s) && id in s.waiters
    ensures || GiveUp(id) in events
            || id in Run(l, s, events).granted
            || (id in Run(l, s, events).waiters
                && Position(Run(l, s, events).waiters, id) + Releases(l, s, events) <= Position(s.waiters, id))
    ensures Position(s.waiters, id) < Releases(l, s, events) ==> GiveUp(id) in events || id in Run(l, s, events).granted
    decreases |events|
  {
    if events != [] && events[0] != GiveUp(id) {
      var s' := Step(l, s, events[0]);
      StepMovesUp(l, s, events[0], id);
      StepIsSafe(l, s, events[0]);
      if id in s'.waiters {
        WaiterIsServed(l, s', events[1..], id);
      } else {
        GrantsStay(l, s', events[1..], id);
      }
    }
  }

  /** `b` comes after `a`: behind it in the queue, or not yet there at all. */
  ghost predicate Behind(s: State, a: nat, b: nat)
  {
    && a in s.waiters && b !in s.granted
    && (b in s.waiters ==> Position(s.waiters, a) < Position(s.waiters, b))
  }

  lemma StepKeepsBehind(l: Limits, s: State, e: Event, a: nat, b: nat)
    requires Safe(l, s) && Behind(s, a, b) && a in Step(l, s, e).waiters
    ensures Behind(Step(l, s, e), a, b)
  {
    StepIsSafe(l, s, e);
    match e
    case Acquire(other) =>
      AppendKeepsPlaces(s.waiters, [other], a);
      if b in s.waiters {
        AppendKeepsPlaces(s.waiters, [other], b);
      }
    case GiveUp(other) => LeaveKeepsBehind(l, s, other, a, b);
    case Release(other) => ReleaseKeepsBehind(l, s, other, a, b);
  }

  lemma LeaveKeepsBehind(l: Limits, s: State, other: nat, a: nat, b: nat)
    requires Safe(l, s) && Behind(s, a, b) && a in Leave(s.waiters, other)
    ensures Behind(s.(waiters := Leave(s.waiters, other)), a, b)
  {
    LeaveKeepsOthers(s.waiters, other);
    LeaveMovesUp(s.waiters, other, a);
    if b in s.waiters && b != other {
      LeaveMovesUp(s.waiters, other, b);
    }
  }

  lemma ReleaseKeepsBehind(l: Limits, s: State, other: nat, a: nat, b: nat)
    requires Safe(l, s) && Behind(s, a, b) && a in AfterRelease(s, other).waiters
    ensures Behind(AfterRelease(s, other), a, b)
  {
    if other in s.holders {
      assert a != s.waiters[0] && b != s.waiters[0];
      FirstLeaves(s.waiters, a);
      if b in s.waiters {
        FirstLeaves(s.waiters, b);
      }
    }
  }

  /** First come, first served among those who stay: in every continuation, nobody who came later is
      granted a slot while the earlier one still waits. */
  lemma {:induction false} ServedInOrder(l: Limits, s: State, events: seq<Event>, a: nat, b: nat)
    requires Safe(l, s) && Behind(s, a, b)
    ensures a in Run(l, s, events).waiters ==> b !in Run(l, s, events).granted
    decreases |events|
  {
    if events != [] {
      var s' := Step(l, s, events[0]);
      StepIsSafe(l, s, events[0]);
      if a in s'.waiters {
        StepKeepsBehind(l, s, events[0], a, b);
        ServedInOrder(l, s', events[1..], a, b);
      } else {
        GoneStaysGone(l, s', events[1..], a);
      }
    }
  }

  /** A caller asks once only, so who left the queue does not return to it. */
  lemma {:induction false} GoneStaysGone(l: Limits, s: State, events: seq<Event>, id: nat)
    requires Safe(l, s) && id in s.seen && id !in s.waiters
    ensures id !in Run(l, s, events).waiters
    ensures id in Run(l, s, events).granted <==> id in s.granted
    decreases |events|
  {
    if events != [] {
      var s' := Step(l, s, events[0]);
      StepIsSafe(l, s, events[0]);
      match events[0] {
        case Acquire(_) =>
        case GiveUp(other) => LeaveKeepsOthers(s.waiters, other);
        case Release(_) =>
      }
      GoneStaysGone(l, s', events[1..], id);
    }
  }

  // ---------------------------------------------------------------------------------------------
  // New callers and those that give up
  // ---------------------------------------------------------------------------------------------

  /** A new caller is granted a slot exactly if one is free, waits at the end of the queue exactly if none
      is and the queue has room, and is turned away otherwise. */
  ghost predicate IsAdmitted(l: Limits, s: State, id: nat, t: State)
  {
    && (id in t.holders <==> s.active < l.max)
    && (id in t.waiters <==> l.max <= s.active && |s.waiters| < l.maxQueue)
    && t.granted == s.granted + (if s.active < l.max then [id] else [])
    && t.waiters == s.waiters + (if l.max <= s.active && |s.waiters| < l.maxQueue then [id] else [])
    && t.active == s.active + (if s.active < l.max then 1 else 0)
  }

  /** So a new caller that finds a free slot or room in the queue gets a slot in every continuation in which it
      does not give up and as many slots are released as waited before it, and one more; any other new caller
      never gets one. */
  lemma NewCallerIsServed(l: Limits, s: State, id: nat, events: seq<Event>)
    requires Safe(l, s) && id !in s.seen
    ensures var t := Step(l, s, Acquire(id));
      && IsAdmitted(l, s, id, t)
      && (s.active < l.max ==> id in Run(l, t, events).granted)
      && (|s.waiters| < l.maxQueue && |s.waiters| < Releases(l, t, events) ==>
            GiveUp(id) in events || id in Run(l, t, events).granted)
      && (l.max <= s.active && l.maxQueue <= |s.waiters| ==> id !in Run(l, t, events).granted)
  {
    var t := Step(l, s, Acquire(id));
    StepIsSafe(l, s, Acquire(id));
    assert id !in s.waiters && id !in s.granted && id !in s.holders;
    if s.active < l.max {
      GrantsStay(l, t, events, id);
    } else if |s.waiters| < l.maxQueue {
      PositionIs(t.waiters, |s.waiters|);
      WaiterIsServed(l, t, events, id);
    } else {
      GoneStaysGone(l, t, events, id);
    }
  }

  /** A caller that gives up while it waits is never granted a slot, and nobody else loses the place. */
  lemma GivenUpIsNeverGranted(l: Limits, s: State, id: nat, events: seq<Event>)
    requires Safe(l, s) && id in s.waiters
    ensures var t := Step(l, s, GiveUp(id));
      && id !in Run(l, t, events).granted && id !in Run(l, t, events).waiters
      && (forall x :: x in t.waiters <==> x in s.waiters && x != id)
      && t == s.(waiters := t.waiters)
  {
    var t := Step(l, s, GiveUp(id));
    StepIsSafe(l, s, GiveUp(id));
    LeaveKeepsOthers(s.waiters, id);
    GoneStaysGone(l, t, events, id);
  }
}

/** The two clients that run the protocol. */
module SlotClients {
  import opened SlotProtocol

  datatype Answer = Granted | Queued | Overloaded | TimedOut

  /** The Flink REST client: the caller's abort signal ends its wait. */
  class FlinkSlots {
    const maxConcurrency: int
    const maxQueue: int
    var active: int
    var waiters: seq<nat>
    ghost var holders: set<nat>
    ghost var granted: seq<nat>
    ghost var seen: set<nat>

    constructor (maxConcurrency: int, maxQueue: int)
      ensures this.maxConcurrency == maxConcurrency && this.maxQueue == maxQueue
      ensures Valid() && View() == INITIAL
    {
      this.maxConcurrency, this.maxQueue := maxConcurrency, maxQueue;
      active, waiters, holders, granted, seen := 0, [], {}, [], {};
    }

    ghost function Bounds(): Limits { Limits(maxConcurrency, maxQueue) }

    ghost function View(): State
      reads this
    {
      State(active, waiters, holders, granted, seen)
    }

    ghost predicate Valid()
      reads this
    {
      Safe(Bounds(), View())
    }

    /** A caller whose signal is already aborted is turned away before anything else. */
    method Acquire(id: nat, aborted: bool) returns (answer: Answer)
      requires Valid() && id !in seen
      modifies this
      ensures Valid()
      ensures if aborted then View() == old(View()) && answer == TimedOut
              else View() == Step(Bounds(), old(View()), SlotProtocol.Acquire(id))
      ensures answer == TimedOut <==> aborted
      ensures answer == Granted <==> !aborted && old(active) < maxConcurrency
      ensures answer == Queued <==> !aborted && maxConcurrency <= old(active) && old(|waiters|) < maxQueue
      ensures holders == if answer == Granted then old(holders) + {id} else old(holders)
      ensures waiters == if answer == Queued then old(waiters) + [id] else old(waiters)
    {
      if aborted {
        return TimedOut;
      }
      StepIsSafe(Bounds(), View(), SlotProtocol.Acquire(id));
      assert id !in granted && id !in waiters && id !in holders;
      seen := seen + {id};
      if active < maxConcurrency {
        active := active + 1;
        holders, granted := holders + {id}, granted + [id];
        return Granted;
      }
      if |waiters| >= maxQueue {
        return Overloaded;
      }
      waiters := waiters + [id];
      return Queued;
    }

    /** The signal of a waiting caller is aborted. */
    method Abort(id: nat)
      requires Valid()
      modifies this`waiters
      ensures Valid() && View() == Step(Bounds(), old(View()), GiveUp(id))
    {
      StepIsSafe(Bounds(), View(), GiveUp(id));
      var i := Position(waiters, id);
      if i < |waiters| {
        waiters := waiters[..i] + waiters[i + 1..];
      }
    }

    /** Hands the slot over to the first waiter, or frees it. */
    method Release(ghost caller: nat)
      requires Valid() && caller in holders
      modifies this
      ensures Valid() && View() == Step(Bounds(), old(View()), SlotProtocol.Release(caller))
    {
      StepIsSafe(Bounds(), View(), SlotProtocol.Release(caller));
      holders := holders - {caller};
      if waiters != [] {
        holders, granted := holders + {waiters[0]}, granted + [waiters[0]];
        waiters := waiters[1..];
      } else {
        active := active - 1;
      }
    }
  }

  /** The upstream HTTP client: a timer ends the wait, and the limits are clamped to usable ones. */
  class UpstreamSlots {
    const maxConcurrent: int
    const maxQueued: int
    var inFlight: int
    var waiters: seq<nat>
    ghost var holders: set<nat>
    ghost var granted: seq<nat>
    ghost var seen: set<nat>

    constructor (maxConcurrent: int, maxQueued: int)
      ensures Bounds() == Limits(Max(1, maxConcurrent), Max(0, maxQueued))
      ensures Valid() && View() == INITIAL
    {
      this.maxConcurrent, this.maxQueued := Max(1, maxConcurrent), Max(0, maxQueued);
      inFlight, waiters, holders, granted, seen := 0, [], {}, [], {};
    }

    ghost function Bounds(): Limits { Limits(maxConcurrent, maxQueued) }

    ghost function View(): State
      reads this
    {
      State(inFlight, waiters, holders, granted, seen)
    }

    ghost predicate Valid()
      reads this
    {
      Safe(Bounds(), View())
    }

    method Acquire(id: nat) returns (answer: Answer)
      requires Valid() && id !in seen
      modifies this
      ensures Valid() && View() == Step(Bounds(), old(View()), SlotProtocol.Acquire(id))
      ensures answer != TimedOut
      ensures answer == Granted <==> old(inFlight) < maxConcurrent
      ensures answer == Queued <==> maxConcurrent <= old(inFlight) && old(|waiters|) < maxQueued
      ensures holders == if answer == Granted then old(holders) + {id} else old(holders)
      ensures waiters == if answer == Queued then old(waiters) + [id] else old(waiters)
    {
      StepIsSafe(Bounds(), View(), SlotProtocol.Acquire(id));
      assert id !in granted && id !in waiters && id !in holders;
      seen := seen + {id};
      if inFlight < maxConcurrent {
        inFlight := inFlight + 1;
        holders, granted := holders + {id}, granted + [id];
        return Granted;
      }
      if |waiters| >= maxQueued {
        return Overloaded;
      }
      waiters := waiters + [id];
      return Queued;
    }

    /** The timer of a waiting caller runs out. */
    method Expire(id: nat)
      requires Valid()
      modifies this`waiters
      ensures Valid() && View() == Step(Bounds(), old(View()), GiveUp(id))
    {
      StepIsSafe(Bounds(), View(), GiveUp(id));
      var i := Position(waiters, id);
      if i < |waiters| {
        waiters := waiters[..i] + waiters[i + 1..];
      }
    }

    method Release(ghost caller: nat)
      requires Valid() && caller in holders
      modifies this
      ensures Valid() && View() == Step(Bounds(), old(View()), SlotProtocol.Release(caller))
    {
      StepIsSafe(Bounds(), View(), SlotProtocol.Release(caller));
      holders := holders - {caller};
      if waiters != [] {
        holders, granted := holders + {waiters[0]}, granted + [waiters[0]];
        waiters := waiters[1..];
      } else {
        inFlight := inFlight - 1;
      }
    }
  }
}
