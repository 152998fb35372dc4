/** The isolation boundary around decision providers: bounded calls, a time budget, and an answer in any case. */
module Bulkhead {
  import opened Strings
  import opened Wrappers

  datatype AbstainCode = TimedOut | ProviderError | InvalidShape | IsOverloaded

  /** The boundary's own abstention. */
  datatype Abstention = Abstention(code: AbstainCode, provider: string, version: string, decidedAt: int, latency: int)
  {
    /** The conditions of the result schema that depend on the call. */
    predicate SchemaValid()
    {
      provider != "" && version != "" && 0 <= latency
    }
  }

  /** How a provider call ends. A value that passes the schema is returned as it is. A rejection, or an
      exception while the value is inspected, carries an error that may have no text: asking for it then
      throws, as for an object without prototype. */
  datatype Outcome = Valid(value: nat) | Malformed | Rejected(hasText: bool)

  /** What the caller of `decide` gets. */
  datatype Answer = Decision(value: nat) | Abstained(result: Abstention) | Threw

  /** What a provider states about itself: a string, or some other value, with or without a text. */
  datatype Identity = Text(text: string) | Other(hasText: bool)
  {
    predicate Prints()
    {
      Text? || hasText
    }
  }

  datatype Boundary = Boundary(id: Identity, version: Identity, maxConcurrent: nat)

  function SafeIdentity(value: Identity, fallback: string): (s: string)
    requires fallback != ""
    ensures s != ""
  {
    if value.Text? && Trim(value.text) != "" then
      assert value.text != "";
      value.text
    else fallback
  }

  /** A request: its time stamp (`None` if it is no valid time) and the clock when it came. */
  datatype Request = Request(timestamp: Option<int>, startedAt: int)

  /** Builds the abstention and checks it against the schema, which throws if it does not pass. */
  function IsolationAbstain(b: Boundary, r: Request, code: AbstainCode, now: int): (a: Answer)
    ensures a.Abstained? <==> r.startedAt <= now
    ensures a.Abstained? ==> a.result.SchemaValid() && a.result.code == code && a.result.latency == now - r.startedAt
    ensures a.Abstained? ==>
              a.result.provider == if b.id.Text? && Trim(b.id.text) != "" then b.id.text else "unknown-provider"
    ensures a.Abstained? ==>
              a.result.version ==
                if b.version.Text? && Trim(b.version.text) != "" then b.version.text else "unknown-version"
    ensures a.Abstained? ==> a.result.decidedAt == if r.timestamp.Some? then r.timestamp.value else r.startedAt
    ensures !a.Abstained? ==> a == Threw
  {
    var decidedAt := match r.timestamp case Some(t) => t case None => r.startedAt;
    var result := Abstention(code, SafeIdentity(b.id, "unknown-provider"), SafeIdentity(b.version, "unknown-version"),
      decidedAt, now - r.startedAt);
    if result.SchemaValid() then Abstained(result) else Threw
  }

  /** Every reason names the provider: if its id has no text, there is no abstention to build. */
  function Abstain(b: Boundary, r: Request, code: AbstainCode, now: int): Answer
  {
    if b.id.Prints() then IsolationAbstain(b, r, code, now) else Threw
  }

  /** A first abstention that throws is caught and replaced by a provider error. */
  function Guarded(b: Boundary, r: Request, code: AbstainCode, now: int, later: int): Answer
  {
    var first := Abstain(b, r, code, now);
    if first.Threw? then Abstain(b, r, ProviderError, later) else first
  }

  /** The answer once the race is decided; `None` is the budget running out. `now` and `later` are the
      readings of the clock the answer takes, in this order. */
  function AnswerOf(b: Boundary, r: Request, outcome: Option<Outcome>, now: int, later: int): Answer
  {
    match outcome
    case None => Guarded(b, r, TimedOut, now, later)
    case Some(Valid(v)) => Decision(v)
    case Some(Malformed) => Guarded(b, r, InvalidShape, now, later)
    case Some(Rejected(hasText)) => if hasText then Abstain(b, r, ProviderError, now) else Threw
  }

  /** An abstention is in order for this outcome, but a text it needs cannot be had. */
  predicate LacksText(b: Boundary, outcome: Option<Outcome>)
  {
    match outcome
    case Some(Valid(_)) => false
    case Some(Rejected(hasText)) => !hasText || !b.id.Prints()
    case _ => !b.id.Prints()
  }

  /** The clock reads less than at the start of the call whenever the answer asks for it: once for a
      rejection, twice for a timeout or a malformed value. */
  predicate ClockWentBack(r: Request, outcome: Option<Outcome>, now: int, later: int)
  {
    match outcome
    case Some(Valid(_)) => false
    case Some(Rejected(_)) => now < r.startedAt
    case _ => now < r.startedAt && later < r.startedAt
  }

  /** Exactly when the caller gets an exception. */
  lemma ThrowsIffNoTextOrClockBack(b: Boundary, r: Request, outcome: Option<Outcome>, now: int, later: int)
    ensures AnswerOf(b, r, outcome, now, later).Threw? <==>
        LacksText(b, outcome) || ClockWentBack(r, outcome, now, later)
  {
    if outcome.Some? && outcome.value.Rejected? {
      assert IsolationAbstain(b, r, ProviderError, now).Threw? <==> now < r.startedAt;
    }
  }

  /** A provider that rejects with an error without text makes the boundary throw under any clock. */
  lemma TextlessErrorThrows(b: Boundary, r: Request, now: int, later: int)
    ensures AnswerOf(b, r, Some(Rejected(false)), now, later) == Threw
  {
  }

  /** With a clock that does not go back, the answer is the provider's valid decision, an exception exactly
      for want of a text, and otherwise a schema-valid abstention that names the cause. */
  lemma AnswerIsValid(b: Boundary, r: Request, outcome: Option<Outcome>, now: int, later: int)
    requires r.startedAt <= now
    ensures var a := AnswerOf(b, r, outcome, now, later);
            if outcome.Some? && outcome.value.Valid? then a == Decision(outcome.value.value)
            else if LacksText(b, outcome) then a.Threw?
            else a.Abstained? && a.result.SchemaValid()
                 && match outcome
                    case None => a.result.code == TimedOut
                    case Some(Malformed) => a.result.code == InvalidShape
                    case Some(Rejected(_)) => a.result.code == ProviderError
  {
    if outcome.Some? && outcome.value.Rejected? {
      assert IsolationAbstain(b, r, ProviderError, now).Abstained?;
    }
  }

  // ---------------------------------------------------------------------------------------------
  // Calls over time
  // ---------------------------------------------------------------------------------------------

  /** A call waits for its race, or has its answer. */
  datatype Call = Waiting(request: Request) | Answered(answer: Answer)

  /** `activeCalls` is the boundary's counter, `running` the provider calls that have not settled;
      `admitted` and `returned` count the slots handed out and given back. */
  datatype State = State(activeCalls: int, calls: map<nat, Call>, running: set<nat>, admitted: nat, returned: nat)

  datatype Event =
    | Decide(id: nat, request: Request, now: int)
    | Settle(id: nat, outcome: Outcome, now: int, later: int)
    | Expire(id: nat, now: int, later: int)

  const INITIAL: State := State(0, map[], {}, 0, 0)

  function AfterDecide(b: Boundary, s: State, id: nat, r: Request, now: int): State
  {
    if id in s.calls then s
    else if s.activeCalls >= b.maxConcurrent then s.(calls := s.calls[id := Answered(Abstain(b, r, IsOverloaded, now))])
    else s.(activeCalls := s.activeCalls + 1, calls := s.calls[id := Waiting(r)], running := s.running + {id},
      admitted := s.admitted + 1)
  }

  function Resolve(b: Boundary, calls: map<nat, Call>, id: nat, outcome: Option<Outcome>, now: int,
        later: int): map<nat, Call>
  {
    if id in calls && calls[id].Waiting? then
      calls[id := Answered(AnswerOf(b, calls[id].request, outcome, now, later))] else calls
  }

  function Step(b: Boundary, s: State, e: Event): State
  {
    match e
    case Decide(id, r, now) => AfterDecide(b, s, id, r, now)
    case Settle(id, outcome, now, later) =>
      if id !in s.running then s
      else s.(activeCalls := s.activeCalls - 1, running := s.running - {id}, returned := s.returned + 1,
              calls := Resolve(b, s.calls, id, Some(outcome), now, later))
    case Expire(id, now, later) => s.(calls := Resolve(b, s.calls, id, None, now, later))
  }

  function Run(b: Boundary, s: State, events: seq<Event>): State
    decreases |events|
  {
    if events == [] then s else Run(b, Step(b, s, events[0]), events[1..])
  }

  /** The counter counts the unsettled provider calls, within the limit; slots handed out are given back
      or still held; who waits has a provider call running. */
  ghost predicate Safe(b: Boundary, s: State)
  {
    && s.activeCalls == |s.running| <= b.maxConcurrent
    && s.admitted == s.returned + |s.running|
    && (forall id | id in s.running :: id in s.calls)
    && (forall id | id in s.calls && s.calls[id].Waiting? :: id in s.running)
  }

  lemma StepIsSafe(b: Boundary, s: State, e: Event)
    requires Safe(b, s)
    ensures Safe(b, Step(b, s, e))
  {
    match e
    case Decide(id, _, _) =>
      assert id !in s.calls ==> |s.running + {id}| == |s.running| + 1;
    case Settle(id, _, _, _) =>
      assert id in s.running ==> |s.running - {id}| == |s.running| - 1;
    case Expire(_, _, _) =>
  }

  /** In every run the limit holds, also for calls whose callers were released by a timeout, and each
      admitted call gives back exactly one slot when its provider settles. */
  lemma {:induction false} RunsAreSafe(b: Boundary, s: State, events: seq<Event>)
    requires Safe(b, s)
    ensures Safe(b, Run(b, s, events))
    decreases |events|
  {
    if events != [] {
      StepIsSafe(b, s, events[0]);
      RunsAreSafe(b, Step(b, s, events[0]), events[1..]);
    }
  }

  /** An answer once given never changes, whatever settles or expires later. */
  lemma {:induction false} AnswersStay(b: Boundary, s: State, events: seq<Event>, id: nat)
    requires id in s.calls && s.calls[id].Answered?
    ensures id in Run(b, s, events).calls && Run(b, s, events).calls[id] == s.calls[id]
    decreases |events|
  {
    if events != [] {
      AnswersStay(b, Step(b, s, events[0]), events[1..], id);
    }
  }

  function FirstReading(e: Event): int
  {
    match e case Decide(_, r, _) => r.startedAt case Settle(_, _, now, _) => now case Expire(_, now, _) => now
  }

  function LastReading(e: Event): int
  {
    match e case Decide(_, _, now) => now case Settle(_, _, _, later) => later case Expire(_, _, later) => later
  }

  /** The clock, at `clock` before the events, never goes back while they happen. */
  ghost predicate TicksFrom(clock: int, events: seq<Event>)
    decreases |events|
  {
    events == [] || (clock <= FirstReading(events[0]) <= LastReading(events[0])
      && TicksFrom(LastReading(events[0]), events[1..]))
  }

  /** Who waits began no later than the clock reads. */
  ghost predicate StartedBy(s: State, clock: int)
  {
    forall id | id in s.calls && s.calls[id].Waiting? :: s.calls[id].request.startedAt <= clock
  }

  predicate IsAnswered(s: State, id: nat)
  {
    id in s.calls && s.calls[id].Answered?
  }

  /** The event answers the call, by an abstention that lacks a text. */
  predicate AnswersWithoutText(b: Boundary, s: State, e: Event, id: nat)
  {
    && !IsAnswered(s, id) && IsAnswered(Step(b, s, e), id)
    && match e
       case Decide(_, _, _) => !b.id.Prints()
       case Settle(_, outcome, _, _) => LacksText(b, Some(outcome))
       case Expire(_, _, _) => !b.id.Prints()
  }

  /** Somewhere among the events the call is answered for want of a text. */
  ghost predicate LacksTextIn(b: Boundary, s: State, events: seq<Event>, id: nat)
    decreases |events|
  {
    events != [] && (AnswersWithoutText(b, s, events[0], id) || LacksTextIn(b, Step(b, s, events[0]), events[1..], id))
  }

  lemma {:induction false} AnsweredLacksNothing(b: Boundary, s: State, events: seq<Event>, id: nat)
    requires IsAnswered(s, id)
    ensures !LacksTextIn(b, s, events, id)
    decreases |events|
  {
    if events != [] {
      AnsweredLacksNothing(b, Step(b, s, events[0]), events[1..], id);
    }
  }

  lemma StepThrowsIffNoText(b: Boundary, s: State, clock: int, e: Event, id: nat)
    requires StartedBy(s, clock) && clock <= FirstReading(e) <= LastReading(e)
    requires !IsAnswered(s, id) && IsAnswered(Step(b, s, e), id)
    ensures Step(b, s, e).calls[id].answer.Threw? <==> AnswersWithoutText(b, s, e, id)
  {
    match e
    case Decide(_, _, _) =>
    case Settle(_, outcome, now, later) => ThrowsIffNoTextOrClockBack(b, s.calls[id].request, Some(outcome), now,
      later);
    case Expire(_, now, later) => ThrowsIffNoTextOrClockBack(b, s.calls[id].request, None, now, later);
  }

  /** In every run whose clock does not go back, a caller gets an exception exactly if its answer is an
      abstention that lacks a text: the id of the provider, or the error it rejected with, has none. */
  lemma {:induction false} ExceptionIffNoText(b: Boundary, s: State, clock: int, events: seq<Event>, id: nat)
    requires StartedBy(s, clock) && TicksFrom(clock, events) && !IsAnswered(s, id) && IsAnswered(Run(b, s, events), id)
    ensures Run(b, s, events).calls[id].answer.Threw? <==> LacksTextIn(b, s, events, id)
    decreases |events|
  {
    var next := Step(b, s, events[0]);
    if IsAnswered(next, id) {
      StepThrowsIffNoText(b, s, clock, events[0], id);
      AnswersStay(b, next, events[1..], id);
      AnsweredLacksNothing(b, next, events[1..], id);
    } else {
      ExceptionIffNoText(b, next, LastReading(events[0]), events[1..], id);
    }
  }

  /** No settlement among the events carries an error without text. */
  ghost predicate ErrorsHaveText(events: seq<Event>)
  {
    forall i | 0 <= i < |events| :: events[i].Settle? ==> events[i].outcome != Rejected(false)
  }

  lemma {:induction false} TextsAreThere(b: Boundary, s: State, events: seq<Event>, id: nat)
    requires b.id.Prints() && ErrorsHaveText(events)
    ensures !LacksTextIn(b, s, events, id)
    decreases |events|
  {
    if events != [] {
      TextsAreThere(b, Step(b, s, events[0]), events[1..], id);
    }
  }

  /** So nobody gets an exception if the provider's id and all its errors have a text. */
  lemma NobodyGetsAnException(b: Boundary, s: State, clock: int, events: seq<Event>, id: nat)
    requires StartedBy(s, clock) && TicksFrom(clock, events) && !IsAnswered(s, id) && IsAnswered(Run(b, s, events), id)
    requires b.id.Prints() && ErrorsHaveText(events)
    ensures !Run(b, s, events).calls[id].answer.Threw?
  {
    ExceptionIffNoText(b, s, clock, events, id);
    TextsAreThere(b, s, events, id);
  }

  predicate Settles(e: Event, id: nat)
  {
    e.Settle? && e.id == id
  }

  /** Only the settlement of the provider call frees its slot: an answered caller, one that timed out for
      example, keeps it occupied through any other events. */
  lemma {:induction false} SlotIsHeldIffUnsettled(b: Boundary, s: State, events: seq<Event>, id: nat)
    requires Safe(b, s) && id in s.running
    ensures id in Run(b, s, events).running <==> forall i | 0 <= i < |events| :: !Settles(events[i], id)
    decreases |events|
  {
    if events != [] {
      var next := Step(b, s, events[0]);
      StepIsSafe(b, s, events[0]);
      assert forall i | 1 <= i < |events| :: events[i] == events[1..][i - 1];
      if Settles(events[0], id) {
        GivenBackForGood(b, next, events[1..], id);
      } else {
        SlotIsHeldIffUnsettled(b, next, events[1..], id);
        assert forall i | 0 <= i < |events[1..]| :: events[1..][i] == events[i + 1];
      }
    }
  }

  /** The event ends the race of the call: its provider settles, or its budget runs out. */
  predicate Finishes(e: Event, id: nat)
  {
    (e.Settle? || e.Expire?) && e.id == id
  }

  /** What the caller has after the events: the answer for the first one that ends the race, if any does. */
  function AnswerAfter(b: Boundary, r: Request, events: seq<Event>, id: nat): Call
    decreases |events|
  {
    if events == [] then Waiting(r)
    else if Finishes(events[0], id) then
      Answered(AnswerOf(b, r, if events[0].Settle? then Some(events[0].outcome) else None, events[0].now,
        events[0].later))
    else AnswerAfter(b, r, events[1..], id)
  }

  lemma {:induction false} FirstToFinishAnswers(b: Boundary, s: State, r: Request, events: seq<Event>, id: nat)
    requires Safe(b, s) && id in s.calls && s.calls[id] == Waiting(r)
    ensures id in Run(b, s, events).calls && Run(b, s, events).calls[id] == AnswerAfter(b, r, events, id)
    decreases |events|
  {
    if events != [] {
      var next := Step(b, s, events[0]);
      StepIsSafe(b, s, events[0]);
      if Finishes(events[0], id) {
        AnswersStay(b, next, events[1..], id);
      } else {
        FirstToFinishAnswers(b, next, r, events[1..], id);
      }
    }
  }

  /** A new call takes a slot exactly if fewer provider calls than the limit are unsettled. Then it is answered
      by whatever comes first in the events that follow, its settlement or its budget running out. Otherwise
      it is answered at once that the boundary is overloaded, and never holds a slot. */
  lemma NewCallIsAnswered(b: Boundary, s: State, id: nat, r: Request, now: int, events: seq<Event>)
    requires Safe(b, s) && id !in s.calls
    ensures var t := Step(b, s, Decide(id, r, now)); var after := Run(b, t, events);
      && (id in t.running <==> |s.running| < b.maxConcurrent)
      && id in after.calls
      && (|s.running| < b.maxConcurrent ==> after.calls[id] == AnswerAfter(b, r, events, id))
      && (b.maxConcurrent <= |s.running| ==>
            && after.calls[id].Answered? && id !in after.running
            && (b.id.Prints() && r.startedAt <= now ==>
                  after.calls[id].answer.Abstained? && after.calls[id].answer.result.code == IsOverloaded))
  {
    var t := Step(b, s, Decide(id, r, now));
    StepIsSafe(b, s, Decide(id, r, now));
    assert id !in s.running;
    if |s.running| < b.maxConcurrent {
      FirstToFinishAnswers(b, t, r, events, id);
    } else {
      AnswersStay(b, t, events, id);
      GivenBackForGood(b, t, events, id);
    }
  }

  lemma {:induction false} GivenBackForGood(b: Boundary, s: State, events: seq<Event>, id: nat)
    requires id in s.calls && id !in s.running
    ensures id !in Run(b, s, events).running
    decreases |events|
  {
    if events != [] {
      GivenBackForGood(b, Step(b, s, events[0]), events[1..], id);
    }
  }

  class IsolatedProvider {
    const boundary: Boundary
    var activeCalls: int
    ghost var calls: map<nat, Call>
    ghost var running: set<nat>
    ghost var admitted: nat
    ghost var returned: nat

    constructor (boundary: Boundary)
      requires 1 <= boundary.maxConcurrent
      ensures this.boundary == boundary && Valid() && View() == INITIAL
    {
      this.boundary := boundary;
      activeCalls, calls, running, admitted, returned := 0, map[], {}, 0, 0;
    }

    ghost function View(): State
      reads this
    {
      State(activeCalls, calls, running, admitted, returned)
    }

    ghost predicate Valid()
      reads this
    {
      Safe(boundary, View())
    }

    /** Admits the call, or answers at once that the boundary is overloaded. */
    method Begin(id: nat, r: Request, now: int) returns (answer: Option<Answer>)
      requires Valid() && id !in calls
      modifies this
      ensures Valid() && View() == Step(boundary, old(View()), Decide(id, r, now))
      ensures calls[id] == (match answer case None => Waiting(r) case Some(a) => Answered(a))
      ensures answer.None? <==> old(activeCalls) < boundary.maxConcurrent
    {
      StepIsSafe(boundary, View(), Decide(id, r, now));
      if activeCalls >= boundary.maxConcurrent {
        answer := Some(Abstain(boundary, r, IsOverloaded, now));
        calls := calls[id := Answered(answer.value)];
        return;
      }
      activeCalls := activeCalls + 1;
      calls, running, admitted := calls[id := Waiting(r)], running + {id}, admitted + 1;
      return None;
    }

    /** The provider call settles: its slot is given back, and its caller, if still waiting, is answered. */
    method ProviderSettles(id: nat, r: Request, outcome: Outcome, waiting: bool, now: int, later: int)
          returns (answer: Option<Answer>)
      requires Valid() && id in running && (waiting <==> calls[id].Waiting?) && (waiting ==> calls[id].request == r)
      modifies this
      ensures Valid() && View() == Step(boundary, old(View()), Settle(id, outcome, now, later))
      ensures answer == if waiting then Some(AnswerOf(boundary, r, Some(outcome), now, later)) else None
    {
      StepIsSafe(boundary, View(), Settle(id, outcome, now, later));
      activeCalls := activeCalls - 1;
      running, returned := running - {id}, returned + 1;
      if waiting {
        answer := Some(AnswerOf(boundary, r, Some(outcome), now, later));
        calls := calls[id := Answered(answer.value)];
      } else {
        answer := None;
      }
    }

    /** The budget of a waiting call runs out. */
    method BudgetExpires(id: nat, r: Request, now: int, later: int) returns (answer: Answer)
      requires Valid() && id in calls && calls[id] == Waiting(r)
      modifies this
      ensures Valid() && View() == Step(boundary, old(View()), Expire(id, now, later))
      ensures answer == AnswerOf(boundary, r, None, now, later)
    {
      StepIsSafe(boundary, View(), Expire(id, now, later));
      answer := AnswerOf(boundary, r, None, now, later);
      calls := calls[id := Answered(answer)];
    }
  }
}
