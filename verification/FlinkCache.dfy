/** The single-flight cache of the Flink adapter: one load at a time, its result kept for the time the load allows. */
module SingleFlight {
  import opened Wrappers

  datatype Entry<T> = Entry(value: T, expiresAt: int)

  /** `inflight` is the load that calls join. `running` are the loads that have not settled. */
  datatype State<T> = State(entry: Option<Entry<T>>, inflight: Option<nat>, loads: nat, running: set<nat>)

  /** A load first stores its result (or fails), and is let go a little later. */
  datatype Event<T> =
    | Get(now: int)
    | Succeed(load: nat, value: T, ttl: int, now: int)
    | Fail(load: nat)
    | Clear(load: nat)

  function Initial<T>(): State<T>
  {
    State(None, None, 0, {})
  }

  predicate IsFresh<T>(s: State<T>, now: int)
  {
    s.entry.Some? && now < s.entry.value.expiresAt
  }

  function AfterGet<T>(s: State<T>, now: int): State<T>
  {
    if IsFresh(s, now) || s.inflight.Some? then s
    else s.(inflight := Some(s.loads), loads := s.loads + 1, running := s.running + {s.loads})
  }

  function Step<T>(s: State<T>, e: Event<T>): State<T>
  {
    match e
    case Get(now) => AfterGet(s, now)
    case Succeed(load, value, ttl, now) =>
      if load in s.running then s.(entry := Some(Entry(value, now + ttl)), running := s.running - {load}) else s
    case Fail(load) => s.(running := s.running - {load})
    case Clear(load) => if load !in s.running && s.inflight == Some(load) then s.(inflight := None) else s
  }

  function Run<T>(s: State<T>, events: seq<Event<T>>): State<T>
    decreases |events|
  {
    if events == [] then s else Run(Step(s, events[0]), events[1..])
  }

  /** Only the load that calls join can be running. */
  predicate Single<T>(s: State<T>)
  {
    s.running <= (match s.inflight case Some(load) => {load} case None => {})
      && (forall load | load in s.running :: load < s.loads)
  }

  lemma {:induction false} RunsAreSingle<T>(s: State<T>, events: seq<Event<T>>)
    requires Single(s)
    ensures Single(Run(s, events))
    decreases |events|
  {
    if events != [] {
      RunsAreSingle(Step(s, events[0]), events[1..]);
    }
  }

  /** Never two loads at once, in any run. */
  lemma OneLoadAtATime<T>(events: seq<Event<T>>, a: nat, b: nat)
    requires a in Run(Initial(), events).running && b in Run(Initial(), events).running
    ensures a == b
  {
    RunsAreSingle(Initial<T>(), events);
  }

  /** The clock readings of the events all lie before `end`. */
  predicate ReadsBefore<T>(events: seq<Event<T>>, end: int)
  {
    forall i | 0 <= i < |events| && events[i].Get? :: events[i].now < end
  }

  lemma {:induction false} NoLoadWhileFresh<T>(s: State<T>, events: seq<Event<T>>, end: int)
    requires s.running == {} && s.entry.Some? && s.entry.value.expiresAt == end && ReadsBefore(events, end)
    ensures Run(s, events).loads == s.loads && Run(s, events).entry == s.entry
    decreases |events|
  {
    if events != [] {
      NoLoadWhileFresh(Step(s, events[0]), events[1..], end);
    }
  }

  /** After a load succeeds at time `now` with time to live `ttl`, no load starts and the value stays, for as
      long as the clock reads less than `now + ttl`. */
  lemma NoLoadBeforeExpiry<T>(s: State<T>, load: nat, value: T, ttl: int, now: int, events: seq<Event<T>>)
    requires Single(s) && load in s.running && ReadsBefore(events, now + ttl)
    ensures var s' := Step(s, Succeed(load, value, ttl, now));
            Run(s', events).loads == s.loads && Run(s', events).entry == Some(Entry(value, now + ttl))
  {
    var s' := Step(s, Succeed(load, value, ttl, now));
    assert s'.running == {};
    NoLoadWhileFresh(s', events, now + ttl);
  }

  /** Whatever was kept before has run out at all readings of the clock. */
  predicate ReadsAfterExpiry<T>(entry: Option<Entry<T>>, events: seq<Event<T>>)
  {
    entry.Some? ==> forall i | 0 <= i < |events| && events[i].Get? :: entry.value.expiresAt <= events[i].now
  }

  lemma {:induction false} LoadsOnlyGrow<T>(s: State<T>, events: seq<Event<T>>)
    ensures s.loads <= Run(s, events).loads
    decreases |events|
  {
    if events != [] {
      LoadsOnlyGrow(Step(s, events[0]), events[1..]);
    }
  }

  /** With nothing in flight, running or fresh, a call among the events starts a load. */
  lemma {:induction false} IdleCallStartsLoad<T>(s: State<T>, events: seq<Event<T>>)
    requires s.running == {} && s.inflight.None? && ReadsAfterExpiry(s.entry, events) && exists i ::
        0 <= i < |events| && events[i].Get?
    ensures s.loads < Run(s, events).loads
    decreases |events|
  {
    assert forall i | 1 <= i < |events| :: events[i] == events[1..][i - 1];
    if events[0].Get? {
      LoadsOnlyGrow(Step(s, events[0]), events[1..]);
    } else {
      IdleCallStartsLoad(Step(s, events[0]), events[1..]);
    }
  }

  lemma {:induction false} SettledIsJoinedUntilLetGo<T>(s: State<T>, load: nat, events: seq<Event<T>>, now: int)
    requires s.running == {} && s.inflight == Some(load) && ReadsAfterExpiry(s.entry, events + [Get(now)])
    ensures s.loads < Run(s, events + [Get(now)]).loads <==> Clear(load) in events
    decreases |events|
  {
    var all := events + [Get(now)];
    if events == [] {
      assert all[1..] == [];
    } else {
      assert all[1..] == events[1..] + [Get(now)];
      assert forall i | 1 <= i < |all| :: all[i] == all[1..][i - 1];
      if events[0] == Clear(load) {
        assert all[1..][|events| - 1] == Get(now);
        IdleCallStartsLoad(Step(s, events[0]), all[1..]);
      } else {
        assert events == [events[0]] + events[1..];
        SettledIsJoinedUntilLetGo(Step(s, events[0]), load, events[1..], now);
      }
    }
  }

  /** A failed load leaves nothing behind. Whatever happens after the failure, calls up to the one at `now`
      have started a new load exactly if the failed one has been let go; until then they join it. */
  lemma FailureIsNotKept<T>(s: State<T>, load: nat, events: seq<Event<T>>, now: int)
    requires Single(s) && load in s.running && ReadsAfterExpiry(s.entry, events + [Get(now)])
    ensures s.loads < Run(Step(s, Fail(load)), events + [Get(now)]).loads <==> Clear(load) in events
  {
    assert s.inflight == Some(load);
    SettledIsJoinedUntilLetGo(Step(s, Fail(load)), load, events, now);
  }

  /** Nor does a success that may not be kept, as that of a snapshot with a transient failure: with a clock
      that does not go back, later calls have started a new load exactly if the finished one has been let go. */
  lemma UncachedSuccessIsNotKept<T>(s: State<T>, load: nat, value: T, ttl: int, now: int, events: seq<Event<T>>,
        later: int)
    requires Single(s) && load in s.running && ttl <= 0
    requires now <= later && forall i | 0 <= i < |events| && events[i].Get? :: now <= events[i].now
    ensures s.loads < Run(Step(s, Succeed(load, value, ttl, now)), events + [Get(later)]).loads <==>
        Clear(load) in events
  {
    assert s.inflight == Some(load);
    SettledIsJoinedUntilLetGo(Step(s, Succeed(load, value, ttl, now)), load, events, later);
  }

  class SingleFlightCache<T> {
    var entry: Option<Entry<T>>
    var inflight: Option<nat>
    var loads: nat
    ghost var running: set<nat>

    constructor ()
      ensures View() == Initial()
    {
      entry, inflight, loads, running := None, None, 0, {};
    }

    ghost function View(): State<T>
      reads this
    {
      State(entry, inflight, loads, running)
    }

    /** The kept value, or the load to wait for. */
    method Fetch(now: int) returns (value: Option<T>, load: Option<nat>)
      modifies this
      ensures View() == AfterGet(old(View()), now)
      ensures value == if IsFresh(old(View()), now) then Some(old(entry).value.value) else None
      ensures load == if IsFresh(old(View()), now) then None else inflight
    {
      if entry.Some? && now < entry.value.expiresAt {
        return Some(entry.value.value), None;
      }
      if inflight.None? {
        inflight := Some(loads);
        running := running + {loads};
        loads := loads + 1;
      }
      return None, inflight;
    }

    method Store(load: nat, value: T, ttl: int, now: int)
      requires load in running
      modifies this
      ensures View() == Step(old(View()), Succeed(load, value, ttl, now))
    {
      entry := Some(Entry(value, now + ttl));
      running := running - {load};
    }

    method LetGo(load: nat)
      requires load !in running
      modifies this
      ensures View() == Step(old(View()), Clear(load))
    {
      if inflight == Some(load) {
        inflight := None;
      }
    }
  }
}

/** A bounded number of workers that share a counter and process the items of a list. */
module LimitedMap {
  import opened Wrappers

  datatype Worker = Ready | Busy(index: nat) | Stopped

  datatype State<R> = State(next: nat, workers: seq<Worker>, out: seq<Option<R>>)

  /** A ready worker takes the next item or stops; a busy one delivers its result. */
  datatype Event<R> = Take(worker: nat) | Deliver(worker: nat, result: R)

  function Initial<R>(count: nat, limit: int): State<R>
  {
    var workers := if limit < 0 then 0 else if limit < count then limit else count;
    State(0, seq(workers, i => Ready), seq(count, i => None))
  }

  function Step<R>(s: State<R>, e: Event<R>): State<R>
  {
    if e.worker >= |s.workers| then s
    else
      match e
      case Take(w) =>
        if s.workers[w] != Ready then s
        else if s.next < |s.out| then s.(workers := s.workers[w := Busy(s.next)], next := s.next + 1)
        else s.(workers := s.workers[w := Stopped])
      case Deliver(w, r) =>
        if s.workers[w].Busy? && s.workers[w].index < |s.out| then
          s.(workers := s.workers[w := Ready], out := s.out[s.workers[w].index := Some(r)])
        else s
  }

  function Run<R>(s: State<R>, events: seq<Event<R>>): State<R>
    decreases |events|
  {
    if events == [] then s else Run(Step(s, events[0]), events[1..])
  }

  ghost predicate IsBusyWith<R>(s: State<R>, index: nat)
  {
    exists w :: 0 <= w < |s.workers| && s.workers[w] == Busy(index)
  }

  /** Items below the counter are either in the hands of exactly one worker or done, the others neither;
      a worker stops only when the items have run out. */
  ghost predicate Orderly<R>(s: State<R>)
  {
    && s.next <= |s.out|
    && (forall v, w | 0 <= v < w < |s.workers| && s.workers[v].Busy? :: s.workers[v] != s.workers[w])
    && (forall w | 0 <= w < |s.workers| && s.workers[w].Busy? :: s.workers[w].index < s.next)
    && (forall w | 0 <= w < |s.workers| && s.workers[w].Stopped? :: s.next == |s.out|)
    && (forall i | 0 <= i < |s.out| :: s.out[i].Some? <==> i < s.next && !IsBusyWith(s, i))
  }

  lemma TakeIsOrderly<R>(s: State<R>, w: nat)
    requires Orderly(s)
    ensures Orderly(Step(s, Take(w)))
  {
    var s' := Step(s, Take(w));
    if w < |s.workers| && s.workers[w] == Ready {
      forall i | 0 <= i < |s.out| ensures IsBusyWith(s', i) <==> IsBusyWith(s, i) || (s.next < |s.out| && i == s.next) {
        if IsBusyWith(s, i) {
          var v :| 0 <= v < |s.workers| && s.workers[v] == Busy(i);
          assert s'.workers[v] == Busy(i);
        }
        assert s.next < |s.out| ==> s'.workers[w] == Busy(s.next);
      }
    }
  }

  lemma DeliverIsOrderly<R>(s: State<R>, w: nat, r: R)
    requires Orderly(s)
    ensures Orderly(Step(s, Deliver(w, r)))
  {
    var s' := Step(s, Deliver(w, r));
    if w < |s.workers| && s.workers[w].Busy? {
      forall i | 0 <= i < |s.out| ensures IsBusyWith(s', i) <==> IsBusyWith(s, i) && i != s.workers[w].index {
        if IsBusyWith(s, i) {
          var v :| 0 <= v < |s.workers| && s.workers[v] == Busy(i);
          assert v != w ==> s'.workers[v] == Busy(i);
        }
      }
    }
  }

  lemma {:induction false} RunsAreOrderly<R>(s: State<R>, events: seq<Event<R>>)
    requires Orderly(s)
    ensures Orderly(Run(s, events)) && |Run(s, events).workers| == |s.workers| && |Run(s, events).out| == |s.out|
    decreases |events|
  {
    if events != [] {
      match events[0] {
        case Take(w) => TakeIsOrderly(s, w);
        case Deliver(w, r) => DeliverIsOrderly(s, w, r);
      }
      RunsAreOrderly(Step(s, events[0]), events[1..]);
    }
  }

  function BusyCount(workers: seq<Worker>): (n: nat)
    ensures n <= |workers|
  {
    if workers == [] then 0 else (if workers[0].Busy? then 1 else 0) + BusyCount(workers[1..])
  }

  /** In every interleaving at most `limit` items are being processed. */
  lemma InFlightIsLimited<R>(count: nat, limit: int, events: seq<Event<R>>)
    ensures 0 < limit ==> BusyCount(Run(Initial<R>(count, limit), events).workers) <= limit
    ensures BusyCount(Run(Initial<R>(count, limit), events).workers) <= count
  {
    RunsAreOrderly(Initial<R>(count, limit), events);
  }

  /** The first k of the workers each hold the item of their number; the others are ready. */
  ghost predicate FirstAreBusy<R>(s: State<R>, k: nat)
  {
    && k <= |s.workers| && s.next == k <= |s.out|
    && forall w | 0 <= w < |s.workers| :: s.workers[w] == if w < k then Busy(w) else Ready
  }

  lemma {:induction false} BusyFirst(workers: seq<Worker>, k: nat)
    requires k <= |workers|
    requires forall w | 0 <= w < |workers| :: workers[w].Busy? <==> w < k
    ensures BusyCount(workers) == k
  {
    if workers != [] {
      BusyFirst(workers[1..], if k == 0 then 0 else k - 1);
    }
  }

  lemma {:induction false} TakeInTurn<R>(s: State<R>, k: nat, n: nat) returns (events: seq<Event<R>>)
    requires FirstAreBusy(s, k) && k <= n <= |s.workers| && n <= |s.out|
    ensures FirstAreBusy(Run(s, events), n) && |Run(s, events).workers| == |s.workers|
    decreases n - k
  {
    if k == n {
      events := [];
    } else {
      var more := TakeInTurn(Step(s, Take(k)), k + 1, n);
      events := [Take(k)] + more;
      assert events[1..] == more;
    }
  }

  /** And the limit can be reached: some interleaving processes as many items at once as the limit and the
      number of items allow. */
  lemma LimitIsReached<R>(count: nat, limit: nat) returns (events: seq<Event<R>>)
    ensures BusyCount(Run(Initial<R>(count, limit), events).workers) == if limit < count then limit else count
  {
    var start := Initial<R>(count, limit);
    events := TakeInTurn(start, 0, |start.workers|);
    BusyFirst(Run(start, events).workers, |start.workers|);
  }

  /** A result is written once: only the worker that holds the item writes it, and it was not there before. */
  lemma ResultsAreWrittenOnce<R>(s: State<R>, e: Event<R>, i: nat)
    requires Orderly(s) && i < |s.out|
    ensures Step(s, e).out[i] != s.out[i] ==>
              s.out[i].None? && e.Deliver? && e.worker < |s.workers| && s.workers[e.worker] == Busy(i)
                && Step(s, e).out[i] == Some(e.result)
  {
    if e.worker < |s.workers| && s.workers[e.worker] == Busy(i) {
      assert IsBusyWith(s, i);
    }
  }

  ghost predicate AllStopped<R>(s: State<R>)
  {
    forall w | 0 <= w < |s.workers| :: s.workers[w].Stopped?
  }

  ghost predicate AllDone<R>(s: State<R>)
  {
    forall i | 0 <= i < |s.out| :: s.out[i].Some?
  }

  /** Once all workers have stopped, every item has its result, if and only if there was a worker at all:
      the limit is at least 1, or there is nothing to do. */
  lemma AllDoneIffSomeWorker<R>(count: nat, limit: int, events: seq<Event<R>>)
    requires AllStopped(Run(Initial<R>(count, limit), events))
    ensures |Run(Initial<R>(count, limit), events).out| == count
    ensures AllDone(Run(Initial<R>(count, limit), events)) <==> 1 <= limit || count == 0
  {
    var start := Initial<R>(count, limit);
    RunsAreOrderly(start, events);
    var end := Run(start, events);
    if 1 <= limit && 0 < count {
      assert end.workers[0].Stopped?;
    }
    if limit < 1 && 0 < count {
      NobodyWorks(start, events);
      assert end.out[0].None?;
    }
  }

  lemma {:induction false} NobodyWorks<R>(s: State<R>, events: seq<Event<R>>)
    requires s.workers == []
    ensures Run(s, events) == s
    decreases |events|
  {
    if events != [] {
      NobodyWorks(s, events[1..]);
    }
  }
}

/** One snapshot of the Flink jobs: what it lists, how long it may be kept, and lookups in it. */
module FlinkSnapshot {
  import opened Sorting
  import opened Wrappers

  datatype ErrorKind = Unreachable | Timeout | HttpError | InvalidResponse | Overloaded
  datatype FetchError = ClientError(kind: ErrorKind) | OtherError

  /** Errors the upstream itself answered with; all others may pass. */
  predicate IsGenuine(e: FetchError)
  {
    e.ClientError? && e.kind in {HttpError, InvalidResponse}
  }

  datatype Warning = UpstreamUnavailable | Truncated | Partial | InvalidJob

  datatype Pipeline = Pipeline(id: string, detailed: bool)
  datatype Snapshot = Snapshot(pipelines: seq<Pipeline>, warnings: seq<Warning>, incomplete: seq<string>)

  const MAX_JOBS: nat := 100
  const NEGATIVE_TTL_CAP: int := 1000

  function PipelineIdFor(jid: string): string
  {
    "pl-flink-" + jid
  }

  /** A job and how fetching its detail ended; `fits` is whether the mapped pipeline passes its schema. */
  datatype Job = Job(jid: string, error: Option<FetchError>, fits: bool)

  function PipelineOf(j: Job): Pipeline
  {
    Pipeline(PipelineIdFor(j.jid), j.error.None?)
  }

  function Selected(jobs: seq<Job>): seq<Job>
  {
    if |jobs| <= MAX_JOBS then jobs else jobs[..MAX_JOBS]
  }

  predicate PipelineLe(a: Pipeline, b: Pipeline)
  {
    StringLe(a.id, b.id)
  }

  predicate AnyTransient(jobs: seq<Job>)
  {
    exists j :: j in jobs && j.error.Some? && !IsGenuine(j.error.value)
  }

  predicate AnyGenuine(jobs: seq<Job>)
  {
    exists j :: j in jobs && j.error.Some? && IsGenuine(j.error.value)
  }

  predicate SomeTransient(listed: Result<seq<Job>, FetchError>)
  {
    match listed
    case Err(e) => !IsGenuine(e)
    case Ok(jobs) => AnyTransient(Selected(jobs))
  }

  predicate SomeGenuine(listed: Result<seq<Job>, FetchError>)
  {
    match listed
    case Err(e) => IsGenuine(e)
    case Ok(jobs) => AnyGenuine(Selected(jobs)) || AnyUnfit(Selected(jobs))
  }

  /** The pipelines of the jobs that map to one, in job order. */
  function Mapped(jobs: seq<Job>): seq<Pipeline>
  {
    if jobs == [] then []
    else
      var last := jobs[|jobs| - 1];
      Mapped(jobs[..|jobs| - 1]) + if last.fits then [PipelineOf(last)] else []
  }

  lemma {:induction false} MappedMembers(jobs: seq<Job>)
    ensures forall p :: p in Mapped(jobs) <==> exists j :: j in jobs && j.fits && p == PipelineOf(j)
  {
    if jobs != [] {
      var front, last := jobs[..|jobs| - 1], jobs[|jobs| - 1];
      assert jobs == front + [last];
      MappedMembers(front);
    }
  }

  predicate AnyMissing(jobs: seq<Job>)
  {
    exists j :: j in jobs && j.error.Some?
  }

  predicate AnyUnfit(jobs: seq<Job>)
  {
    exists j :: j in jobs && !j.fits
  }

  /** The warnings, in the order they are found. */
  function WarningsOf(jobs: seq<Job>): seq<Warning>
  {
    WarningList(MAX_JOBS < |jobs|, AnyMissing(Selected(jobs)), AnyUnfit(Selected(jobs)))
  }

  function WarningList(truncated: bool, missing: bool, unfit: bool): (warnings: seq<Warning>)
    ensures UpstreamUnavailable !in warnings
  {
    (if truncated then [Truncated] else []) + (if missing then [Partial] else []) + (if unfit then [InvalidJob] else [])
  }

  /** Collects the warnings one after the other. */
  method Warn(truncated: bool, missing: bool, unfit: bool) returns (warnings: seq<Warning>)
    ensures warnings == WarningList(truncated, missing, unfit)
  {
    warnings := [];
    if truncated {
      warnings := [Truncated];
    }
    if missing {
      warnings := warnings + [Partial];
    }
    if unfit {
      warnings := warnings + [InvalidJob];
    }
  }

  /** The pipelines whose job has no detail, in job order. */
  function MissingIds(jobs: seq<Job>): seq<string>
  {
    if jobs == [] then []
    else
      var last := jobs[|jobs| - 1];
      MissingIds(jobs[..|jobs| - 1]) + if last.error.Some? then [PipelineIdFor(last.jid)] else []
  }

  lemma {:induction false} MissingMembers(jobs: seq<Job>)
    ensures forall id :: id in MissingIds(jobs) <==>
                         exists j :: j in jobs && j.error.Some? && id == PipelineIdFor(j.jid)
    ensures MissingIds(jobs) != [] <==> AnyMissing(jobs)
  {
    if jobs != [] {
      var front, last := jobs[..|jobs| - 1], jobs[|jobs| - 1];
      assert jobs == front + [last];
      MissingMembers(front);
    }
  }

  /** What a snapshot says about the jobs it was built from. */
  ghost predicate IsSnapshotOf(listed: Result<seq<Job>, FetchError>, s: Snapshot)
  {
    match listed
    case Err(_) => s == Snapshot([], [UpstreamUnavailable], [])
    case Ok(jobs) =>
      && multiset(s.pipelines) == multiset(Mapped(Selected(jobs)))
      && s.incomplete == MissingIds(Selected(jobs)) && s.warnings == WarningsOf(jobs)
  }

  /** The snapshot of listed jobs, and whether some failure may pass or is the upstream's own. */
  method SnapshotOf(jobs: seq<Job>) returns (snapshot: Snapshot, transient: bool, genuine: bool)
    ensures IsSnapshotOf(Ok(jobs), snapshot) && SortedBy(snapshot.pipelines, PipelineLe)
    ensures transient <==> SomeTransient(Ok(jobs))
    ensures genuine <==> SomeGenuine(Ok(jobs))
  {
    var selected := Selected(jobs);
    var incomplete;
    transient, genuine, incomplete := NoteFailures(selected);
    var pipelines, skipped := MapJobs(selected);
    var warnings := Warn(|jobs| > |selected|, incomplete != [], skipped > 0);
    genuine := genuine || skipped > 0;
    snapshot := Snapshot(pipelines, warnings, incomplete);
  }

  /** Builds a snapshot. A transient failure anywhere keeps it from being cached; genuine failures and
      unusable jobs let it live for a second at most. */
  method BuildSnapshot(listed: Result<seq<Job>, FetchError>, cacheTtl: int) returns (snapshot: Snapshot, ttl: int)
    ensures IsSnapshotOf(listed, snapshot)
    ensures SortedBy(snapshot.pipelines, PipelineLe)
    ensures ttl == if SomeTransient(listed) then 0
                   else if SomeGenuine(listed) then (if cacheTtl < 1000 then cacheTtl else 1000) else cacheTtl
  {
    var transient, genuine := false, false;
    if listed.Err? {
      if IsGenuine(listed.error) {
        genuine := true;
      } else {
        transient := true;
      }
      snapshot := Snapshot([], [UpstreamUnavailable], []);
    } else {
      snapshot, transient, genuine := SnapshotOf(listed.value);
    }
    ttl := if transient then 0
      else if genuine then (if cacheTtl < NEGATIVE_TTL_CAP then cacheTtl else NEGATIVE_TTL_CAP) else cacheTtl;
  }

  /** Looks at how the details ended: whether some failure may pass, whether some is the upstream's own, and
      whose details are missing. */
  method NoteFailures(jobs: seq<Job>) returns (transient: bool, genuine: bool, incomplete: seq<string>)
    ensures (transient <==> AnyTransient(jobs)) && (genuine <==> AnyGenuine(jobs))
    ensures incomplete == MissingIds(jobs) && (incomplete != [] <==> AnyMissing(jobs))
  {
    transient, genuine, incomplete := false, false, [];
    for i := 0 to |jobs|
      invariant transient <==> exists k :: 0 <= k < i && jobs[k].error.Some? && !IsGenuine(jobs[k].error.value)
      invariant genuine <==> exists k :: 0 <= k < i && jobs[k].error.Some? && IsGenuine(jobs[k].error.value)
      invariant incomplete == MissingIds(jobs[..i])
    {
      assert jobs[..i + 1][..i] == jobs[..i];
      if jobs[i].error.Some? {
        if IsGenuine(jobs[i].error.value) {
          genuine := true;
        } else {
          transient := true;
        }
        incomplete := incomplete + [PipelineIdFor(jobs[i].jid)];
      }
    }
    assert jobs[..|jobs|] == jobs;
    MissingMembers(jobs);
  }

  /** The pipelines of the jobs that map to one, sorted by id, and the number of those that do not. */
  method MapJobs(jobs: seq<Job>) returns (pipelines: seq<Pipeline>, skipped: nat)
    ensures multiset(pipelines) == multiset(Mapped(jobs)) && SortedBy(pipelines, PipelineLe)
    ensures skipped > 0 <==> AnyUnfit(jobs)
  {
    var mapped: seq<Pipeline> := [];
    skipped := 0;
    for i := 0 to |jobs|
      invariant mapped == Mapped(jobs[..i])
      invariant skipped > 0 <==> exists k :: 0 <= k < i && !jobs[k].fits
    {
      assert jobs[..i + 1][..i] == jobs[..i];
      if jobs[i].fits {
        mapped := mapped + [PipelineOf(jobs[i])];
      } else {
        skipped := skipped + 1;
      }
    }
    assert jobs[..|jobs|] == jobs;
    PipelineLeIsOrder();
    SortPermutes(mapped, PipelineLe);
    SortSorts(mapped, PipelineLe);
    pipelines := SortBy(mapped, PipelineLe);
  }

  lemma PipelineLeIsOrder()
    ensures IsTotalPreorder(PipelineLe)
  {
    StringLeIsOrder();
  }

  // ---------------------------------------------------------------------------------------------
  // What a snapshot says about the jobs, job by job
  // ---------------------------------------------------------------------------------------------

  /** One of the first hundred jobs, with or without its detail, as the pipeline it maps to. */
  predicate IsJobOf(jobs: seq<Job>, k: nat, p: Pipeline)
  {
    && k < |jobs| && k < 100 && jobs[k].fits
    && p.id == "pl-flink-" + jobs[k].jid && (p.detailed <==> jobs[k].error.None?)
  }

  predicate LacksDetail(jobs: seq<Job>, k: nat)
  {
    k < |jobs| && k < 100 && jobs[k].error.Some?
  }

  function JobsOf(jobs: seq<Job>, p: Pipeline): set<nat>
  {
    set k: nat | k < |jobs| && IsJobOf(jobs, k, p)
  }

  /** The jobs before the k-th that lack their detail. */
  function LackingBefore(jobs: seq<Job>, k: nat): set<nat>
  {
    set i: nat | i < k && LacksDetail(jobs, i)
  }

  /** The id of the job stands behind those of the earlier ones that lack their detail. */
  predicate IsListedAt(jobs: seq<Job>, ids: seq<string>, k: nat)
    requires k < |jobs|
  {
    && |LackingBefore(jobs, k)| < |ids|
    && ids[|LackingBefore(jobs, k)|] == "pl-flink-" + jobs[k].jid
  }

  predicate MapsTo(j: Job, p: Pipeline)
  {
    j.fits && PipelineOf(j) == p
  }

  function MappedTo(jobs: seq<Job>, p: Pipeline): set<nat>
  {
    set k: nat | k < |jobs| && MapsTo(jobs[k], p)
  }

  lemma MappedToGrows(front: seq<Job>, last: Job, p: Pipeline)
    ensures |MappedTo(front + [last], p)| == |MappedTo(front, p)| + if MapsTo(last, p) then 1 else 0
  {
    var jobs := front + [last];
    assert forall k: nat | k < |front| :: jobs[k] == front[k];
    assert MappedTo(jobs, p) == MappedTo(front, p) + if MapsTo(last, p) then {|front|} else {};
  }

  lemma {:induction false} MappedCount(jobs: seq<Job>, p: Pipeline)
    ensures multiset(Mapped(jobs))[p] == |MappedTo(jobs, p)|
  {
    if jobs == [] {
      assert MappedTo(jobs, p) == {};
    } else {
      var front, last := jobs[..|jobs| - 1], jobs[|jobs| - 1];
      assert jobs == front + [last];
      MappedCount(front, p);
      MappedToGrows(front, last, p);
    }
  }

  lemma MappedToIsJobsOf(jobs: seq<Job>, p: Pipeline)
    ensures MappedTo(Selected(jobs), p) == JobsOf(jobs, p)
  {
  }

  /** Whoever lacks the detail in the first part lacks it in the whole. */
  lemma LackingInFront(jobs: seq<Job>, n: nat, k: nat)
    requires k <= n <= |jobs|
    ensures LackingBefore(jobs[..n], k) == LackingBefore(jobs, k)
  {
    assert forall i: nat | i < k :: LacksDetail(jobs[..n], i) <==> LacksDetail(jobs, i);
  }

  lemma LackingGrows(jobs: seq<Job>, k: nat)
    ensures |LackingBefore(jobs, k + 1)| == |LackingBefore(jobs, k)| + if LacksDetail(jobs, k) then 1 else 0
  {
    assert LackingBefore(jobs, k + 1) == LackingBefore(jobs, k) + if LacksDetail(jobs, k) then {k} else {};
  }

  /** The ids without detail are listed in the order of the jobs. */
  lemma {:induction false} MissingInOrder(jobs: seq<Job>)
    requires |jobs| <= 100
    ensures |MissingIds(jobs)| == |LackingBefore(jobs, |jobs|)|
    ensures forall k: nat | LacksDetail(jobs, k) :: IsListedAt(jobs, MissingIds(jobs), k)
  {
    if jobs != [] {
      var last := |jobs| - 1;
      MissingInOrder(jobs[..last]);
      LackingInFront(jobs, last, last);
      LackingGrows(jobs, last);
      forall k: nat | LacksDetail(jobs, k) ensures IsListedAt(jobs, MissingIds(jobs), k) {
        LackingInFront(jobs, last, if k < last then k else last);
        assert k < last ==> LacksDetail(jobs[..last], k) && IsListedAt(jobs[..last], MissingIds(jobs[..last]), k);
      }
    }
  }

  lemma SelectedJobs(jobs: seq<Job>)
    ensures forall k: nat :: LacksDetail(Selected(jobs), k) <==> LacksDetail(jobs, k)
    ensures forall k: nat :: LackingBefore(Selected(jobs), k) == LackingBefore(jobs, k)
    ensures LackingBefore(jobs, |Selected(jobs)|) == LackingBefore(jobs, |jobs|)
  {
  }

  /** Of the first hundred jobs, each that fits is one pipeline, and each without detail one incomplete id, in
      job order. */
  lemma SnapshotCountsJobs(jobs: seq<Job>, s: Snapshot)
    requires IsSnapshotOf(Ok(jobs), s)
    ensures forall p :: multiset(s.pipelines)[p] == |JobsOf(jobs, p)|
    ensures |s.incomplete| == |LackingBefore(jobs, |jobs|)|
    ensures forall k: nat | LacksDetail(jobs, k) :: IsListedAt(jobs, s.incomplete, k)
  {
    SelectedJobs(jobs);
    forall p ensures multiset(s.pipelines)[p] == |JobsOf(jobs, p)| {
      MappedCount(Selected(jobs), p);
      MappedToIsJobsOf(jobs, p);
    }
    MissingInOrder(Selected(jobs));
    forall k: nat | LacksDetail(jobs, k) ensures IsListedAt(jobs, s.incomplete, k) {
      assert IsListedAt(Selected(jobs), s.incomplete, k);
    }
  }

  /** The warnings say, in this order, whether jobs were cut off, lack details, or do not fit. */
  lemma WarningsMean(jobs: seq<Job>, s: Snapshot)
    requires IsSnapshotOf(Ok(jobs), s)
    ensures s.warnings == (if 100 < |jobs| then [Truncated] else [])
      + (if exists k: nat :: LacksDetail(jobs, k) then [Partial] else [])
      + (if exists k :: 0 <= k < |jobs| && k < 100 && !jobs[k].fits then [InvalidJob] else [])
  {
    var first := Selected(jobs);
    assert forall k: nat | k < |jobs| && k < 100 :: first[k] == jobs[k] && first[k] in first;
    if k: nat :| LacksDetail(jobs, k) {
      assert first[k].error.Some?;
    }
    if AnyMissing(first) {
      var k :| 0 <= k < |first| && first[k].error.Some?;
      assert LacksDetail(jobs, k);
    }
  }

  /** What may pass: no answer, none in time, too many requests, or anything but an error of the client. */
  predicate MayPass(e: FetchError)
  {
    e.OtherError? || e.kind == Unreachable || e.kind == Timeout || e.kind == Overloaded
  }

  /** Which failures keep a snapshot from being cached, and which shorten its life. */
  lemma FailuresMean(listed: Result<seq<Job>, FetchError>)
    ensures SomeTransient(listed) <==>
      match listed
      case Err(e) => MayPass(e)
      case Ok(jobs) => exists k: nat :: LacksDetail(jobs, k) && MayPass(jobs[k].error.value)
    ensures SomeGenuine(listed) <==>
      match listed
      case Err(e) => !MayPass(e)
      case Ok(jobs) => exists k: nat ::
        k < |jobs| && k < 100 && (!jobs[k].fits || (LacksDetail(jobs, k) && !MayPass(jobs[k].error.value)))
  {
    forall e ensures IsGenuine(e) <==> !MayPass(e) {
      if e.ClientError? {
        match e.kind {
          case HttpError =>
          case InvalidResponse =>
          case _ =>
        }
      }
    }
    if listed.Ok? {
      var jobs := listed.value;
      assert forall k: nat | k < |jobs| && k < 100 :: jobs[k] == Selected(jobs)[k] && jobs[k] in Selected(jobs);
    }
  }

  // ---------------------------------------------------------------------------------------------
  // Lookups
  // ---------------------------------------------------------------------------------------------

  predicate IsHexDigit(c: char) { '0' <= c <= '9' || 'a' <= c <= 'f' }

  predicate IsPipelineId(id: string)
  {
    |id| == 41 && id[..9] == "pl-flink-" && forall k | 9 <= k < 41 :: IsHexDigit(id[k])
  }

  datatype Lookup = Lookup(pipeline: Option<Pipeline>, unavailable: bool)

  function Find(pipelines: seq<Pipeline>, id: string): (found: Option<Pipeline>)
    ensures found.None? ==> forall p | p in pipelines :: p.id != id
    ensures found.Some? ==> found.value in pipelines && found.value.id == id
  {
    if pipelines == [] then None else if pipelines[0].id == id then Some(pipelines[0]) else Find(pipelines[1..], id)
  }

  function GetPipeline(s: Snapshot, id: string): Lookup
  {
    if !IsPipelineId(id) then Lookup(None, false)
    else if UpstreamUnavailable in s.warnings then Lookup(None, true)
    else if Find(s.pipelines, id).Some? && id in s.incomplete then Lookup(None, true)
    else Lookup(Find(s.pipelines, id), false)
  }

  /** Some job of this id maps to a pipeline. */
  ghost predicate IsListed(jobs: seq<Job>, id: string)
  {
    exists j :: j in Selected(jobs) && j.fits && PipelineIdFor(j.jid) == id
  }

  /** The details of all jobs of this id were fetched. */
  ghost predicate AllFetched(jobs: seq<Job>, id: string)
  {
    forall j | j in Selected(jobs) && PipelineIdFor(j.jid) == id :: j.error.None?
  }

  /** The pipelines and the incomplete ids of a snapshot, one by one. */
  ghost predicate ListsJobs(jobs: seq<Job>, s: Snapshot)
  {
    && (forall p :: p in s.pipelines <==> exists j :: j in jobs && j.fits && p == PipelineOf(j))
    && (forall id :: id in s.incomplete <==> exists j :: j in jobs && j.error.Some? && id == PipelineIdFor(j.jid))
  }

  lemma SnapshotListsJobs(jobs: seq<Job>, s: Snapshot)
    requires multiset(s.pipelines) == multiset(Mapped(jobs)) && s.incomplete == MissingIds(jobs)
    ensures ListsJobs(jobs, s)
  {
    MappedMembers(jobs);
    MissingMembers(jobs);
    forall p ensures p in s.pipelines <==> p in Mapped(jobs) {
      assert (p in s.pipelines <==> p in multiset(s.pipelines)) && (p in Mapped(jobs) <==> p in multiset(Mapped(jobs)));
    }
  }

  lemma ListedSnapshot(jobs: seq<Job>, s: Snapshot)
    requires IsSnapshotOf(Ok(jobs), s)
    ensures ListsJobs(Selected(jobs), s) && UpstreamUnavailable !in s.warnings
  {
    SnapshotListsJobs(Selected(jobs), s);
  }

  lemma LookupListed(jobs: seq<Job>, s: Snapshot, id: string)
    requires ListsJobs(Selected(jobs), s) && UpstreamUnavailable !in s.warnings && IsPipelineId(id)
    ensures GetPipeline(s, id).pipeline.Some? <==> IsListed(jobs, id) && AllFetched(jobs, id)
    ensures GetPipeline(s, id).pipeline.Some? ==> GetPipeline(s, id).pipeline.value == Pipeline(id, true)
    ensures GetPipeline(s, id).unavailable <==> IsListed(jobs, id) && !AllFetched(jobs, id)
  {
    var found := Find(s.pipelines, id);
    assert id in s.incomplete <==> !AllFetched(jobs, id);
    if IsListed(jobs, id) {
      var j :| j in Selected(jobs) && j.fits && PipelineIdFor(j.jid) == id;
      assert PipelineOf(j) in s.pipelines;
    }
  }

  ghost predicate NamesPipeline(id: string)
  {
    exists hex: string :: |hex| == 32 && id == "pl-flink-" + hex
                          && forall c | c in hex :: '0' <= c <= '9' || 'a' <= c <= 'f'
  }

  /** Only an id of 32 hexadecimal digits behind the prefix is looked up at all. */
  lemma OtherIdsAreUnknown(s: Snapshot, id: string)
    ensures IsPipelineId(id) <==> NamesPipeline(id)
    ensures !NamesPipeline(id) ==> GetPipeline(s, id) == Lookup(None, false)
  {
    if IsPipelineId(id) {
      var hex := id[9..];
      assert id == id[..9] + hex;
      assert forall k | 0 <= k < 32 :: hex[k] == id[k + 9];
    }
    if hex: string :|
        |hex| == 32 && id == "pl-flink-" + hex && forall c | c in hex :: '0' <= c <= '9' || 'a' <= c <= 'f' {
      assert forall k | 9 <= k < 41 :: id[k] == hex[k - 9] && hex[k - 9] in hex;
    }
  }

  /** A lookup returns a pipeline exactly when its job is listed and its detail was fetched, and it says
      `unavailable` exactly when the listing failed or the detail of a listed job is missing. */
  lemma LookupIsComplete(listed: Result<seq<Job>, FetchError>, s: Snapshot, id: string)
    requires IsSnapshotOf(listed, s) && IsPipelineId(id)
    ensures GetPipeline(s, id).pipeline.Some? <==>
              listed.Ok? && IsListed(listed.value, id) && AllFetched(listed.value, id)
    ensures GetPipeline(s, id).pipeline.Some? ==> GetPipeline(s, id).pipeline.value == Pipeline(id, true)
    ensures GetPipeline(s, id).unavailable <==>
              listed.Err? || (IsListed(listed.value, id) && !AllFetched(listed.value, id))
  {
    match listed
    case Err(_) =>
    case Ok(jobs) =>
      ListedSnapshot(jobs, s);
      LookupListed(jobs, s, id);
  }
}
