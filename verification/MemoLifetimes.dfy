/** How long the memo keeps a load: from the call that starts it until its time is up, it is invalidated, or
    it is pushed out by what was used since. */
module MemoLifetimes {
  import opened MemoSpec
  import opened Wrappers

  // ---------------------------------------------------------------------------------------------
  // Eviction by the bounds
  // ---------------------------------------------------------------------------------------------

  /** The entry of the key and those used since, oldest use first. */
  function Since(cache: seq<Entry>, key: string): seq<Entry>
  {
    cache[At(cache, key)..]
  }

  /** The total if the entry of the load had this weight. */
  function Weighing(cache: seq<Entry>, load: nat, weight: nat): nat
  {
    if cache == [] then 0
    else (if cache[0].load == load then weight else cache[0].weight) + Weighing(cache[1..], load, weight)
  }

  /** The event makes the entry of the key the oldest of too many or too heavy ones: a load starts for
      another key, or a value comes back, and what was used since no longer fits beside the entry. */
  ghost predicate PushesOut(o: MemoOptions, s: State, e: Event, key: string)
  {
    var since := Since(s.cache, key);
    match e
    case Call(other, now) =>
      && other != key && !Servable(s.cache, other, now)
      && !Fits(o, Without(since, At(since, other)) + [Entry(other, s.loads, true, 0, 1)])
    case Settle(load, Success(weigher, ttl), _) =>
      && load in s.inFlight && 0 < Lifetime(o, Success(weigher, ttl)) && WeightOf(weigher).Some?
      && o.maxWeight < Weighing(since, load, WeightOf(weigher).value)
    case _ => false
  }

  /** An entry survives eviction exactly if it fits together with those behind it. */
  lemma SurvivesIff(o: MemoOptions, cache: seq<Entry>, p: nat)
    requires Distinct(cache) && p < |cache|
    ensures cache[p] in Evicted(o, cache) <==> Fits(o, cache[p..])
  {
    var n := EvictionIsMinimal(o, cache);
    if p < n {
      assert forall k | n <= k < |cache| :: Differ(cache[p], cache[k]);
    } else {
      assert cache[n..] == cache[n..p] + cache[p..];
      TotalAppend(cache[n..p], cache[p..]);
      assert cache[n..][p - n] == cache[p];
    }
  }

  lemma {:induction false} WeighingUpdate(cache: seq<Entry>, i: nat, e: Entry)
    requires Distinct(cache) && i < |cache| && e.load == cache[i].load
    ensures Total(cache[i := e]) == Weighing(cache, e.load, e.weight)
  {
    if i == 0 {
      WeighingOthers(cache[1..], e.load, e.weight);
      assert cache[i := e][1..] == cache[1..];
    } else {
      WeighingUpdate(cache[1..], i - 1, e);
      assert cache[i := e][1..] == cache[1..][i - 1 := e];
      assert Differ(cache[0], cache[i]);
    }
  }

  lemma {:induction false} WeighingOthers(cache: seq<Entry>, load: nat, weight: nat)
    requires forall e | e in cache :: e.load != load
    ensures Weighing(cache, load, weight) == Total(cache)
  {
    if cache != [] {
      WeighingOthers(cache[1..], load, weight);
    }
  }

  // ---------------------------------------------------------------------------------------------
  // One step of one entry
  // ---------------------------------------------------------------------------------------------

  /** The cache holds the load for the key, under way or until this time. */
  ghost predicate Has(cache: seq<Entry>, key: string, load: nat, until: Option<int>)
  {
    exists e :: e in cache && IsEntryOf(e, key, load, until)
  }

  predicate IsEntryOf(e: Entry, key: string, load: nat, until: Option<int>)
  {
    && e.key == key && e.load == load
    && match until case None => e.pending case Some(t) => !e.pending && e.expires == t
  }

  ghost predicate HasLoad(cache: seq<Entry>, load: nat)
  {
    exists e :: e in cache && e.load == load
  }

  /** The event settles the load, which is under way. */
  predicate Settles(e: Event, load: nat, until: Option<int>)
  {
    until.None? && e.Settle? && e.load == load
  }

  function Until(o: MemoOptions, e: Event, load: nat, until: Option<int>): Option<int>
  {
    if Settles(e, load, until) then Some(e.now + Lifetime(o, e.outcome)) else until
  }

  /** The event ends the entry: it is pushed out, invalidated, called after its time, or its load ends in
      something that is not kept. */
  ghost predicate Ends(o: MemoOptions, s: State, e: Event, key: string, load: nat, until: Option<int>)
  {
    || PushesOut(o, s, e, key)
    || e == Invalidate(key)
    || (e.Call? && e.key == key && until.Some? && until.value <= e.now)
    || (Settles(e, load, until) && Lifetime(o, e.outcome) <= 0)
  }

  lemma EntryIsAt(cache: seq<Entry>, key: string, load: nat, until: Option<int>)
    requires Distinct(cache) && Has(cache, key, load, until)
    ensures At(cache, key) < |cache| && IsEntryOf(cache[At(cache, key)], key, load, until)
  {
    var e :| e in cache && IsEntryOf(e, key, load, until);
    var j :| 0 <= j < |cache| && cache[j] == e;
    KeyIsAt(cache, j);
  }

  lemma AtSuffix(cache: seq<Entry>, i: nat, key: string)
    requires Distinct(cache) && i <= |cache|
    ensures At(cache[i..], key) == if i <= At(cache, key) then At(cache, key) - i else |cache| - i
  {
    var a, r := At(cache, key), At(cache[i..], key);
    if a < i {
      assert forall k | i <= k < |cache| :: Differ(cache[a], cache[k]);
    } else if a < |cache| {
      assert cache[i..][a - i] == cache[a];
    }
  }

  lemma SuffixFits(o: MemoOptions, cache: seq<Entry>, i: nat)
    requires Fits(o, cache) && i <= |cache|
    ensures Fits(o, cache[i..])
  {
    assert cache == cache[..i] + cache[i..];
    TotalAppend(cache[..i], cache[i..]);
  }

  /** Eviction keeps the entry, or nothing of its load. */
  lemma EvictedHas(o: MemoOptions, cache: seq<Entry>, p: nat, key: string, load: nat, until: Option<int>)
    requires Distinct(cache) && p < |cache| && IsEntryOf(cache[p], key, load, until)
    ensures if Fits(o, cache[p..]) then Has(Evicted(o, cache), key, load, until)
            else !HasLoad(Evicted(o, cache), load)
  {
    SurvivesIff(o, cache, p);
    EvictedStaysDistinct(o, cache);
    forall e | !Fits(o, cache[p..]) && e in Evicted(o, cache) ensures e.load != load {
      var k :| 0 <= k < |cache| && cache[k] == e;
      assert Differ(cache[if k < p then k else p], cache[if k < p then p else k]);
    }
  }

  lemma RemovalKeepsEntry(cache: seq<Entry>, j: nat, key: string, load: nat, until: Option<int>)
    requires Distinct(cache) && Has(cache, key, load, until) && j <= |cache|
    ensures if j < |cache| && cache[j].load == load then !HasLoad(Without(cache, j), load)
            else Has(Without(cache, j), key, load, until)
  {
    if j < |cache| {
      WithoutStaysDistinct(cache, j);
      var e :| e in cache && IsEntryOf(e, key, load, until);
      var k :| 0 <= k < |cache| && cache[k] == e;
      OthersStay(cache, j, k);
    }
  }

  lemma OthersStay(cache: seq<Entry>, j: nat, k: nat)
    requires Distinct(cache) && j < |cache| && k < |cache|
    ensures j != k ==> cache[k] in Without(cache, j) && cache[k].load != cache[j].load
  {
    if j != k {
      assert Differ(cache[if k < j then k else j], cache[if k < j then j else k]);
      assert Without(cache, j)[if k < j then k else k - 1] == cache[k];
    }
  }

  /** What the entry of a key has behind it once the entry of another key is taken out. */
  lemma SinceWithout(cache: seq<Entry>, i: nat, a: nat)
    requires i < |cache| && a <= |cache| && i != a
    ensures var p := if a < i then i - 1 else i;
      && p < |Without(cache, a)| && Without(cache, a)[p] == cache[i]
      && Without(cache, a)[p..] == Without(cache[i..], if a < i then |cache| - i else a - i)
  {
  }

  lemma TouchOfOther(o: MemoOptions, s: State, other: string, now: int, key: string, load: nat, until: Option<int>)
    requires Safe(o, s) && Has(s.cache, key, load, until) && other != key && Servable(s.cache, other, now)
    ensures Has(AfterCall(o, s, other, now).cache, key, load, until)
  {
    var i, a := At(s.cache, key), At(s.cache, other);
    EntryIsAt(s.cache, key, load, until);
    assert Differ(s.cache[if a < i then a else i], s.cache[if a < i then i else a]);
    RemovalKeepsEntry(s.cache, a, key, load, until);
    var e :| e in Without(s.cache, a) && IsEntryOf(e, key, load, until);
    assert e in Without(s.cache, a) + [s.cache[a]];
  }

  lemma StartIsDistinct(o: MemoOptions, s: State, key: string)
    requires Safe(o, s)
    ensures Distinct(Without(s.cache, At(s.cache, key)) + [Entry(key, s.loads, true, 0, 1)])
  {
    KeyIsGone(s.cache, key);
    var rest := Without(s.cache, At(s.cache, key));
    forall e | e in rest ensures Differ(e, Entry(key, s.loads, true, 0, 1)) {
      assert EntryOk(s.loads, s.inFlight, e);
    }
  }

  lemma StartOfOther(o: MemoOptions, s: State, other: string, now: int, key: string, load: nat, until: Option<int>)
    requires Safe(o, s) && Has(s.cache, key, load, until) && other != key && !Servable(s.cache, other, now)
    ensures if PushesOut(o, s, Call(other, now), key) then !HasLoad(AfterCall(o, s, other, now).cache, load)
            else Has(AfterCall(o, s, other, now).cache, key, load, until)
  {
    var i, a := At(s.cache, key), At(s.cache, other);
    EntryIsAt(s.cache, key, load, until);
    StartIsDistinct(o, s, other);
    AtSuffix(s.cache, i, other);
    SinceWithout(s.cache, i, a);
    var rest, started := Without(s.cache, a), Entry(other, s.loads, true, 0, 1);
    var p := if a < i then i - 1 else i;
    assert (rest + [started])[p..] == rest[p..] + [started];
    EvictedHas(o, rest + [started], p, key, load, until);
  }

  lemma CallOfKey(o: MemoOptions, s: State, key: string, now: int, load: nat, until: Option<int>)
    requires Safe(o, s) && Has(s.cache, key, load, until)
    ensures if until.Some? && until.value <= now then !HasLoad(AfterCall(o, s, key, now).cache, load)
            else Has(AfterCall(o, s, key, now).cache, key, load, until)
  {
    var i := At(s.cache, key);
    EntryIsAt(s.cache, key, load, until);
    if Servable(s.cache, key, now) {
      assert s.cache[i] in Without(s.cache, i) + [s.cache[i]];
    } else {
      var rest, started := Without(s.cache, i), Entry(key, s.loads, true, 0, 1);
      assert s.cache[i] in s.cache && EntryOk(s.loads, s.inFlight, s.cache[i]);
      RemovalKeepsEntry(s.cache, i, key, load, until);
      var n := EvictedIsSuffix(o, rest + [started]);
    }
  }

  /** The entry of an outcome that is kept. */
  function Kept(o: MemoOptions, e: Entry, outcome: Outcome, now: int): Entry
  {
    var weight := if outcome.Success? && WeightOf(outcome.weigher).Some? then WeightOf(outcome.weigher).value
      else e.weight;
    e.(pending := false, expires := now + Lifetime(o, outcome), weight := weight)
  }

  lemma SettledIsKept(o: MemoOptions, cache: seq<Entry>, j: nat, outcome: Outcome, now: int)
    requires j < |cache|
    ensures Lifetime(o, outcome) <= 0 ==> Settled(o, cache, j, outcome, now) == Without(cache, j)
    ensures 0 < Lifetime(o, outcome) && outcome.Success? ==> WeightOf(outcome.weigher).Some?
    ensures var kept := cache[j := Kept(o, cache[j], outcome, now)];
      0 < Lifetime(o, outcome) ==>
        Settled(o, cache, j, outcome, now) == if outcome.Success? then Evicted(o, kept) else kept
  {
    if outcome.Success? {
      WeightMeaning(o, outcome.weigher);
    }
  }

  lemma ReweighedFits(o: MemoOptions, s: State, key: string, j: nat, e: Entry)
    requires Safe(o, s) && At(s.cache, key) < |s.cache| && j < |s.cache| && e.load == s.cache[j].load
    ensures Fits(o, s.cache[j := e][At(s.cache, key)..]) <==>
      Weighing(Since(s.cache, key), e.load, e.weight) <= o.maxWeight
  {
    var i := At(s.cache, key);
    var since := Since(s.cache, key);
    SuffixFits(o, s.cache, i);
    if i <= j {
      assert s.cache[j := e][i..] == since[j - i := e];
      WeighingUpdate(since, j - i, e);
    } else {
      assert s.cache[j := e][i..] == since;
      assert forall k | i <= k < |s.cache| :: Differ(s.cache[j], s.cache[k]);
      WeighingOthers(since, e.load, e.weight);
    }
  }

  /** A load without an entry changes no total. */
  lemma StaleLoadPushesNothing(o: MemoOptions, s: State, key: string, e: Event)
    requires Safe(o, s) && At(s.cache, key) < |s.cache| && e.Settle? && !HasLoad(s.cache, e.load)
    ensures !PushesOut(o, s, e, key)
  {
    var since := Since(s.cache, key);
    SuffixFits(o, s.cache, At(s.cache, key));
    if e.outcome.Success? && WeightOf(e.outcome.weigher).Some? {
      assert forall x | x in since :: x in s.cache;
      WeighingOthers(since, e.load, WeightOf(e.outcome.weigher).value);
    }
  }

  lemma LiveLoad(o: MemoOptions, s: State, load: nat)
    requires Safe(o, s) && load in s.inFlight
    ensures IsLive(s.cache, s.inFlight[load], load) <==> HasLoad(s.cache, load)
  {
    if HasLoad(s.cache, load) {
      var e :| e in s.cache && e.load == load;
      assert EntryOk(s.loads, s.inFlight, e);
      var j :| 0 <= j < |s.cache| && s.cache[j] == e;
      KeyIsAt(s.cache, j);
    }
    if IsLive(s.cache, s.inFlight[load], load) {
      assert s.cache[At(s.cache, s.inFlight[load])] in s.cache;
    }
  }

  lemma SettleOfLive(o: MemoOptions, s: State, e: Event, key: string, load: nat, until: Option<int>)
    requires Safe(o, s) && Has(s.cache, key, load, until) && e.Settle?
    requires e.load in s.inFlight && IsLive(s.cache, s.inFlight[e.load], e.load)
    ensures if Ends(o, s, e, key, load, until) then !HasLoad(Step(o, s, e).cache, load)
            else Has(Step(o, s, e).cache, key, load, Until(o, e, load, until))
  {
    var i, j := At(s.cache, key), At(s.cache, s.inFlight[e.load]);
    EntryIsAt(s.cache, key, load, until);
    assert EntryOk(s.loads, s.inFlight, s.cache[i]) && EntryOk(s.loads, s.inFlight, s.cache[j]);
    assert i != j ==> Differ(s.cache[if i < j then i else j], s.cache[if i < j then j else i]);
    assert Settles(e, load, until) <==> i == j;
    SettledIsKept(o, s.cache, j, e.outcome, e.now);
    if Lifetime(o, e.outcome) <= 0 {
      RemovalKeepsEntry(s.cache, j, key, load, until);
    } else {
      var kept := Kept(o, s.cache[j], e.outcome, e.now);
      var updated := s.cache[j := kept];
      UpdateStaysDistinct(s.cache, j, kept);
      ReweighedFits(o, s, key, j, kept);
      assert updated[i] in updated && IsEntryOf(updated[i], key, load, Until(o, e, load, until));
      if e.outcome.Success? {
        EvictedHas(o, updated, i, key, load, Until(o, e, load, until));
      }
    }
  }

  lemma StaleSettle(o: MemoOptions, s: State, e: Event, key: string, load: nat, until: Option<int>)
    requires Safe(o, s) && Has(s.cache, key, load, until) && e.Settle?
    requires e.load in s.inFlight ==> !IsLive(s.cache, s.inFlight[e.load], e.load)
    ensures !Ends(o, s, e, key, load, until) && Has(Step(o, s, e).cache, key, load, until)
    ensures !Settles(e, load, until)
  {
    EntryIsAt(s.cache, key, load, until);
    assert EntryOk(s.loads, s.inFlight, s.cache[At(s.cache, key)]);
    if e.load in s.inFlight {
      LiveLoad(o, s, e.load);
      StaleLoadPushesNothing(o, s, key, e);
    }
  }

  /** In one step the entry of a load stays exactly if the event does not end it. */
  lemma StepOfEntry(o: MemoOptions, s: State, e: Event, key: string, load: nat, until: Option<int>)
    requires Safe(o, s) && Has(s.cache, key, load, until)
    ensures if Ends(o, s, e, key, load, until) then !HasLoad(Step(o, s, e).cache, load)
            else Has(Step(o, s, e).cache, key, load, Until(o, e, load, until))
  {
    EntryIsAt(s.cache, key, load, until);
    match e
    case Call(other, now) =>
      if other == key {
        CallOfKey(o, s, key, now, load, until);
      } else if Servable(s.cache, other, now) {
        TouchOfOther(o, s, other, now, key, load, until);
      } else {
        StartOfOther(o, s, other, now, key, load, until);
      }
    case Settle(settled, _, _) =>
      if settled in s.inFlight && IsLive(s.cache, s.inFlight[settled], settled) {
        SettleOfLive(o, s, e, key, load, until);
      } else {
        StaleSettle(o, s, e, key, load, until);
      }
    case Invalidate(other) =>
      var i, j := At(s.cache, key), At(s.cache, other);
      RemovalKeepsEntry(s.cache, j, key, load, until);
      assert j < |s.cache| && i != j ==> Differ(s.cache[if i < j then i else j], s.cache[if i < j then j else i]);
  }

  // ---------------------------------------------------------------------------------------------
  // The entry of one load over a whole run
  // ---------------------------------------------------------------------------------------------

  /** Event `c` is a call of the key that starts this load. */
  ghost predicate StartsLoad(o: MemoOptions, events: seq<Event>, c: nat, key: string, load: nat)
  {
    && c < |events| && events[c].Call? && events[c].key == key
    && After(o, events[..c]).loads == load && After(o, events[..c + 1]).loads == load + 1
  }

  predicate IsSettleOf(e: Event, load: nat)
  {
    e.Settle? && e.load == load
  }

  /** Event `k` is the first to settle the load that event `c` started. */
  ghost predicate IsSettlement(events: seq<Event>, c: nat, load: nat, k: nat)
  {
    c < k < |events| && IsSettleOf(events[k], load) && forall j | c < j < k :: !IsSettleOf(events[j], load)
  }

  ghost predicate IsUnsettled(events: seq<Event>, c: nat, load: nat)
  {
    forall j | c < j < |events| :: !IsSettleOf(events[j], load)
  }

  /** There is room for one new entry, and behind it nothing has invalidated the key or pushed it out. */
  ghost predicate IsUndisturbed(o: MemoOptions, events: seq<Event>, c: nat, key: string)
  {
    && 1 <= o.maxEntries && 1 <= o.maxWeight
    && forall j | c < j < |events| :: !Disturbs(o, events, j, key)
  }

  ghost predicate Disturbs(o: MemoOptions, events: seq<Event>, j: nat, key: string)
    requires j < |events|
  {
    events[j] == Invalidate(key) || PushesOut(o, After(o, events[..j]), events[j], key)
  }

  /** Every call of the key behind event `k` comes before this time. */
  predicate CalledBefore(events: seq<Event>, k: nat, key: string, until: int)
  {
    forall j | k < j < |events| && events[j].Call? && events[j].key == key :: events[j].now < until
  }

  function UntilAfter(o: MemoOptions, events: seq<Event>, c: nat, load: nat): Option<int>
  {
    if |events| <= c + 1 then None
    else Until(o, events[|events| - 1], load, UntilAfter(o, events[..|events| - 1], c, load))
  }

  ghost predicate Lasts(o: MemoOptions, events: seq<Event>, c: nat, key: string, load: nat)
  {
    if |events| <= c + 1 then 1 <= o.maxEntries && 1 <= o.maxWeight
    else
      var before, e := events[..|events| - 1], events[|events| - 1];
      Lasts(o, before, c, key, load)
      && !Ends(o, After(o, before), e, key, load, UntilAfter(o, before, c, load))
  }

  lemma StepAddsNewLoads(o: MemoOptions, s: State, e: Event, load: nat)
    requires Safe(o, s) && load < s.loads && !HasLoad(s.cache, load)
    ensures load < Step(o, s, e).loads && !HasLoad(Step(o, s, e).cache, load)
  {
    forall x | x in Step(o, s, e).cache ensures x.load != load {
      match e
      case Call(key, now) =>
        KeyIsGone(s.cache, key);
        var n := EvictedIsSuffix(o, Without(s.cache, At(s.cache, key)) + [Entry(key, s.loads, true, 0, 1)]);
      case Settle(settled, outcome, now) => SettlingLeavesTrace(o, s, settled, outcome, now, x);
      case Invalidate(key) => KeyIsGone(s.cache, key);
    }
  }

  lemma StartedEntry(o: MemoOptions, s: State, key: string, now: int)
    requires Safe(o, s) && !Servable(s.cache, key, now)
    ensures if 1 <= o.maxEntries && 1 <= o.maxWeight then Has(AfterCall(o, s, key, now).cache, key, s.loads, None)
            else !HasLoad(AfterCall(o, s, key, now).cache, s.loads)
  {
    var rest, started := Without(s.cache, At(s.cache, key)), Entry(key, s.loads, true, 0, 1);
    StartIsDistinct(o, s, key);
    assert (rest + [started])[|rest|..] == [started];
    TotalAppend([started], []);
    assert Fits(o, [started]) <==> 1 <= o.maxEntries && 1 <= o.maxWeight;
    EvictedHas(o, rest + [started], |rest|, key, s.loads, None);
  }

  /** The entry of a load is there as long as nothing has ended it. */
  lemma {:induction false} EntryOverRun(o: MemoOptions, events: seq<Event>, c: nat, key: string, load: nat)
    requires StartsLoad(o, events, c, key, load)
    ensures load < After(o, events).loads
    ensures var cache := After(o, events).cache;
      if Lasts(o, events, c, key, load) then Has(cache, key, load, UntilAfter(o, events, c, load))
      else !HasLoad(cache, load)
  {
    var before, e := events[..|events| - 1], events[|events| - 1];
    RunsAreSafe(o, before);
    if |events| == c + 1 {
      assert events[..c + 1] == events;
      StartedEntry(o, After(o, before), key, e.now);
    } else {
      assert before[..c] == events[..c] && before[..c + 1] == events[..c + 1];
      EntryOverRun(o, before, c, key, load);
      var until := UntilAfter(o, before, c, load);
      if Lasts(o, before, c, key, load) {
        StepOfEntry(o, After(o, before), e, key, load, until);
      } else {
        StepAddsNewLoads(o, After(o, before), e, load);
      }
    }
  }

  lemma {:induction false} LastsUnsettled(o: MemoOptions, events: seq<Event>, c: nat, key: string, load: nat)
    requires c < |events| && IsUnsettled(events, c, load)
    ensures UntilAfter(o, events, c, load) == None
    ensures Lasts(o, events, c, key, load) <==> IsUndisturbed(o, events, c, key)
  {
    if c + 1 < |events| {
      var before := events[..|events| - 1];
      LastsUnsettled(o, before, c, key, load);
      DisturbedBefore(o, events, c, key);
    }
  }

  lemma DisturbedBefore(o: MemoOptions, events: seq<Event>, c: nat, key: string)
    requires c + 1 < |events|
    ensures IsUndisturbed(o, events, c, key) <==>
      IsUndisturbed(o, events[..|events| - 1], c, key) && !Disturbs(o, events, |events| - 1, key)
  {
    var before := events[..|events| - 1];
    forall j | c < j < |before| ensures Disturbs(o, before, j, key) <==> Disturbs(o, events, j, key) {
      assert before[..j] == events[..j];
    }
  }

  lemma CalledBeforeLast(events: seq<Event>, k: nat, key: string, until: int)
    requires k + 1 < |events|
    ensures var e := events[|events| - 1];
      CalledBefore(events, k, key, until) <==>
        CalledBefore(events[..|events| - 1], k, key, until) && (e.Call? && e.key == key ==> e.now < until)
  {
    var before := events[..|events| - 1];
    assert forall j | k < j < |before| :: before[j] == events[j];
  }

  lemma {:induction false} LastsSettled(o: MemoOptions, events: seq<Event>, c: nat, key: string, load: nat, k: nat)
    requires IsSettlement(events, c, load, k)
    ensures var life := Lifetime(o, events[k].outcome);
      && UntilAfter(o, events, c, load) == Some(events[k].now + life)
      && (Lasts(o, events, c, key, load) <==>
            IsUndisturbed(o, events, c, key) && 0 < life && CalledBefore(events, k, key, events[k].now + life))
  {
    var before, e := events[..|events| - 1], events[|events| - 1];
    var until := events[k].now + Lifetime(o, events[k].outcome);
    DisturbedBefore(o, events, c, key);
    if k == |before| {
      LastsUnsettled(o, before, c, key, load);
      assert CalledBefore(events, k, key, until);
    } else {
      assert before[k] == events[k];
      assert IsSettlement(before, c, load, k);
      LastsSettled(o, before, c, key, load, k);
      CalledBeforeLast(events, k, key, until);
    }
  }

  /** The call gets the outcome of this load and starts none. */
  ghost predicate Joins(o: MemoOptions, events: seq<Event>, key: string, now: int, load: nat)
  {
    && Served(After(o, events), key, now) == load
    && After(o, events + [Call(key, now)]).loads == After(o, events).loads
  }

  lemma JoinsIfHeld(o: MemoOptions, events: seq<Event>, key: string, now: int, load: nat, until: Option<int>)
    requires var s := After(o, events);
      load < s.loads && (Has(s.cache, key, load, until) || !HasLoad(s.cache, load))
    ensures Joins(o, events, key, now, load) <==>
      Has(After(o, events).cache, key, load, until) && (until.Some? ==> now < until.value)
  {
    var s := After(o, events);
    var i := At(s.cache, key);
    RunsAreSafe(o, events);
    assert (events + [Call(key, now)])[..|events|] == events;
    assert i < |s.cache| ==> s.cache[i] in s.cache;
    if Has(s.cache, key, load, until) {
      EntryIsAt(s.cache, key, load, until);
    }
  }

  /** While a load is under way, every call of its key joins it and starts none, exactly if there is room for
      it and nothing has invalidated the key or pushed the entry out since the load started. */
  lemma JoinedWhileUnderWay(o: MemoOptions, events: seq<Event>, c: nat, key: string, load: nat, now: int)
    requires StartsLoad(o, events, c, key, load) && IsUnsettled(events, c, load)
    ensures Joins(o, events, key, now, load) <==> IsUndisturbed(o, events, c, key)
  {
    EntryOverRun(o, events, c, key, load);
    LastsUnsettled(o, events, c, key, load);
    JoinsIfHeld(o, events, key, now, load, None);
  }

  /** Once a load has settled, a call of its key gets its outcome and starts no load exactly if the outcome may
      be kept, this call and every one before it come before its time is up, and nothing has invalidated the
      key or pushed the entry out since the load started. */
  lemma KeptUntilItsTime(o: MemoOptions, events: seq<Event>, c: nat, key: string, load: nat, k: nat, now: int)
    requires StartsLoad(o, events, c, key, load) && IsSettlement(events, c, load, k)
    ensures var life := Lifetime(o, events[k].outcome);
      Joins(o, events, key, now, load) <==>
        && 0 < life && now < events[k].now + life && CalledBefore(events, k, key, events[k].now + life)
        && IsUndisturbed(o, events, c, key)
  {
    EntryOverRun(o, events, c, key, load);
    LastsSettled(o, events, c, key, load, k);
    JoinsIfHeld(o, events, key, now, load, UntilAfter(o, events, c, load));
  }

  /** After an invalidation the next call of the key starts a load, whatever was there. */
  lemma InvalidatedIsLoadedAgain(o: MemoOptions, events: seq<Event>, key: string, now: int)
    ensures var s := After(o, events + [Invalidate(key)]);
      Served(s, key, now) == s.loads && AfterCall(o, s, key, now).loads == s.loads + 1
  {
    assert (events + [Invalidate(key)])[..|events|] == events;
    RunsAreSafe(o, events);
    KeyIsGone(After(o, events).cache, key);
    var s := After(o, events + [Invalidate(key)]);
    assert forall i | 0 <= i < |s.cache| :: s.cache[i] in s.cache;
  }
}
