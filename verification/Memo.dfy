/** The single-flight memo of the upstream adapters: a weighted, time-limited cache in last-use order. */
module MemoSpec {
  import opened Wrappers

  datatype MemoOptions = MemoOptions(ttl: int, negativeTtl: int, maxEntries: int, maxWeight: int)

  /** `load` tells the entries apart: it is the number of the load the entry waits for or keeps. */
  datatype Entry = Entry(key: string, load: nat, pending: bool, expires: int, weight: nat)

  /** `cache` is in insertion order, oldest first. `inFlight` maps the loads under way to their keys. */
  datatype State = State(cache: seq<Entry>, loads: nat, inFlight: map<nat, string>)

  // ---------------------------------------------------------------------------------------------
  // Weights and failures
  // ---------------------------------------------------------------------------------------------

  datatype JsValue = NoNumber | NotANumber | Infinite(positive: bool) | Finite(value: real)

  function Ceiling(x: real): int
  {
    -((-x).Floor)
  }

  /** A usable weight: at least 1, fractions rounded up. `None` is infinite. */
  function NormalizeWeight(v: JsValue): (weight: Option<nat>)
    ensures weight.None? <==> v == Infinite(true)
    ensures weight.Some? ==> 1 <= weight.value
    ensures v.Finite? && 1.0 <= v.value ==> weight.value as real - 1.0 < v.value <= weight.value as real
    ensures !(v.Finite? && 1.0 <= v.value) && v != Infinite(true) ==> weight == Some(1)
  {
    match v
    case NoNumber | NotANumber | Infinite(false) => Some(1)
    case Infinite(true) => None
    case Finite(x) => if x < 1.0 then Some(1) else Some(Ceiling(x))
  }

  datatype UpstreamKind = Timeout | Overloaded | Genuine
  datatype LoadError = Upstream(kind: UpstreamKind) | Foreign

  /** Only genuine upstream failures may be remembered. */
  predicate Cacheable(e: LoadError)
  {
    e == Upstream(Genuine)
  }

  /** How a load ends: with a value, its weigher's answer (`None` if the weigher throws) and its own time
      to live, or with a failure. */
  datatype Outcome = Success(weigher: Option<JsValue>, ttl: Option<int>) | Failure(error: LoadError)

  function WeightOf(weigher: Option<JsValue>): Option<nat>
  {
    match weigher case None => Some(1) case Some(v) => NormalizeWeight(v)
  }

  // ---------------------------------------------------------------------------------------------
  // The cache as an ordered map
  // ---------------------------------------------------------------------------------------------

  /** Position of a key, or the length of the cache. */
  function At(cache: seq<Entry>, key: string): (i: nat)
    ensures i <= |cache| && forall j | 0 <= j < i :: cache[j].key != key
    ensures i < |cache| ==> cache[i].key == key
  {
    if cache == [] || cache[0].key == key then 0 else 1 + At(cache[1..], key)
  }

  function Without(cache: seq<Entry>, i: nat): seq<Entry>
    requires i <= |cache|
  {
    if i == |cache| then cache else cache[..i] + cache[i + 1..]
  }

  function Total(cache: seq<Entry>): nat
  {
    if cache == [] then 0 else cache[0].weight + Total(cache[1..])
  }

  predicate Fits(o: MemoOptions, cache: seq<Entry>)
  {
    |cache| <= o.maxEntries && Total(cache) <= o.maxWeight
  }

  /** Drops oldest entries until both bounds hold. */
  function Evicted(o: MemoOptions, cache: seq<Entry>): seq<Entry>
  {
    if cache == [] || Fits(o, cache) then cache else Evicted(o, cache[1..])
  }

  lemma {:induction false} TotalAppend(a: seq<Entry>, b: seq<Entry>)
    ensures Total(a + b) == Total(a) + Total(b)
  {
    if a == [] {
      assert a + b == b;
    } else {
      TotalAppend(a[1..], b);
      assert (a + b)[1..] == a[1..] + b;
    }
  }

  lemma TotalAt(cache: seq<Entry>, i: nat)
    requires i < |cache|
    ensures Total(cache) == Total(cache[..i]) + cache[i].weight + Total(cache[i + 1..])
  {
    assert cache == cache[..i] + ([cache[i]] + cache[i + 1..]);
    TotalAppend(cache[..i], [cache[i]] + cache[i + 1..]);
    TotalAppend([cache[i]], cache[i + 1..]);
    assert Total([cache[i]]) == cache[i].weight;
  }

  lemma TotalWithout(cache: seq<Entry>, i: nat)
    requires i < |cache|
    ensures Total(Without(cache, i)) == Total(cache) - cache[i].weight
  {
    TotalAt(cache, i);
    TotalAppend(cache[..i], cache[i + 1..]);
  }

  lemma TotalUpdate(cache: seq<Entry>, i: nat, e: Entry)
    requires i < |cache|
    ensures Total(cache[i := e]) == Total(cache) - cache[i].weight + e.weight
  {
    TotalAt(cache, i);
    TotalAt(cache[i := e], i);
    assert cache[i := e][..i] == cache[..i] && cache[i := e][i + 1..] == cache[i + 1..];
  }

  /** Eviction removes exactly the shortest oldest part that restores both bounds. */
  lemma {:induction false} EvictionIsMinimal(o: MemoOptions, cache: seq<Entry>) returns (n: nat)
    ensures n <= |cache| && Evicted(o, cache) == cache[n..]
    ensures Fits(o, cache[n..]) || cache[n..] == []
    ensures forall m | 0 <= m < n :: !Fits(o, cache[m..])
  {
    if cache == [] || Fits(o, cache) {
      n := 0;
    } else {
      var k := EvictionIsMinimal(o, cache[1..]);
      n := k + 1;
      assert cache[1..][k..] == cache[n..];
      forall m | 0 <= m < n ensures !Fits(o, cache[m..]) {
        if 0 < m {
          assert cache[1..][m - 1..] == cache[m..];
        } else {
          assert cache[0..] == cache;
        }
      }
    }
  }

  // ---------------------------------------------------------------------------------------------
  // Steps
  // ---------------------------------------------------------------------------------------------

  datatype Event =
    | Call(key: string, now: int)
    | Settle(load: nat, outcome: Outcome, now: int)
    | Invalidate(key: string)

  /** The key has an entry that may be served: its load is pending, or its time is not up. */
  predicate Servable(cache: seq<Entry>, key: string, now: int)
  {
    var i := At(cache, key);
    i < |cache| && (cache[i].pending || now < cache[i].expires)
  }

  function AfterCall(o: MemoOptions, s: State, key: string, now: int): State
  {
    var i := At(s.cache, key);
    if Servable(s.cache, key, now) then s.(cache := Without(s.cache, i) + [s.cache[i]])
    else
      State(Evicted(o, Without(s.cache, i) + [Entry(key, s.loads, true, 0, 1)]), s.loads + 1,
        s.inFlight[s.loads := key])
  }

  /** The load whose outcome the caller gets. */
  function Served(s: State, key: string, now: int): nat
  {
    if Servable(s.cache, key, now) then s.cache[At(s.cache, key)].load else s.loads
  }

  /** A load may bring its own time to live. */
  function LifeOf(o: MemoOptions, ttl: Option<int>): int
  {
    match ttl case Some(t) => t case None => o.ttl
  }

  function Settled(o: MemoOptions, cache: seq<Entry>, i: nat, outcome: Outcome, now: int): seq<Entry>
    requires i < |cache|
  {
    match outcome
    case Success(weigher, ttl) =>
      var life := LifeOf(o, ttl);
      var weight := WeightOf(weigher);
      if life <= 0 || weight.None? || o.maxWeight < weight.value then Without(cache, i)
      else Evicted(o, cache[i := cache[i].(pending := false, expires := now + life, weight := weight.value)])
    case Failure(error) =>
      if 0 < o.negativeTtl && Cacheable(error) then
        cache[i := cache[i].(pending := false, expires := now + o.negativeTtl)]
      else Without(cache, i)
  }

  predicate IsLive(cache: seq<Entry>, key: string, load: nat)
  {
    var i := At(cache, key);
    i < |cache| && cache[i].load == load
  }

  function AfterSettle(o: MemoOptions, s: State, load: nat, outcome: Outcome, now: int): State
  {
    if load !in s.inFlight then s
    else
      var key := s.inFlight[load];
      State(if IsLive(s.cache, key, load) then Settled(o, s.cache, At(s.cache, key), outcome, now)
        else s.cache, s.loads, s.inFlight - {load})
  }

  function AfterInvalidate(s: State, key: string): State
  {
    s.(cache := Without(s.cache, At(s.cache, key)))
  }

  function Step(o: MemoOptions, s: State, e: Event): State
  {
    match e
    case Call(key, now) => AfterCall(o, s, key, now)
    case Settle(load, outcome, now) => AfterSettle(o, s, load, outcome, now)
    case Invalidate(key) => AfterInvalidate(s, key)
  }

  /** The state after any sequence of events. Only a load under way can settle. */
  function After(o: MemoOptions, events: seq<Event>): State
  {
    if events == [] then State([], 0, map[]) else Step(o, After(o, events[..|events| - 1]), events[|events| - 1])
  }

  // ---------------------------------------------------------------------------------------------
  // Safety in every run
  // ---------------------------------------------------------------------------------------------

  ghost predicate Distinct(cache: seq<Entry>)
  {
    forall i, j | 0 <= i < j < |cache| :: Differ(cache[i], cache[j])
  }

  predicate Differ(a: Entry, b: Entry)
  {
    a.key != b.key && a.load != b.load
  }

  /** An entry weighs at least 1, exactly 1 while pending, and is pending while its load is under way. */
  predicate EntryOk(loads: nat, inFlight: map<nat, string>, e: Entry)
  {
    && 1 <= e.weight && e.load < loads && (e.pending ==> e.weight == 1)
    && (e.pending <==> e.load in inFlight) && (e.pending ==> inFlight[e.load] == e.key)
  }

  ghost predicate EntriesOk(loads: nat, inFlight: map<nat, string>, cache: seq<Entry>)
  {
    forall e | e in cache :: EntryOk(loads, inFlight, e)
  }

  ghost predicate Safe(o: MemoOptions, s: State)
  {
    && Distinct(s.cache)
    && EntriesOk(s.loads, s.inFlight, s.cache)
    && (forall load | load in s.inFlight :: load < s.loads)
    && (s.cache == [] || Fits(o, s.cache))
  }

  lemma EvictedIsSuffix(o: MemoOptions, cache: seq<Entry>) returns (n: nat)
    ensures n <= |cache| && Evicted(o, cache) == cache[n..]
    ensures Evicted(o, cache) == [] || Fits(o, Evicted(o, cache))
  {
    n := EvictionIsMinimal(o, cache);
  }

  lemma EvictedStaysDistinct(o: MemoOptions, cache: seq<Entry>)
    requires Distinct(cache)
    ensures Distinct(Evicted(o, cache)) && forall e | e in Evicted(o, cache) :: e in cache
  {
    var n := EvictedIsSuffix(o, cache);
  }

  lemma WithoutStaysDistinct(cache: seq<Entry>, i: nat)
    requires i < |cache| && Distinct(cache)
    ensures Distinct(Without(cache, i))
    ensures forall e | e in Without(cache, i) :: e in cache && Differ(e, cache[i])
  {
    var rest := Without(cache, i);
    forall k | 0 <= k < |rest| ensures rest[k] in cache && Differ(rest[k], cache[i]) {
      assert rest[k] == cache[if k < i then k else k + 1];
      assert Differ(cache[if k < i then k else i], cache[if k < i then i else k + 1]);
    }
    forall k, l | 0 <= k < l < |rest| ensures Differ(rest[k], rest[l]) {
      assert Differ(cache[if k < i then k else k + 1], cache[if l < i then l else l + 1]);
    }
  }

  lemma UpdateStaysDistinct(cache: seq<Entry>, i: nat, e: Entry)
    requires i < |cache| && Distinct(cache) && e.key == cache[i].key && e.load == cache[i].load
    ensures Distinct(cache[i := e])
    ensures forall x | x in cache[i := e] :: x == e || (x in cache && Differ(x, e))
  {
    var new_ := cache[i := e];
    forall k, l | 0 <= k < l < |cache| ensures Differ(new_[k], new_[l]) {
      assert Differ(cache[k], cache[l]);
    }
    forall k | 0 <= k < |cache| && k != i ensures Differ(new_[k], e) && new_[k] in cache {
      assert Differ(cache[if k < i then k else i], cache[if k < i then i else k]);
    }
  }

  lemma TouchIsSafe(o: MemoOptions, s: State, i: nat)
    requires Safe(o, s) && i < |s.cache|
    ensures Safe(o, s.(cache := Without(s.cache, i) + [s.cache[i]]))
  {
    WithoutStaysDistinct(s.cache, i);
    TotalWithout(s.cache, i);
    TotalAppend(Without(s.cache, i), [s.cache[i]]);
  }

  lemma NewLoadIsSafe(o: MemoOptions, s: State, key: string, rest: seq<Entry>)
    requires Safe(o, s) && Distinct(rest) && forall e | e in rest :: e in s.cache && e.key != key
    ensures Safe(o, State(Evicted(o, rest + [Entry(key, s.loads, true, 0, 1)]), s.loads + 1,
        s.inFlight[s.loads := key]))
  {
    var e := Entry(key, s.loads, true, 0, 1);
    forall x | x in rest ensures EntryOk(s.loads, s.inFlight, x) && Differ(x, e) {
    }
    EvictedStaysDistinct(o, rest + [e]);
    var n := EvictedIsSuffix(o, rest + [e]);
    forall x | x in Evicted(o, rest + [e]) ensures EntryOk(s.loads + 1, s.inFlight[s.loads := key], x) {
    }
  }

  lemma CallIsSafe(o: MemoOptions, s: State, key: string, now: int)
    requires Safe(o, s)
    ensures Safe(o, AfterCall(o, s, key, now))
  {
    var i := At(s.cache, key);
    if Servable(s.cache, key, now) {
      TouchIsSafe(o, s, i);
    } else {
      KeyIsGone(s.cache, key);
      NewLoadIsSafe(o, s, key, Without(s.cache, i));
    }
  }

  lemma KeyIsGone(cache: seq<Entry>, key: string)
    requires Distinct(cache)
    ensures Distinct(Without(cache, At(cache, key)))
    ensures forall e | e in Without(cache, At(cache, key)) :: e in cache && e.key != key
  {
    if At(cache, key) < |cache| {
      WithoutStaysDistinct(cache, At(cache, key));
    }
  }

  lemma RemovalIsSafe(o: MemoOptions, s: State, i: nat)
    requires Safe(o, s) && i < |s.cache|
    ensures Safe(o, s.(cache := Without(s.cache, i), inFlight := s.inFlight - {s.cache[i].load}))
  {
    WithoutStaysDistinct(s.cache, i);
    TotalWithout(s.cache, i);
    var s' := s.(cache := Without(s.cache, i), inFlight := s.inFlight - {s.cache[i].load});
    forall e | e in s'.cache ensures EntryOk(s'.loads, s'.inFlight, e) {
      assert e in s.cache && EntryOk(s.loads, s.inFlight, e);
    }
  }

  /** An entry settles with a weight of at least 1; the totals are checked again where it changes. */
  lemma SettledEntryIsSafe(o: MemoOptions, s: State, i: nat, expires: int, weight: nat)
    requires Safe(o, s) && i < |s.cache| && s.cache[i].pending && 1 <= weight
    ensures var updated := s.cache[i := s.cache[i].(pending := false, expires := expires, weight := weight)];
            && Safe(o, s.(cache := Evicted(o, updated), inFlight := s.inFlight - {s.cache[i].load}))
            && (weight == 1 ==> Evicted(o, updated) == updated)
  {
    var e := s.cache[i].(pending := false, expires := expires, weight := weight);
    var updated := s.cache[i := e];
    UpdateStaysDistinct(s.cache, i, e);
    TotalUpdate(s.cache, i, e);
    EvictedStaysDistinct(o, updated);
    var n := EvictedIsSuffix(o, updated);
    var inFlight := s.inFlight - {e.load};
    assert s.cache[i] in s.cache && EntryOk(s.loads, s.inFlight, s.cache[i]);
    forall x | x in Evicted(o, updated) ensures EntryOk(s.loads, inFlight, x) {
      assert x == e || EntryOk(s.loads, s.inFlight, x);
    }
  }

  lemma StaleSettleIsSafe(o: MemoOptions, s: State, load: nat)
    requires Safe(o, s) && load in s.inFlight && !IsLive(s.cache, s.inFlight[load], load)
    ensures Safe(o, s.(inFlight := s.inFlight - {load}))
  {
    forall e | e in s.cache ensures EntryOk(s.loads, s.inFlight - {load}, e) {
      assert EntryOk(s.loads, s.inFlight, e);
      if e.load == load {
        var j :| 0 <= j < |s.cache| && s.cache[j] == e;
        KeyIsAt(s.cache, j);
      }
    }
  }

  lemma KeyIsAt(cache: seq<Entry>, j: nat)
    requires j < |cache| && Distinct(cache)
    ensures At(cache, cache[j].key) == j
  {
    assert forall k | 0 <= k < j :: Differ(cache[k], cache[j]);
  }

  lemma SuccessIsSafe(o: MemoOptions, s: State, i: nat, weigher: Option<JsValue>, ttl: Option<int>, now: int)
    requires Safe(o, s) && i < |s.cache| && s.cache[i].pending
    ensures var cache := Settled(o, s.cache, i, Success(weigher, ttl), now);
            Safe(o, s.(cache := cache, inFlight := s.inFlight - {s.cache[i].load}))
  {
    var life, weight := LifeOf(o, ttl), WeightOf(weigher);
    if life <= 0 || weight.None? || o.maxWeight < weight.value {
      RemovalIsSafe(o, s, i);
    } else {
      SettledEntryIsSafe(o, s, i, now + life, weight.value);
    }
  }

  lemma FailureIsSafe(o: MemoOptions, s: State, i: nat, error: LoadError, now: int)
    requires Safe(o, s) && i < |s.cache| && s.cache[i].pending
    ensures var cache := Settled(o, s.cache, i, Failure(error), now);
            Safe(o, s.(cache := cache, inFlight := s.inFlight - {s.cache[i].load}))
  {
    if 0 < o.negativeTtl && Cacheable(error) {
      assert s.cache[i] in s.cache && EntryOk(s.loads, s.inFlight, s.cache[i]);
      SettledEntryIsSafe(o, s, i, now + o.negativeTtl, 1);
    } else {
      RemovalIsSafe(o, s, i);
    }
  }

  lemma SettleIsSafe(o: MemoOptions, s: State, load: nat, outcome: Outcome, now: int)
    requires Safe(o, s)
    ensures Safe(o, AfterSettle(o, s, load, outcome, now))
  {
    if load in s.inFlight && IsLive(s.cache, s.inFlight[load], load) {
      var i := At(s.cache, s.inFlight[load]);
      assert s.cache[i] in s.cache && EntryOk(s.loads, s.inFlight, s.cache[i]);
      match outcome
      case Success(weigher, ttl) => SuccessIsSafe(o, s, i, weigher, ttl, now);
      case Failure(error) => FailureIsSafe(o, s, i, error, now);
    } else if load in s.inFlight {
      StaleSettleIsSafe(o, s, load);
    }
  }

  lemma InvalidateIsSafe(o: MemoOptions, s: State, key: string)
    requires Safe(o, s)
    ensures Safe(o, AfterInvalidate(s, key))
  {
    var i := At(s.cache, key);
    if i < |s.cache| {
      WithoutStaysDistinct(s.cache, i);
      TotalWithout(s.cache, i);
    }
  }

  /** In every run and after every step: distinct keys, honest weights, and both bounds. */
  lemma {:induction false} RunsAreSafe(o: MemoOptions, events: seq<Event>)
    ensures Safe(o, After(o, events))
  {
    if events != [] {
      var before, e := events[..|events| - 1], events[|events| - 1];
      RunsAreSafe(o, before);
      match e
      case Call(key, now) => CallIsSafe(o, After(o, before), key, now);
      case Settle(load, outcome, now) => SettleIsSafe(o, After(o, before), load, outcome, now);
      case Invalidate(key) => InvalidateIsSafe(o, After(o, before), key);
    }
  }

  // ---------------------------------------------------------------------------------------------
  // Single flight, last-use order, and what may be served
  // ---------------------------------------------------------------------------------------------

  /** A call starts a load exactly when its key has no entry that is pending or in time; otherwise it
      joins the load of that entry. */
  lemma CallStartsLoadIffUnservable(o: MemoOptions, s: State, key: string, now: int)
    requires Safe(o, s)
    ensures AfterCall(o, s, key, now).loads == s.loads + 1 <==>
        !exists e :: e in s.cache && e.key == key && (e.pending || now < e.expires)
    ensures forall e | e in s.cache && e.key == key && (e.pending || now < e.expires) ::
              Served(s, key, now) == e.load && AfterCall(o, s, key, now).inFlight == s.inFlight
    ensures AfterCall(o, s, key, now).loads == s.loads + 1 ==> Served(s, key, now) == s.loads && s.loads !in s.inFlight
  {
    forall e | e in s.cache && e.key == key ensures s.cache[At(s.cache, key)] == e {
      var j :| 0 <= j < |s.cache| && s.cache[j] == e;
      KeyIsAt(s.cache, j);
    }
    if Servable(s.cache, key, now) {
      assert s.cache[At(s.cache, key)] in s.cache;
    }
  }

  /** Settling a load whose entry was evicted, replaced or invalidated changes nothing in the cache. */
  lemma StaleSettleChangesNothing(o: MemoOptions, s: State, load: nat, outcome: Outcome, now: int)
    requires Safe(o, s) && forall e | e in s.cache :: e.load != load
    ensures AfterSettle(o, s, load, outcome, now).cache == s.cache
  {
    if load in s.inFlight {
      var i := At(s.cache, s.inFlight[load]);
      assert i < |s.cache| ==> s.cache[i] in s.cache;
    }
  }

  /** Position of the last call for a key, -1 if there is none. */
  function LastUse(events: seq<Event>, key: string): int
  {
    if events == [] then -1
    else
      var e := events[|events| - 1];
      if e.Call? && e.key == key then |events| - 1 else LastUse(events[..|events| - 1], key)
  }

  lemma {:induction false} LastUseIsPast(events: seq<Event>, key: string)
    ensures -1 <= LastUse(events, key) < |events|
  {
    if events != [] {
      LastUseIsPast(events[..|events| - 1], key);
    }
  }

  /** Oldest use first. */
  ghost predicate InUseOrder(events: seq<Event>, cache: seq<Entry>)
  {
    forall i, j | 0 <= i < j < |cache| :: UsedBefore(events, cache[i], cache[j])
  }

  predicate UsedBefore(events: seq<Event>, a: Entry, b: Entry)
  {
    LastUse(events, a.key) < LastUse(events, b.key)
  }

  lemma SubsequenceStaysInOrder(events: seq<Event>, cache: seq<Entry>, i: nat)
    requires InUseOrder(events, cache) && i <= |cache|
    ensures InUseOrder(events, Without(cache, i)) && InUseOrder(events, cache[i..])
  {
    if i < |cache| {
      var rest := Without(cache, i);
      forall k, l | 0 <= k < l < |rest| ensures UsedBefore(events, rest[k], rest[l]) {
        assert UsedBefore(events, cache[if k < i then k else k + 1], cache[if l < i then l else l + 1]);
      }
    }
  }

  lemma CallMovesKeyLast(events: seq<Event>, key: string, now: int, rest: seq<Entry>, used: Entry)
    requires InUseOrder(events, rest) && used.key == key && forall e | e in rest :: e.key != key
    ensures InUseOrder(events + [Call(key, now)], rest + [used])
  {
    var events' := events + [Call(key, now)];
    assert events'[..|events|] == events;
    forall k | 0 <= k < |rest| ensures LastUse(events', rest[k].key) == LastUse(events, rest[k].key) < |events| {
      assert rest[k] in rest;
      LastUseIsPast(events, rest[k].key);
    }
    forall k, l | 0 <= k < l < |rest| ensures UsedBefore(events', rest[k], rest[l]) {
      assert UsedBefore(events, rest[k], rest[l]);
    }
  }

  lemma UpdateKeepsOrder(o: MemoOptions, events: seq<Event>, cache: seq<Entry>, i: nat, e: Entry)
    requires InUseOrder(events, cache) && i < |cache| && e.key == cache[i].key
    ensures InUseOrder(events, cache[i := e]) && InUseOrder(events, Evicted(o, cache[i := e]))
  {
    var updated := cache[i := e];
    forall k, l | 0 <= k < l < |cache| ensures UsedBefore(events, updated[k], updated[l]) {
      assert UsedBefore(events, cache[k], cache[l]);
    }
    var n := EvictionIsMinimal(o, updated);
    SubsequenceStaysInOrder(events, updated, n);
  }

  lemma SettleKeepsOrder(o: MemoOptions, events: seq<Event>, s: State, load: nat, outcome: Outcome, now: int)
    requires InUseOrder(events, s.cache)
    ensures InUseOrder(events, AfterSettle(o, s, load, outcome, now).cache)
  {
    if load in s.inFlight && IsLive(s.cache, s.inFlight[load], load) {
      var i := At(s.cache, s.inFlight[load]);
      SubsequenceStaysInOrder(events, s.cache, i);
      match outcome
      case Success(weigher, ttl) =>
        if WeightOf(weigher).Some? {
          UpdateKeepsOrder(o, events, s.cache, i, s.cache[i].(pending := false, expires := now + LifeOf(o, ttl),
            weight := WeightOf(weigher).value));
        }
      case Failure(_) =>
        UpdateKeepsOrder(o, events, s.cache, i, s.cache[i].(pending := false, expires := now + o.negativeTtl));
    }
  }

  lemma CallKeepsOrder(o: MemoOptions, events: seq<Event>, s: State, key: string, now: int)
    requires Safe(o, s) && InUseOrder(events, s.cache)
    ensures InUseOrder(events + [Call(key, now)], AfterCall(o, s, key, now).cache)
  {
    var i := At(s.cache, key);
    var rest := Without(s.cache, i);
    var used := if Servable(s.cache, key, now) then s.cache[i] else Entry(key, s.loads, true, 0, 1);
    KeyIsGone(s.cache, key);
    SubsequenceStaysInOrder(events, s.cache, i);
    CallMovesKeyLast(events, key, now, rest, used);
    if !Servable(s.cache, key, now) {
      var n := EvictionIsMinimal(o, rest + [used]);
      SubsequenceStaysInOrder(events + [Call(key, now)], rest + [used], n);
    }
  }

  /** In every run the cache is in the order of last use, so eviction takes what was used longest ago. */
  lemma {:induction false} RunsKeepUseOrder(o: MemoOptions, events: seq<Event>)
    ensures InUseOrder(events, After(o, events).cache)
  {
    if events != [] {
      var before, e := events[..|events| - 1], events[|events| - 1];
      assert events == before + [e];
      RunsKeepUseOrder(o, before);
      RunsAreSafe(o, before);
      var s := After(o, before);
      match e
      case Call(key, now) => CallKeepsOrder(o, before, s, key, now);
      case Settle(load, outcome, now) =>
        SettleKeepsOrder(o, before, s, load, outcome, now);
      case Invalidate(key) =>
        SubsequenceStaysInOrder(before, s.cache, At(s.cache, key));
    }
  }

  /** What weighs more than the whole cache may; without a usable weight a value weighs 1. */
  predicate IsTooHeavy(o: MemoOptions, weigher: Option<JsValue>)
  {
    match weigher
    case Some(Infinite(true)) => true
    case Some(Finite(x)) => o.maxWeight < 1 || o.maxWeight as real < x
    case _ => o.maxWeight < 1
  }

  /** How long an outcome may be served after it settled; not at all if that is not positive. */
  function Lifetime(o: MemoOptions, outcome: Outcome): int
  {
    match outcome
    case Success(weigher, Some(ttl)) => if IsTooHeavy(o, weigher) then 0 else ttl
    case Success(weigher, None) => if IsTooHeavy(o, weigher) then 0 else o.ttl
    case Failure(Upstream(Genuine)) => o.negativeTtl
    case Failure(_) => 0
  }

  lemma WeightMeaning(o: MemoOptions, weigher: Option<JsValue>)
    ensures IsTooHeavy(o, weigher) <==> WeightOf(weigher).None? || o.maxWeight < WeightOf(weigher).value
  {
    match weigher
    case Some(Finite(x)) =>
      if 1.0 <= x && o.maxWeight as real < x {
        assert o.maxWeight as real < WeightOf(weigher).value as real;
      }
    case _ =>
  }

  /** Event `k` settled the entry's load and gave it the time it has. */
  ghost predicate SettledBy(o: MemoOptions, events: seq<Event>, e: Entry, k: nat)
  {
    && k < |events| && events[k].Settle? && events[k].load == e.load
    && 0 < Lifetime(o, events[k].outcome) && e.expires == events[k].now + Lifetime(o, events[k].outcome)
  }

  ghost predicate HasSettled(o: MemoOptions, events: seq<Event>, e: Entry)
  {
    exists k :: SettledBy(o, events, e, k)
  }

  lemma StillSettled(o: MemoOptions, events: seq<Event>, more: Event, e: Entry)
    requires HasSettled(o, events, e)
    ensures HasSettled(o, events + [more], e)
  {
    var k: nat :| SettledBy(o, events, e, k);
    assert (events + [more])[k] == events[k];
    assert SettledBy(o, events + [more], e, k);
  }

  lemma SettlingLeavesTrace(o: MemoOptions, s: State, load: nat, outcome: Outcome, now: int, e: Entry)
    requires Safe(o, s) && e in AfterSettle(o, s, load, outcome, now).cache
    ensures e in s.cache || (!e.pending && e.load == load && 0 < Lifetime(o, outcome) && e.expires == now
        + Lifetime(o, outcome))
  {
    if load in s.inFlight && IsLive(s.cache, s.inFlight[load], load) {
      var i := At(s.cache, s.inFlight[load]);
      WithoutStaysDistinct(s.cache, i);
      match outcome
      case Success(weigher, ttl) =>
        WeightMeaning(o, weigher);
        var life := LifeOf(o, ttl);
        if WeightOf(weigher).Some? {
          var settled := s.cache[i].(pending := false, expires := now + life, weight := WeightOf(weigher).value);
          UpdateStaysDistinct(s.cache, i, settled);
          EvictedStaysDistinct(o, s.cache[i := settled]);
        }
      case Failure(_) =>
        UpdateStaysDistinct(s.cache, i, s.cache[i].(pending := false, expires := now + o.negativeTtl));
    }
  }

  lemma CallAddsPending(o: MemoOptions, s: State, key: string, now: int, e: Entry)
    requires Safe(o, s) && e in AfterCall(o, s, key, now).cache
    ensures e in s.cache || e.pending
  {
    var i := At(s.cache, key);
    var rest := Without(s.cache, i);
    KeyIsGone(s.cache, key);
    if !Servable(s.cache, key, now) {
      var fresh_ := Entry(key, s.loads, true, 0, 1);
      var n := EvictedIsSuffix(o, rest + [fresh_]);
    }
  }

  /** In every run, an entry that is no longer pending carries the time its settlement gave it. */
  lemma {:induction false} SettledEntriesHaveLifetimes(o: MemoOptions, events: seq<Event>, e: Entry)
    requires e in After(o, events).cache && !e.pending
    ensures HasSettled(o, events, e)
  {
    if events != [] {
      var before, event := events[..|events| - 1], events[|events| - 1];
      assert events == before + [event];
      RunsAreSafe(o, before);
      var s := After(o, before);
      match event {
        case Call(key, now) => CallAddsPending(o, s, key, now, e);
        case Settle(load, outcome, now) => SettlingLeavesTrace(o, s, load, outcome, now, e);
        case Invalidate(key) => KeyIsGone(s.cache, key);
      }
      if e in s.cache {
        SettledEntriesHaveLifetimes(o, before, e);
        StillSettled(o, before, event, e);
      } else {
        assert SettledBy(o, events, e, |events| - 1);
      }
    }
  }

  /** A call after any run either starts a load, or joins one under way, or gets an outcome that settled
      earlier, may be kept, and whose time is not up. So a timeout, an overload or a foreign failure is
      never served once it has settled. */
  lemma ServedOutcomesAreInTime(o: MemoOptions, events: seq<Event>, key: string, now: int)
    ensures var s := After(o, events);
            var load := Served(s, key, now);
            || load == s.loads
            || (load in s.inFlight && s.inFlight[load] == key)
            || exists k :: 0 <= k < |events| && events[k].Settle? && events[k].load == load
                           && events[k].now + Lifetime(o, events[k].outcome) > now && 0 < Lifetime(o, events[k].outcome)
  {
    var s := After(o, events);
    RunsAreSafe(o, events);
    if Servable(s.cache, key, now) {
      var e := s.cache[At(s.cache, key)];
      assert e in s.cache && EntryOk(s.loads, s.inFlight, e);
      if !e.pending {
        SettledEntriesHaveLifetimes(o, events, e);
        var k: nat :| SettledBy(o, events, e, k);
      }
    }
  }
}

/** The memo as the adapters run it, step by step over its cache and its running total. */
module MemoCache {
  import opened MemoSpec
  import opened Wrappers

  class Memo {
    const options: MemoOptions
    var cache: seq<Entry>
    var totalWeight: int
    var loads: nat
    ghost var inFlight: map<nat, string>

    constructor (options: MemoOptions)
      ensures this.options == options && Valid() && View() == After(options, [])
    {
      this.options := options;
      cache, totalWeight, loads, inFlight := [], 0, 0, map[];
    }

    ghost function View(): State
      reads this
    {
      State(cache, loads, inFlight)
    }

    /** The running total is the sum over the live entries, whose keys are distinct. */
    ghost predicate Accounted()
      reads this
    {
      Distinct(cache) && totalWeight == Total(cache)
    }

    ghost predicate Valid()
      reads this
    {
      Accounted() && Safe(options, View())
    }

    method Link(entry: Entry)
      requires Accounted() && forall e | e in cache :: Differ(e, entry)
      modifies this`cache, this`totalWeight
      ensures Accounted() && cache == old(cache) + [entry]
    {
      TotalAppend(cache, [entry]);
      cache := cache + [entry];
      totalWeight := totalWeight + entry.weight;
    }

    /** Removes the entry if it is still the live one for its key. */
    method Unlink(key: string, load: nat)
      requires Accounted()
      modifies this`cache, this`totalWeight
      ensures Accounted()
      ensures cache == if IsLive(old(cache), key, load) then Without(old(cache), At(old(cache), key)) else old(cache)
    {
      if !IsLive(cache, key, load) {
        return;
      }
      var i := At(cache, key);
      TotalWithout(cache, i);
      WithoutStaysDistinct(cache, i);
      totalWeight := totalWeight - cache[i].weight;
      cache := Without(cache, i);
    }

    /** Gives the entry its weight if it is still the live one for its key. */
    method Reweigh(key: string, load: nat, weight: nat)
      requires Accounted()
      modifies this`cache, this`totalWeight
      ensures Accounted()
      ensures cache == if IsLive(old(cache), key, load)
                       then old(cache)[At(old(cache), key) := old(cache)[At(old(cache), key)].(weight := weight)]
                         else old(cache)
    {
      if !IsLive(cache, key, load) {
        return;
      }
      var i := At(cache, key);
      var entry := cache[i].(weight := weight);
      TotalUpdate(cache, i, entry);
      UpdateStaysDistinct(cache, i, entry);
      totalWeight := totalWeight + weight - cache[i].weight;
      cache := cache[i := entry];
    }

    /** Changes what an entry says about its load; its weight stays. */
    method Mark(i: nat, expires: int)
      requires Accounted() && i < |cache|
      modifies this`cache
      ensures Accounted() && cache == old(cache)[i := old(cache)[i].(pending := false, expires := expires)]
    {
      var entry := cache[i].(pending := false, expires := expires);
      TotalUpdate(cache, i, entry);
      UpdateStaysDistinct(cache, i, entry);
      cache := cache[i := entry];
    }

    method Evict()
      requires Accounted()
      modifies this`cache, this`totalWeight
      ensures Accounted() && cache == Evicted(options, old(cache))
    {
      while |cache| > options.maxEntries || totalWeight > options.maxWeight
        invariant Accounted() && Evicted(options, cache) == Evicted(options, old(cache))
        decreases |cache|
      {
        if cache == [] {
          break;
        }
        assert At(cache, cache[0].key) == 0 && Without(cache, 0) == cache[1..];
        Unlink(cache[0].key, cache[0].load);
      }
    }

    /** Serves the entry of the key if it is pending or in time, and starts a load otherwise. */
    method Call(key: string, now: int) returns (load: nat)
      requires Valid()
      modifies this
      ensures Valid() && View() == AfterCall(options, old(View()), key, now)
      ensures load == Served(old(View()), key, now)
    {
      CallIsSafe(options, View(), key, now);
      KeyIsGone(cache, key);
      var i := At(cache, key);
      if i < |cache| && (cache[i].pending || now < cache[i].expires) {
        TotalWithout(cache, i);
        TotalAppend(Without(cache, i), [cache[i]]);
        load := cache[i].load;
        cache := Without(cache, i) + [cache[i]];
        return;
      }
      if i < |cache| {
        Unlink(key, cache[i].load);
      }
      load := loads;
      forall e | e in cache ensures Differ(e, Entry(key, load, true, 0, 1)) {
        assert e in old(cache) && EntryOk(loads, inFlight, e);
      }
      Link(Entry(key, load, true, 0, 1));
      loads := loads + 1;
      inFlight := inFlight[load := key];
      Evict();
    }

    /** The load of the key came back with a value. */
    method SettleValue(key: string, load: nat, weigher: Option<JsValue>, ttl: Option<int>, now: int)
      requires Valid() && load in inFlight && inFlight[load] == key
      modifies this
      ensures Valid() && View() == AfterSettle(options, old(View()), load, Success(weigher, ttl), now)
    {
      SettleIsSafe(options, View(), load, Success(weigher, ttl), now);
      inFlight := inFlight - {load};
      if !IsLive(cache, key, load) {
        return;
      }
      var i := At(cache, key);
      var life := LifeOf(options, ttl);
      var weight := WeightOf(weigher);
      if life <= 0 || weight.None? || weight.value > options.maxWeight {
        Unlink(key, load);
        return;
      }
      Reweigh(key, load, weight.value);
      Mark(i, now + life);
      assert cache == old(cache)[i := old(cache)[i].(pending := false, expires := now + life, weight := weight.value)];
      Evict();
    }

    /** The load of the key failed. */
    method SettleError(key: string, load: nat, error: LoadError, now: int)
      requires Valid() && load in inFlight && inFlight[load] == key
      modifies this
      ensures Valid() && View() == AfterSettle(options, old(View()), load, Failure(error), now)
    {
      SettleIsSafe(options, View(), load, Failure(error), now);
      inFlight := inFlight - {load};
      if !IsLive(cache, key, load) {
        return;
      }
      if options.negativeTtl > 0 && Cacheable(error) {
        Mark(At(cache, key), now + options.negativeTtl);
      } else {
        Unlink(key, load);
      }
    }

    method InvalidateKey(key: string)
      requires Valid()
      modifies this
      ensures Valid() && View() == AfterInvalidate(old(View()), key)
    {
      InvalidateIsSafe(options, View(), key);
      var i := At(cache, key);
      if i < |cache| {
        Unlink(key, cache[i].load);
      }
    }

    /** The diagnostic view: the sum recomputed from the entries is the running total. */
    method Stats() returns (size: nat, total: int, sum: nat)
      requires Valid()
      ensures size == |cache| && total == totalWeight && sum == totalWeight
    {
      sum := 0;
      for i := 0 to |cache|
        invariant sum + Total(cache[i..]) == totalWeight
      {
        assert cache[i..][0] == cache[i] && cache[i..][1..] == cache[i + 1..];
        sum := sum + cache[i].weight;
      }
      return |cache|, totalWeight, sum;
    }
  }
}
