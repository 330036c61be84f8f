/** The optional store for per-second limits of `src/redis/fixed_cache_impl.go`: over
    every sequence of calls, in every mode and with or without a local cache, the split
    between two stores is invisible. */
module RedisTwoStores {
  import opened Prelude
  import opened Limiter
  import opened LimitCall
  import opened RedisCache

  /** Two stores hold together what one store holds. */
  ghost predicate Alike(s: Stores, one: map<string, nat>) {
    forall key :: CountIn(s, key) == CountOf(one, key)
  }

  /** The unsplit sequence of charges, on one store. */
  function Unsplit(
    one: map<string, nat>, ttl: map<string, nat>, lookups: seq<Lookup>, charges: seq<Option<uint32>>, jitters: seq<nat>)
    : Outcome
    requires |lookups| == |charges| == |jitters|
  {
    var n := |lookups|;
    DoAll(Outcome(one, ttl, seq(n, _ => 0)), ChargePipe(false, false, lookups, charges, jitters, n))
  }

  /** The charges, split into the main pipeline and the per-second one. */
  function SplitCharges(
    split: bool, s: Stores, ttl: Stores, lookups: seq<Lookup>, charges: seq<Option<uint32>>, jitters: seq<nat>)
    : (Stores, Stores, seq<nat>)
    requires |lookups| == |charges| == |jitters|
  {
    var n := |lookups|;
    RunBoth(s, ttl, ChargePipe(split, false, lookups, charges, jitters, n),
            ChargePipe(split, true, lookups, charges, jitters, n), seq(n, _ => 0))
  }

  lemma UnsplitInClosedForm(
    one: map<string, nat>, ttl: map<string, nat>, lookups: seq<Lookup>, charges: seq<Option<uint32>>, jitters: seq<nat>)
    requires |lookups| == |charges| == |jitters|
    ensures var n, o := |lookups|, Unsplit(one, ttl, lookups, charges, jitters);
            && (forall key :: CountOf(o.store, key) == CountOf(one, key) + Added(lookups, charges, key, n))
            && (forall key :: CountOf(o.ttl, key) == LastTtl(lookups, charges, jitters, key, n, CountOf(ttl, key)))
            && |o.results| == n
            && forall i | 0 <= i < n ::
                 o.results[i] ==
                 if lookups[i].Skip? || charges[i].None? then 0
                 else CountOf(one, lookups[i].key) + Added(lookups, charges, lookups[i].key, i + 1)
  {
    var n := |lookups|;
    var start := Outcome(one, ttl, seq(n, _ => 0));
    PipeRuns(false, false, lookups, charges, jitters, start, n);
    PipedResults(false, false, {}, lookups, charges, jitters, start, n);
    var o := Unsplit(one, ttl, lookups, charges, jitters);
    forall key
      ensures CountOf(o.store, key) == CountOf(one, key) + Added(lookups, charges, key, n)
      ensures CountOf(o.ttl, key) == LastTtl(lookups, charges, jitters, key, n, CountOf(ttl, key))
    {
      PipedCounts(false, false, {}, lookups, charges, jitters, start, n, key);
    }
  }

  /** One round of charges: the same results at every index, and stores that still
      hold together what the one store holds, counters and times to live alike. */
  lemma SplitEqualsUnsplit(
    split: bool, s: Stores, ttl: Stores, one: map<string, nat>, oneTtl: map<string, nat>,
    lookups: seq<Lookup>, charges: seq<Option<uint32>>, jitters: seq<nat>)
    requires |lookups| == |charges| == |jitters| && Separated(split, lookups, s.perSecond)
    requires s.perSecond == ttl.perSecond && Alike(s, one) && Alike(ttl, oneTtl)
    ensures var (t, ttl', results) := SplitCharges(split, s, ttl, lookups, charges, jitters);
            var o := Unsplit(one, oneTtl, lookups, charges, jitters);
            && t.perSecond == ttl'.perSecond == s.perSecond
            && Alike(t, o.store) && Alike(ttl', o.ttl) && results == o.results
  {
    TwoStoresEqualOne(split, s, ttl, lookups, charges, jitters);
    UnsplitInClosedForm(one, oneTtl, lookups, charges, jitters);
  }

  // ------------------------------------------------------- sequences of calls

  datatype Call = Call(lookups: seq<Lookup>, hits: uint32, jitters: seq<nat>)

  datatype Settings = Settings(split: bool, stop: bool, cached: bool)

  /** Two stores, their times to live, and the local cache. */
  datatype Two = Two(stores: Stores, ttl: Stores, local: set<string>)

  datatype One = One(store: map<string, nat>, ttl: map<string, nat>, local: set<string>)

  /** The keys that a call puts into the local cache, given its results. */
  function Learned(call: Call, known: set<string>, results: seq<nat>): set<string>
    requires |results| == |call.lookups|
  {
    var after := seq(|results|, i requires 0 <= i < |results| => Wrap(results[i]));
    CachedKeys(call.lookups, Verdicts(call.lookups, Befores(after, call.hits), after, known, call.hits))
  }

  function KnownIn(settings: Settings, local: set<string>): set<string> { if settings.cached then local else {} }

  predicate WellFormed(call: Call) { |call.jitters| == |call.lookups| }

  /** A call on two stores, whose counts it also reads in the stop mode. */
  ghost function CallOnTwo(settings: Settings, m: Two, call: Call): (r: (Two, seq<nat>))
    requires WellFormed(call) && Separated(settings.split, call.lookups, m.stores.perSecond)
    requires m.ttl.perSecond == m.stores.perSecond
    ensures r.0.ttl.perSecond == r.0.stores.perSecond == m.stores.perSecond
  {
    var known := KnownIn(settings, m.local);
    var charges := Charges(settings.stop, call.lookups, known, CountsIn(m.stores, call.lookups), call.hits);
    TwoStoresEqualOne(settings.split, m.stores, m.ttl, call.lookups, charges, call.jitters);
    var (t, ttl, results) := SplitCharges(settings.split, m.stores, m.ttl, call.lookups, charges, call.jitters);
    (Two(t, ttl, m.local + if settings.cached then Learned(call, known, results) else {}), results)
  }

  function CountsOn(one: map<string, nat>, lookups: seq<Lookup>): (r: seq<nat>)
    ensures |r| == |lookups|
  {
    seq(|lookups|, i requires 0 <= i < |lookups| => if lookups[i].Skip? then 0 else CountOf(one, lookups[i].key))
  }

  ghost function CallOnOne(settings: Settings, m: One, call: Call): (One, seq<nat>)
    requires WellFormed(call)
  {
    var known := KnownIn(settings, m.local);
    var charges := Charges(settings.stop, call.lookups, known, CountsOn(m.store, call.lookups), call.hits);
    UnsplitInClosedForm(m.store, m.ttl, call.lookups, charges, call.jitters);
    var o := Unsplit(m.store, m.ttl, call.lookups, charges, call.jitters);
    (One(o.store, o.ttl, m.local + if settings.cached then Learned(call, known, o.results) else {}), o.results)
  }

  /** No key is used both with SECOND and with another unit, in any call. */
  ghost predicate AllSeparated(settings: Settings, calls: seq<Call>, perSecond: set<string>) {
    forall c | c in calls :: WellFormed(c) && Separated(settings.split, c.lookups, perSecond)
  }

  ghost function RunOnOne(settings: Settings, m: One, calls: seq<Call>): (One, seq<seq<nat>>)
    requires forall c | c in calls :: WellFormed(c)
    decreases |calls|
  {
    if calls == [] then (m, [])
    else
      var (next, results) := CallOnOne(settings, m, calls[0]);
      var (end, rest) := RunOnOne(settings, next, calls[1..]);
      (end, [results] + rest)
  }

  ghost predicate Agree(two: Two, one: One) {
    && two.ttl.perSecond == two.stores.perSecond && two.local == one.local
    && Alike(two.stores, one.store) && Alike(two.ttl, one.ttl)
  }

  ghost function RunOnTwo(settings: Settings, m: Two, calls: seq<Call>): (Two, seq<seq<nat>>)
    requires AllSeparated(settings, calls, m.stores.perSecond) && m.ttl.perSecond == m.stores.perSecond
    decreases |calls|
  {
    if calls == [] then (m, [])
    else
      assert calls[0] in calls;
      var (next, results) := CallOnTwo(settings, m, calls[0]);
      var (end, rest) := RunOnTwo(settings, next, calls[1..]);
      (end, [results] + rest)
  }

  lemma CallsAgree(settings: Settings, two: Two, one: One, call: Call)
    requires Agree(two, one) && WellFormed(call) && Separated(settings.split, call.lookups, two.stores.perSecond)
    ensures var (two', results) := CallOnTwo(settings, two, call);
            var (one', results') := CallOnOne(settings, one, call);
            Agree(two', one') && results == results' && two'.stores.perSecond == two.stores.perSecond
  {
    assert CountsIn(two.stores, call.lookups) == CountsOn(one.store, call.lookups);
    var charges := Charges(settings.stop, call.lookups, KnownIn(settings, two.local),
                           CountsIn(two.stores, call.lookups), call.hits);
    SplitEqualsUnsplit(settings.split, two.stores, two.ttl, one.store, one.ttl, call.lookups, charges, call.jitters);
  }

  /** Two stores equal one over every sequence of calls: the same results at every index
      of every call, and at the end the same counters, times to live and cached keys. */
  lemma {:induction false} RunsAgree(settings: Settings, two: Two, one: One, calls: seq<Call>)
    requires Agree(two, one) && AllSeparated(settings, calls, two.stores.perSecond)
    ensures var (two', results) := RunOnTwo(settings, two, calls);
            var (one', results') := RunOnOne(settings, one, calls);
            Agree(two', one') && results == results'
    decreases |calls|
  {
    if calls != [] {
      assert calls[0] in calls;
      CallsAgree(settings, two, one, calls[0]);
      RunsAgree(settings, CallOnTwo(settings, two, calls[0]).0, CallOnOne(settings, one, calls[0]).0, calls[1..]);
    }
  }
}
