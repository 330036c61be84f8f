/** The local cache is transparent: the fast path that rejects known over-limit
    keys without asking Redis answers, step for step, like the slow path. */
module RedisLocalCache {
  import opened Prelude
  import opened Limiter
  import opened RedisProtocol
  import RedisStatistics

  /** The same step on instances without a local cache. A lookup that meets a
      cached key skips its INCRBY; without the cache its Charge step runs it. */
  function Uncached(e: Event): Event {
    if e.Start? then e.(call := e.call.(cached := false)) else e
  }

  function UncachedRun(es: seq<Event>): seq<Event> {
    seq(|es|, i requires 0 <= i < |es| => Uncached(es[i]))
  }

  ghost predicate StartsPlain(e: Event, limits: map<string, nat>) {
    e.Start? ==>
      && !e.call.stop
      && forall l | l in e.lookups :: l.key in limits && l.limit.quota.perUnit == limits[l.key]
  }

  /** A run without the stop mode in which each key is judged against one number, its
      entry in `limits`; all else about its limits may vary. */
  ghost predicate Plain(es: seq<Event>, limits: map<string, nat>) {
    forall e | e in es :: StartsPlain(e, limits)
  }

  /** The hits that a lookup wants to add to `key`. */
  ghost function WantsOn(key: string, hits: uint32): Target -> nat {
    (l: Target) => if l.key == key then hits else 0
  }

  /** All hits that the calls of a run can add to one key. */
  ghost function BudgetOn(es: seq<Event>, key: string): nat {
    if es == [] then 0
    else (if es[0].Start? then Sum(es[0].lookups, WantsOn(key, es[0].call.hits)) else 0) + BudgetOn(es[1..], key)
  }

  /** Two counts that judge every later batch alike. */
  predicate AlikeCounts(a: nat, b: nat, max: nat) {
    a == b || (a > max && b > max)
  }

  /** Equal verdicts, up to the statistic that counts local cache hits. */
  predicate SameVerdict(v: Verdict, w: Verdict) {
    && v.code == w.code && v.remaining == w.remaining
    && v.delta.(overLimitWithLocalCache := 0) == w.delta.(overLimitWithLocalCache := 0)
  }

  /** A cached slot `x` and its uncached counterpart `y`. */
  predicate Matches(x: Slot, y: Slot) {
    && y.call == x.call.(cached := false) && y.key == x.key && y.limit == x.limit
    && !y.localHit
    && Rank(x.stage) == Rank(y.stage)
    && (Rank(x.stage) >= 3 ==> SameVerdict(VerdictOf(x), VerdictOf(y)))
    && (x.stage.Judged? ==> SameVerdict(x.stage.verdict, y.stage.verdict))
  }

  ghost predicate SlotsPlain(s: State, limits: map<string, nat>) {
    forall x | x in s.slots :: !x.call.stop && x.key in limits && x.limit.quota.perUnit == limits[x.key]
  }

  ghost predicate Related(s: State, u: State, limits: map<string, nat>) {
    && Inv(s) && Inv(u) && s.next == u.next && u.caches == {}
    && SlotsPlain(s, limits)
    && (forall k | k in limits :: RedisStatistics.CacheSound(s, k, limits[k]))
    && (forall k | k in limits :: AlikeCounts(Count(s.store, k), Count(u.store, k), limits[k]))
    && |s.slots| == |u.slots|
    && (forall j | 0 <= j < |s.slots| :: Matches(s.slots[j], u.slots[j]))
  }

  lemma ReachedAlike(s: State, u: State, limits: map<string, nat>, id: nat, rank: nat)
    requires Related(s, u, limits)
    ensures Reached(s, id, rank) ==> Reached(u, id, rank)
  {
  }

  /** The uncached counter never exceeds the hits of all lookups on its key. */
  lemma CounterWithinBudget(u: State, j: nat)
    requires Inv(u) && j < |u.slots| && Rank(u.slots[j].stage) < 3 && Balanced(u, u.slots[j].key)
    ensures Count(u.store, u.slots[j].key) + u.slots[j].call.hits <=
            Sum(u.slots, RedisStatistics.HitsOn(u.slots[j].key))
  {
    var x := u.slots[j];
    var hits := RedisStatistics.HitsOn(x.key);
    assert SlotOk(u, x);
    var y := x.(amount := x.call.hits);
    var charged := u.slots[j := y];
    SumUpdate(u.slots, j, y, AmountOn(x.key));
    SumUpdate(u.slots, j, y, hits);
    forall z | z in charged ensures AmountOn(x.key)(z) <= hits(z) {
      if z != y {
        assert z in u.slots && SlotOk(u, z);
      }
    }
    SumMonotone(charged, AmountOn(x.key), hits);
  }

  lemma EnabledAlike(s: State, u: State, e: Event, limits: map<string, nat>)
    requires Related(s, u, limits) && Enabled(s, e) && StartsPlain(e, limits)
    requires forall k :: Balanced(u, k) && Sum(u.slots, RedisStatistics.HitsOn(k)) < TWO_32
    ensures Enabled(u, Uncached(e))
  {
    if Touches(e) {
      var x, y := s.slots[e.slot], u.slots[e.slot];
      assert x in s.slots && SlotOk(u, y) && Matches(x, y);
      ReachedAlike(s, u, limits, x.call.id, 1);
      ReachedAlike(s, u, limits, x.call.id, 3);
      if e.Charge? {
        CounterWithinBudget(u, e.slot);
      }
    }
  }

  /** Alike counters judge the next batch alike and stay alike, also when one of
      the two systems rejects it locally. */
  lemma ChargesAlike(limit: Limit, a: uint32, b: uint32, hits: uint32, localHit: bool)
    requires AlikeCounts(a, b, limit.quota.perUnit) && a + hits < TWO_32 && b + hits < TWO_32
    requires localHit ==> a > limit.quota.perUnit
    ensures SameVerdict(Judge(limit, a, a + hits, localHit, hits), Judge(limit, b, b + hits, false, hits))
    ensures AlikeCounts(if localHit then a else a + hits, b + hits, limit.quota.perUnit)
  {
  }

  lemma MatchesAfterTouch(s: State, u: State, e: Event, limits: map<string, nat>)
    requires Related(s, u, limits) && Enabled(s, e) && Enabled(u, e) && Touches(e) && !e.Charge?
    ensures Matches(Apply(s, e).slots[e.slot], Apply(u, e).slots[e.slot])
  {
    var x, y := s.slots[e.slot], u.slots[e.slot];
    assert x in s.slots && Matches(x, y);
  }

  lemma MatchesAfterCharge(s: State, u: State, j: nat, limits: map<string, nat>)
    requires Related(s, u, limits) && Enabled(s, Charge(j)) && Enabled(u, Charge(j))
    ensures Matches(Apply(s, Charge(j)).slots[j], Apply(u, Charge(j)).slots[j])
    ensures var k := s.slots[j].key;
            k in limits &&
            AlikeCounts(Count(Apply(s, Charge(j)).store, k), Count(Apply(u, Charge(j)).store, k), limits[k])
  {
    if s.slots[j].localHit {
      MatchesAfterLocalRejection(s, u, j, limits);
    } else {
      MatchesAfterBothCharge(s, u, j, limits);
    }
  }

  lemma MatchesAfterLocalRejection(s: State, u: State, j: nat, limits: map<string, nat>)
    requires Related(s, u, limits) && Enabled(s, Charge(j)) && Enabled(u, Charge(j)) && s.slots[j].localHit
    ensures Matches(Apply(s, Charge(j)).slots[j], Apply(u, Charge(j)).slots[j])
    ensures var k := s.slots[j].key;
            k in limits &&
            AlikeCounts(Count(Apply(s, Charge(j)).store, k), Count(Apply(u, Charge(j)).store, k), limits[k])
  {
    var x, y := s.slots[j], u.slots[j];
    assert x in s.slots && Matches(x, y) && SlotOk(u, y);
    assert RedisStatistics.CacheSound(s, x.key, x.limit.quota.perUnit);
    // A local rejection is judged without looking at any count.
    assert VerdictOf(Apply(s, Charge(j)).slots[j]) == Judge(x.limit, 0, 0, true, x.call.hits);
    LocalRejection(x.limit, Count(u.store, x.key), x.call.hits);
  }

  lemma MatchesAfterBothCharge(s: State, u: State, j: nat, limits: map<string, nat>)
    requires Related(s, u, limits) && Enabled(s, Charge(j)) && Enabled(u, Charge(j)) && !s.slots[j].localHit
    ensures Matches(Apply(s, Charge(j)).slots[j], Apply(u, Charge(j)).slots[j])
    ensures var k := s.slots[j].key;
            k in limits &&
            AlikeCounts(Count(Apply(s, Charge(j)).store, k), Count(Apply(u, Charge(j)).store, k), limits[k])
  {
    var x, y := s.slots[j], u.slots[j];
    assert x in s.slots && Matches(x, y);
    ChargesAlike(x.limit, Count(s.store, x.key), Count(u.store, x.key), x.call.hits, false);
  }

  lemma LocalRejection(limit: Limit, b: uint32, hits: uint32)
    requires b > limit.quota.perUnit && b + hits < TWO_32
    ensures SameVerdict(Judge(limit, 0, 0, true, hits), Judge(limit, b, b + hits, false, hits))
  {
  }

  lemma SlotStaysMatched(s: State, u: State, e: Event, limits: map<string, nat>, j: nat)
    requires Related(s, u, limits) && Enabled(s, e) && Enabled(u, Uncached(e))
    requires j < |Apply(s, e).slots|
    ensures j < |Apply(u, Uncached(e)).slots|
    ensures Matches(Apply(s, e).slots[j], Apply(u, Uncached(e)).slots[j])
  {
    if e.Charge? && j == e.slot {
      MatchesAfterCharge(s, u, j, limits);
    } else if Touches(e) && j == e.slot {
      MatchesAfterTouch(s, u, e, limits);
    } else if j < |s.slots| {
      assert Matches(s.slots[j], u.slots[j]);
    }
  }

  lemma CountStaysAlike(s: State, u: State, e: Event, limits: map<string, nat>, k: string)
    requires Related(s, u, limits) && Enabled(s, e) && Enabled(u, Uncached(e)) && k in limits
    ensures AlikeCounts(Count(Apply(s, e).store, k), Count(Apply(u, Uncached(e)).store, k), limits[k])
  {
    if e.Charge? {
      assert Matches(s.slots[e.slot], u.slots[e.slot]);
      MatchesAfterCharge(s, u, e.slot, limits);
    }
  }

  lemma CachesStaySound(s: State, u: State, e: Event, limits: map<string, nat>, k: string)
    requires Related(s, u, limits) && Enabled(s, e) && k in limits
    ensures RedisStatistics.CacheSound(Apply(s, e), k, limits[k])
  {
    assert RedisStatistics.OneQuota(s, k, limits[k]);
    RedisStatistics.StepKeepsCacheSound(s, e, k, limits[k]);
  }

  /** Without local caches nothing is ever put into one. */
  lemma NothingCached(u: State, s: State, e: Event, limits: map<string, nat>)
    requires Related(s, u, limits) && Enabled(u, Uncached(e)) && Enabled(s, e)
    ensures Apply(u, Uncached(e)).caches == {}
    ensures Apply(u, Uncached(e)).next == Apply(s, e).next
    ensures |Apply(u, Uncached(e)).slots| == |Apply(s, e).slots|
  {
    if e.Answer? {
      assert Matches(s.slots[e.slot], u.slots[e.slot]);
    }
  }

  lemma StepKeepsRelated(s: State, u: State, e: Event, limits: map<string, nat>)
    requires Related(s, u, limits) && StartsPlain(e, limits) && Enabled(s, e) && Enabled(u, Uncached(e))
    ensures Related(Apply(s, e), Apply(u, Uncached(e)), limits)
  {
    StepKeepsInv(s, e);
    StepKeepsInv(u, Uncached(e));
    SlotsStayPlain(s, e, limits);
    NothingCached(u, s, e, limits);
    var t, w := Apply(s, e), Apply(u, Uncached(e));
    forall k | k in limits
      ensures RedisStatistics.CacheSound(t, k, limits[k])
      ensures AlikeCounts(Count(t.store, k), Count(w.store, k), limits[k])
    {
      CachesStaySound(s, u, e, limits, k);
      CountStaysAlike(s, u, e, limits, k);
    }
    forall j | 0 <= j < |t.slots| ensures Matches(t.slots[j], w.slots[j]) {
      SlotStaysMatched(s, u, e, limits, j);
    }
  }

  lemma SlotsStayPlain(s: State, e: Event, limits: map<string, nat>)
    requires SlotsPlain(s, limits) && Enabled(s, e) && StartsPlain(e, limits)
    ensures SlotsPlain(Apply(s, e), limits)
  {
    var t := Apply(s, e);
    forall x | x in t.slots ensures !x.call.stop && x.key in limits && x.limit.quota.perUnit == limits[x.key] {
      var j :| 0 <= j < |t.slots| && t.slots[j] == x;
      if j < |s.slots| {
        assert s.slots[j] in s.slots;
      } else {
        assert e.lookups[j - |s.slots|] in e.lookups;
      }
    }
  }

  lemma HitsAfterStep(u: State, e: Event, key: string)
    requires Enabled(u, e)
    ensures Sum(Apply(u, e).slots, RedisStatistics.HitsOn(key)) ==
            Sum(u.slots, RedisStatistics.HitsOn(key)) +
              if e.Start? then Sum(e.lookups, WantsOn(key, e.call.hits)) else 0
  {
    var hits := RedisStatistics.HitsOn(key);
    if e.Start? {
      SumConcat(u.slots, NewSlots(e.call, e.lookups), hits);
      NewHits(e.call, e.lookups, key);
    } else if Touches(e) {
      TouchIsUpdate(u, e);
      SumUpdate(u.slots, e.slot, Apply(u, e).slots[e.slot], hits);
    }
  }

  lemma {:induction false} NewHits(call: Call, lookups: seq<Target>, key: string)
    ensures Sum(NewSlots(call, lookups), RedisStatistics.HitsOn(key)) == Sum(lookups, WantsOn(key, call.hits))
  {
    if lookups != [] {
      var n := |lookups| - 1;
      assert NewSlots(call, lookups)[..n] == NewSlots(call, lookups[..n]);
      NewHits(call, lookups[..n], key);
    }
  }

  lemma AllStayBalanced(u: State, e: Event)
    requires Inv(u) && Enabled(u, e) && forall k :: Balanced(u, k)
    ensures forall k :: Balanced(Apply(u, e), k)
  {
    forall k ensures Balanced(Apply(u, e), k) {
      StepKeepsBalance(u, e, k);
    }
  }

  /** Both systems, run side by side. */
  lemma {:induction false} RunsRelated(s: State, u: State, es: seq<Event>, limits: map<string, nat>)
    requires Related(s, u, limits) && Valid(s, es) && Plain(es, limits) && Valid(u, UncachedRun(es))
    ensures Related(Run(s, es), Run(u, UncachedRun(es)), limits)
    decreases |es|
  {
    if es != [] {
      assert es[0] in es;
      assert UncachedRun(es)[1..] == UncachedRun(es[1..]);
      StepKeepsRelated(s, u, es[0], limits);
      RunsRelated(Apply(s, es[0]), Apply(u, Uncached(es[0])), es[1..], limits);
    }
  }

  lemma StepKeepsBudget(u: State, e: Event, es: seq<Event>, key: string)
    requires es != [] && e == Uncached(es[0]) && Enabled(u, e)
    requires Sum(u.slots, RedisStatistics.HitsOn(key)) + BudgetOn(es, key) < TWO_32
    ensures Sum(Apply(u, e).slots, RedisStatistics.HitsOn(key)) + BudgetOn(es[1..], key) < TWO_32
  {
    HitsAfterStep(u, e, key);
  }

  /** As long as no key is asked for 2^32 hits or more, whatever can be done with
      local caches can be done without. */
  lemma {:induction false} UncachedIsValid(s: State, u: State, es: seq<Event>, limits: map<string, nat>)
    requires Related(s, u, limits) && Valid(s, es) && Plain(es, limits)
    requires forall k :: Balanced(u, k)
    requires forall k :: Sum(u.slots, RedisStatistics.HitsOn(k)) + BudgetOn(es, k) < TWO_32
    ensures Valid(u, UncachedRun(es))
    decreases |es|
  {
    if es != [] {
      var e, e' := es[0], Uncached(es[0]);
      assert e in es;
      forall k ensures Sum(u.slots, RedisStatistics.HitsOn(k)) < TWO_32 {
        assert Sum(u.slots, RedisStatistics.HitsOn(k)) + BudgetOn(es, k) < TWO_32;
      }
      EnabledAlike(s, u, e, limits);
      StepKeepsRelated(s, u, e, limits);
      AllStayBalanced(u, e');
      forall k ensures Sum(Apply(u, e').slots, RedisStatistics.HitsOn(k)) + BudgetOn(es[1..], k) < TWO_32 {
        StepKeepsBudget(u, e', es, k);
      }
      UncachedIsValid(Apply(s, e), Apply(u, e'), es[1..], limits);
      assert UncachedRun(es)[1..] == UncachedRun(es[1..]);
    }
  }

  /** The same progress, code, remaining count and statistics for every lookup, except
      the local cache counter; and counters that differ only beyond the limit. */
  ghost predicate Indistinguishable(s: State, u: State, limits: map<string, nat>) {
    && |s.slots| == |u.slots|
    && (forall j | 0 <= j < |s.slots| ::
          var x, y := s.slots[j], u.slots[j];
          && y.key == x.key && y.call.id == x.call.id && Rank(x.stage) == Rank(y.stage)
          && (x.stage.Judged? ==> SameVerdict(x.stage.verdict, y.stage.verdict)))
    && (forall k | k in limits ::
          var a, b, max := Count(s.store, k), Count(u.store, k), limits[k];
          a == b || (a > max && b > max))
  }

  /** Local cache transparency: a run with local caches on any instances and with any
      evictions, and the same run without local caches, cannot be told apart, whenever
      both are runs, that is, no counter reaches 2^32 in either. */
  lemma LocalCacheIsTransparent(es: seq<Event>, limits: map<string, nat>)
    requires Valid(INIT, es) && Plain(es, limits) && Valid(INIT, UncachedRun(es))
    ensures Indistinguishable(Run(INIT, es), Run(INIT, UncachedRun(es)), limits)
  {
    RunsRelated(INIT, INIT, es, limits);
    var s, u := Run(INIT, es), Run(INIT, UncachedRun(es));
    assert forall j | 0 <= j < |s.slots| :: Matches(s.slots[j], u.slots[j]);
  }

  /** The same without looking at the uncached run: it exists when no key is asked for
      2^32 hits or more, however many hits the whole run has. */
  lemma TransparentWithinBudget(es: seq<Event>, limits: map<string, nat>)
    requires Valid(INIT, es) && Plain(es, limits) && forall k :: BudgetOn(es, k) < TWO_32
    ensures Valid(INIT, UncachedRun(es))
    ensures Indistinguishable(Run(INIT, es), Run(INIT, UncachedRun(es)), limits)
  {
    UncachedIsValid(INIT, INIT, es, limits);
    LocalCacheIsTransparent(es, limits);
  }
}
