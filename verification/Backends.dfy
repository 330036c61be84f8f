/** Whole runs of single calls: the two backends agree. */
module Backends {
  import opened Prelude
  import opened Limiter
  import opened LimitCall
  import RedisCache
  import MemcachedCache

  /** What a sequence of calls leaves behind. */
  datatype World = World(counts: map<string, nat>, local: set<string>, stats: StatsStore)

  datatype Request = Request(lookups: seq<Lookup>, hits: uint32, now: nat)

  function KnownIn(w: World, cached: bool): set<string> { if cached then w.local else {} }

  /** The counters after the first `n` charges. */
  function Charged(
    counts: map<string, nat>, lookups: seq<Lookup>, charges: seq<Option<uint32>>, n: nat): map<string, nat>
    requires n <= |lookups| == |charges|
  {
    if n == 0 then counts
    else ChargeOne(Charged(counts, lookups, charges, n - 1), lookups[n - 1], charges[n - 1])
  }

  function ChargeOne(counts: map<string, nat>, look: Lookup, charge: Option<uint32>): map<string, nat> {
    if look.Skip? || charge.None? then counts else counts[look.key := CountOf(counts, look.key) + charge.value]
  }

  /** `Charged` has the counts that the contracts of both `DoLimit` methods state. */
  lemma {:induction false} ChargedCounts(
    counts: map<string, nat>, lookups: seq<Lookup>, charges: seq<Option<uint32>>, n: nat, key: string)
    requires n <= |lookups| == |charges|
    ensures CountOf(Charged(counts, lookups, charges, n), key) == CountOf(counts, key) + Added(lookups, charges, key, n)
  {
    if n > 0 {
      ChargedCounts(counts, lookups, charges, n - 1, key);
    }
  }

  function CountsOf(counts: map<string, nat>, lookups: seq<Lookup>): (r: seq<nat>)
    ensures |r| == |lookups|
  {
    RedisCache.CountsIn(RedisCache.Stores(counts, map[], {}), lookups)
  }

  /** The state after a call that judged its lookups with `v` and charged `charges`. */
  function WorldAfter(
    w: World, cached: bool, r: Request, charges: seq<Option<uint32>>, v: seq<Verdict>): World
    requires |charges| == |r.lookups| == |v|
  {
    World(Charged(w.counts, r.lookups, charges, |r.lookups|),
          w.local + (if cached then CachedKeys(r.lookups, v) else {}),
          StatsAfter(w.stats, r.lookups, v))
  }

  ghost function RedisAfters(w: World, cached: bool, r: Request): seq<nat> {
    RedisCache.Afters(false, r.lookups, KnownIn(w, cached), CountsOf(w.counts, r.lookups), r.hits)
  }

  /** The results of a call are 32-bit counts. */
  ghost predicate Sound(w: World, cached: bool, r: Request) {
    forall i | 0 <= i < |RedisAfters(w, cached, r)| :: RedisAfters(w, cached, r)[i] < TWO_32
  }

  ghost function RedisVerdicts(w: World, cached: bool, r: Request): (v: seq<Verdict>)
    requires Sound(w, cached, r)
    ensures |v| == |r.lookups|
  {
    var after: seq<uint32> := RedisAfters(w, cached, r);
    Verdicts(r.lookups, RedisCache.Befores(after, r.hits), after, KnownIn(w, cached), r.hits)
  }

  ghost function RedisCharges(w: World, cached: bool, r: Request): (c: seq<Option<uint32>>)
    ensures |c| == |r.lookups|
  {
    RedisCache.Charges(false, r.lookups, KnownIn(w, cached), CountsOf(w.counts, r.lookups), r.hits)
  }

  /** The Redis limiter without the stop mode, as its contract describes it. */
  ghost function RedisCall(w: World, cached: bool, r: Request): (World, seq<Status>)
    requires Sound(w, cached, r)
  {
    var v := RedisVerdicts(w, cached, r);
    (WorldAfter(w, cached, r, RedisCharges(w, cached, r), v), Statuses(r.lookups, v, r.now))
  }

  /** The memcached limiter, flushed, as its contract describes it. */
  ghost function MemcachedCall(w: World, cached: bool, r: Request): (World, seq<Status>) {
    var known := KnownIn(w, cached);
    var before := MemcachedCache.Befores(r.lookups, known, w.counts);
    var v := Verdicts(r.lookups, before, MemcachedCache.Afters(before, r.hits), known, r.hits);
    (WorldAfter(w, cached, r, MemcachedCache.Charges(r.lookups, known, r.hits), v), Statuses(r.lookups, v, r.now))
  }

  /** A world tells what a store and a limiter hold. */
  ghost predicate Tells(w: World, counts: map<string, nat>, base: BaseRateLimiter)
    reads base
  {
    && (forall key :: CountOf(w.counts, key) == CountOf(counts, key))
    && w.local == base.local && w.stats == base.stats
  }

  /** The memcached limiter does what `MemcachedCall` says. */
  method ServeMemcached(limiter: MemcachedCache.MemcachedLimiter, r: Request, ghost w: World)
    returns (statuses: seq<Status>)
    requires Tells(w, limiter.client.items, limiter.base)
    requires forall i | 0 <= i < |r.lookups| :: r.lookups[i].Look? ==> r.lookups[i].key != ""
    modifies limiter.client, limiter.base`stats, limiter.base`local
    ensures statuses == MemcachedCall(w, limiter.base.cacheEnabled, r).1
    ensures Tells(MemcachedCall(w, limiter.base.cacheEnabled, r).0, limiter.client.items, limiter.base)
  {
    ghost var known := KnownIn(w, limiter.base.cacheEnabled);
    assert MemcachedCache.Befores(r.lookups, known, w.counts) ==
           MemcachedCache.Befores(r.lookups, known, limiter.client.items);
    statuses := limiter.DoLimitAndFlush(r.lookups, r.hits, r.now);
    forall key
      ensures CountOf(MemcachedCall(w, limiter.base.cacheEnabled, r).0.counts, key) ==
              CountOf(limiter.client.items, key)
    {
      ChargedCounts(w.counts, r.lookups, MemcachedCache.Charges(r.lookups, known, r.hits), |r.lookups|, key);
    }
  }

  predicate DistinctKeys(lookups: seq<Lookup>) {
    forall i, j | 0 <= i < j < |lookups| && lookups[i].Look? && lookups[j].Look? :: lookups[i].key != lookups[j].key
  }

  lemma {:induction false} OneChargePerKey(lookups: seq<Lookup>, charges: seq<Option<uint32>>, key: string, n: nat)
    requires n <= |lookups| == |charges|
    requires forall i | 0 <= i < n && lookups[i].Look? :: lookups[i].key != key
    ensures Added(lookups, charges, key, n) == 0
  {
    if n > 0 {
      OneChargePerKey(lookups, charges, key, n - 1);
    }
  }

  /** With distinct keys both backends judge every lookup on the same counts. */
  lemma SameCounts(w: World, cached: bool, r: Request, i: nat)
    requires DistinctKeys(r.lookups) && i < |r.lookups|
    requires r.lookups[i].Look? && !IsKnown(r.lookups[i], KnownIn(w, cached))
    ensures RedisAfters(w, cached, r)[i] == CountOf(w.counts, r.lookups[i].key) + r.hits
  {
    var charges := RedisCharges(w, cached, r);
    OneChargePerKey(r.lookups, charges, r.lookups[i].key, i);
    assert charges[i] == Some(r.hits);
    assert Added(r.lookups, charges, r.lookups[i].key, i + 1) == r.hits;
  }

  /** The counters that a call reads are below 2^31, where memcached parses them right,
      and its hits do not take them to 2^32. */
  ghost predicate Readable(w: World, cached: bool, r: Request) {
    forall i | 0 <= i < |r.lookups| && r.lookups[i].Look? && !IsKnown(r.lookups[i], KnownIn(w, cached)) ::
      var count := CountOf(w.counts, r.lookups[i].key);
      count < TWO_31 && count + r.hits < TWO_32
  }

  lemma DistinctAftersFit(w: World, cached: bool, r: Request)
    requires DistinctKeys(r.lookups) && Readable(w, cached, r)
    ensures Sound(w, cached, r)
  {
    forall i | 0 <= i < |r.lookups| ensures RedisAfters(w, cached, r)[i] < TWO_32 {
      if r.lookups[i].Look? && !IsKnown(r.lookups[i], KnownIn(w, cached)) {
        SameCounts(w, cached, r, i);
      }
    }
  }

  /** One call: both backends answer alike and leave the same state. */
  lemma CallsAgree(w: World, cached: bool, r: Request)
    requires DistinctKeys(r.lookups) && Readable(w, cached, r)
    ensures Sound(w, cached, r)
    ensures RedisCall(w, cached, r) == MemcachedCall(w, cached, r)
  {
    DistinctAftersFit(w, cached, r);
    var known, after: seq<uint32> := KnownIn(w, cached), RedisAfters(w, cached, r);
    var before := MemcachedCache.Befores(r.lookups, known, w.counts);
    var v := RedisVerdicts(w, cached, r);
    var v' := Verdicts(r.lookups, before, MemcachedCache.Afters(before, r.hits), known, r.hits);
    forall i | 0 <= i < |r.lookups| ensures v[i] == v'[i] {
      if r.lookups[i].Look? && !IsKnown(r.lookups[i], known) {
        SameCounts(w, cached, r, i);
      }
    }
    assert v == v';
    assert RedisCharges(w, cached, r) == MemcachedCache.Charges(r.lookups, known, r.hits);
  }

  ghost function RunMemcached(w: World, cached: bool, requests: seq<Request>): (World, seq<seq<Status>>)
    decreases |requests|
  {
    if requests == [] then (w, [])
    else
      var (t, statuses) := MemcachedCall(w, cached, requests[0]);
      var (end, rest) := RunMemcached(t, cached, requests[1..]);
      (end, [statuses] + rest)
  }

  /** A run of the Redis limiter, as a relation to its end state and answers. */
  ghost predicate RunsRedis(w: World, cached: bool, requests: seq<Request>, end: World, answers: seq<seq<Status>>)
    decreases |requests|
  {
    if requests == [] then end == w && answers == []
    else
      && answers != []
      && Sound(w, cached, requests[0])
      && RedisCall(w, cached, requests[0]).1 == answers[0]
      && RunsRedis(RedisCall(w, cached, requests[0]).0, cached, requests[1..], end, answers[1..])
  }

  /** Every request of the run has distinct keys and reads counters below 2^31. */
  ghost predicate AllReadable(w: World, cached: bool, requests: seq<Request>)
    decreases |requests|
  {
    requests != [] ==>
      && DistinctKeys(requests[0].lookups) && Readable(w, cached, requests[0])
      && AllReadable(MemcachedCall(w, cached, requests[0]).0, cached, requests[1..])
  }

  /** Backend agreement: over every sequence of flushed requests with distinct keys
      inside each, with or without a local cache and as long as the counters that are
      read stay below 2^31, both limiters return the same statuses and accumulate the
      same counters, statistics and cached keys, for ever. */
  lemma {:induction false} BackendsAgree(w: World, cached: bool, requests: seq<Request>)
    requires AllReadable(w, cached, requests)
    ensures var (end, answers) := RunMemcached(w, cached, requests);
            RunsRedis(w, cached, requests, end, answers)
    decreases |requests|
  {
    if requests != [] {
      var r := requests[0];
      CallsAgree(w, cached, r);
      BackendsAgree(MemcachedCall(w, cached, r).0, cached, requests[1..]);
    }
  }

  // -------------------------------------------------- one lookup at a time

  /** The effect of a Redis call without the stop mode, lookup by lookup. */
  function OneByOne(w: World, known: set<string>, lookups: seq<Lookup>, hits: uint32): World {
    if lookups == [] then w
    else
      var n := |lookups| - 1;
      var earlier := OneByOne(w, known, lookups[..n], hits);
      if lookups[n].Skip? then earlier
      else Step(earlier, known, lookups[n], hits, StepVerdict(earlier.counts, known, lookups[n], hits))
  }

  /** The result that a lookup is judged on, given the counters when its turn comes. */
  function StepResult(counts: map<string, nat>, known: set<string>, look: Lookup, hits: uint32): uint32
    requires look.Look?
  {
    if look.key in known then 0 else Wrap(CountOf(counts, look.key) + hits)
  }

  function StepVerdict(counts: map<string, nat>, known: set<string>, look: Lookup, hits: uint32): Verdict
    requires look.Look?
  {
    var after := StepResult(counts, known, look, hits);
    Judge(look.limit, Sub32(after, hits), after, look.key in known, hits)
  }

  /** Charges one lookup and records the verdict on it. */
  function Step(w: World, known: set<string>, look: Lookup, hits: uint32, v: Verdict): World
    requires look.Look?
  {
    World(if look.key in known then w.counts else w.counts[look.key := CountOf(w.counts, look.key) + hits],
          w.local + (if v.caches then {look.key} else {}),
          AddStats(w.stats, look.limit.statsKey, v.delta))
  }

  /** Charges and verdicts that follow the lookups one by one: a key that is known
      locally is not charged, and each verdict is on the running count. */
  ghost predicate InOrder(
    w: World, known: set<string>, lookups: seq<Lookup>, hits: uint32, charges: seq<Option<uint32>>, v: seq<Verdict>)
  {
    && |lookups| == |charges| == |v|
    && forall n | 0 <= n < |lookups| && lookups[n].Look? ::
         && charges[n] == (if lookups[n].key in known then None else Some(hits))
         && v[n] == StepVerdict(Charged(w.counts, lookups, charges, n), known, lookups[n], hits)
  }

  /** The count that a lookup's result is judged on is the running one. */
  lemma RunningCount(w: World, cached: bool, r: Request, n: nat)
    requires n < |r.lookups| && r.lookups[n].Look?
    ensures RedisAfters(w, cached, r)[n] ==
            if r.lookups[n].key in KnownIn(w, cached) then 0
            else CountOf(Charged(w.counts, r.lookups, RedisCharges(w, cached, r), n), r.lookups[n].key) + r.hits
  {
    ChargedCounts(w.counts, r.lookups, RedisCharges(w, cached, r), n, r.lookups[n].key);
  }

  lemma RunningResult(w: World, cached: bool, r: Request, n: nat)
    requires n < |r.lookups| && r.lookups[n].Look?
    requires Sound(w, cached, r)
    ensures RedisAfters(w, cached, r)[n] ==
            StepResult(Charged(w.counts, r.lookups, RedisCharges(w, cached, r), n), KnownIn(w, cached), r.lookups[n],
                       r.hits)
  {
    RunningCount(w, cached, r, n);
  }

  lemma JudgedOn(lookups: seq<Lookup>, after: seq<uint32>, known: set<string>, hits: uint32, n: nat, result: uint32)
    requires n < |lookups| == |after| && lookups[n].Look? && after[n] == result
    ensures Verdicts(lookups, RedisCache.Befores(after, hits), after, known, hits)[n] ==
            Judge(lookups[n].limit, Sub32(result, hits), result, lookups[n].key in known, hits)
  {
    assert RedisCache.Befores(after, hits)[n] == Sub32(result, hits);
  }

  /** The verdict on a lookup is the one that its step computes from the running count. */
  lemma RunningVerdict(w: World, cached: bool, r: Request, n: nat)
    requires n < |r.lookups| && r.lookups[n].Look?
    requires Sound(w, cached, r)
    ensures RedisVerdicts(w, cached, r)[n] ==
            StepVerdict(Charged(w.counts, r.lookups, RedisCharges(w, cached, r), n), KnownIn(w, cached), r.lookups[n],
                        r.hits)
  {
    var known, after: seq<uint32> := KnownIn(w, cached), RedisAfters(w, cached, r);
    var result := StepResult(Charged(w.counts, r.lookups, RedisCharges(w, cached, r), n), known, r.lookups[n], r.hits);
    RunningResult(w, cached, r, n);
    JudgedOn(r.lookups, after, known, r.hits, n, result);
  }

  lemma CallInOrder(w: World, cached: bool, r: Request)
    requires Sound(w, cached, r)
    ensures InOrder(w, KnownIn(w, cached), r.lookups, r.hits, RedisCharges(w, cached, r), RedisVerdicts(w, cached, r))
  {
    var charges, v, known := RedisCharges(w, cached, r), RedisVerdicts(w, cached, r), KnownIn(w, cached);
    forall n | 0 <= n < |r.lookups| && r.lookups[n].Look?
      ensures v[n] == StepVerdict(Charged(w.counts, r.lookups, charges, n), known, r.lookups[n], r.hits)
    {
      RunningVerdict(w, cached, r, n);
    }
  }

  /** The state after the first `n` lookups of a call. */
  ghost function Partial(
    w: World, lookups: seq<Lookup>, charges: seq<Option<uint32>>, v: seq<Verdict>, n: nat): World
    requires n <= |lookups| == |charges| == |v|
  {
    World(Charged(w.counts, lookups, charges, n),
          w.local + CachedKeys(lookups[..n], v[..n]),
          StatsAfter(w.stats, lookups[..n], v[..n]))
  }

  lemma PartialSteps(
    w: World, known: set<string>, lookups: seq<Lookup>, hits: uint32, charges: seq<Option<uint32>>, v: seq<Verdict>,
    n: nat)
    requires n < |lookups| == |charges| == |v|
    requires lookups[n].Look? ==> charges[n] == if lookups[n].key in known then None else Some(hits)
    ensures var p := Partial(w, lookups, charges, v, n);
            Partial(w, lookups, charges, v, n + 1) ==
            if lookups[n].Skip? then p else Step(p, known, lookups[n], hits, v[n])
  {
    StatsSnoc(w.stats, lookups, v, n);
    CachedKeysSnoc(lookups, v, n);
  }

  /** Judging in order is taking the lookups one at a time. */
  lemma {:induction false} OrderIsOneByOne(
    w: World, known: set<string>, lookups: seq<Lookup>, hits: uint32, charges: seq<Option<uint32>>, v: seq<Verdict>,
    n: nat)
    requires InOrder(w, known, lookups, hits, charges, v) && n <= |lookups|
    ensures OneByOne(w, known, lookups[..n], hits) == Partial(w, lookups, charges, v, n)
  {
    if n > 0 {
      OrderIsOneByOne(w, known, lookups, hits, charges, v, n - 1);
      PartialSteps(w, known, lookups, hits, charges, v, n - 1);
      assert lookups[..n][..n - 1] == lookups[..n - 1];
    }
  }

  /** A whole call without the stop mode, lookup by lookup; without a local cache
      nothing is remembered as cached. */
  lemma CallIsOneByOne(w: World, cached: bool, r: Request)
    requires Sound(w, cached, r)
    ensures var t := OneByOne(w, KnownIn(w, cached), r.lookups, r.hits);
            RedisCall(w, cached, r).0 == if cached then t else t.(local := w.local)
  {
    var n := |r.lookups|;
    CallInOrder(w, cached, r);
    OrderIsOneByOne(w, KnownIn(w, cached), r.lookups, r.hits, RedisCharges(w, cached, r), RedisVerdicts(w, cached, r),
                    n);
    assert r.lookups[..n] == r.lookups;
    assert RedisVerdicts(w, cached, r)[..n] == RedisVerdicts(w, cached, r);
  }
}
