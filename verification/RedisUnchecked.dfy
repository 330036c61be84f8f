/** Descriptors that are unmatched, unlimited or replaced leave no trace, in every mode of
    the Redis limiter. In stop mode this is not obvious: `DoLimit` reads the counters
    first only if the request has more than one descriptor, checked or not. */
module RedisUnchecked {
  import opened Prelude
  import opened Limiter
  import opened LimitCall
  import opened Backends
  import RedisCache
  import RedisRequest

  type Lookups = seq<Lookup>

  ghost predicate AllLook(l: Lookups) { forall i | 0 <= i < |l| :: l[i].Look? }

  /** What checked lookups are charged does not depend on the width of the request: a
      single one is charged in full, read first or not. */
  lemma WidthDoesNotMatter(stop: bool, width: nat, l: Lookups, known: set<string>, counts: seq<nat>, hits: uint32)
    requires AllLook(l) && width >= |l| == |counts|
    ensures RedisCache.ChargesFor(stop, width, l, known, counts, hits) ==
            RedisCache.Charges(stop, l, known, counts, hits)
  {
    forall i | 0 <= i < |l|
      ensures RedisCache.Charge(stop, width, l, known, counts, hits, i) ==
              RedisCache.Charge(stop, |l|, l, known, counts, hits, i)
    {
      if |l| == 1 && RedisCache.AnyNear(l, counts, hits) {
        assert RedisCache.IsNear(l[i], counts[i], hits);
      }
    }
  }

  // ------------------------------------------------------------------ the call

  ghost function ChargesOf(stop: bool, known: set<string>, w: World, r: Request): (c: seq<Option<uint32>>)
    ensures |c| == |r.lookups|
  {
    RedisCache.Charges(stop, r.lookups, known, CountsOf(w.counts, r.lookups), r.hits)
  }

  ghost function AftersOf(stop: bool, known: set<string>, w: World, r: Request): (a: seq<nat>)
    ensures |a| == |r.lookups|
  {
    RedisCache.Afters(stop, r.lookups, known, CountsOf(w.counts, r.lookups), r.hits)
  }

  /** No result of the call reaches 2^32. */
  ghost predicate Fits(stop: bool, known: set<string>, w: World, r: Request) {
    forall i | 0 <= i < |r.lookups| :: AftersOf(stop, known, w, r)[i] < TWO_32
  }

  ghost function VerdictsOf(stop: bool, known: set<string>, w: World, r: Request): (v: seq<Verdict>)
    requires Fits(stop, known, w, r)
    ensures |v| == |r.lookups|
  {
    var after: seq<uint32> := AftersOf(stop, known, w, r);
    Verdicts(r.lookups, RedisCache.Befores(after, r.hits), after, known, r.hits)
  }

  /** The call as the contract of `DoLimit` describes it, in every mode. */
  ghost function Call(stop: bool, cached: bool, w: World, r: Request): (World, seq<Status>)
    requires Fits(stop, KnownIn(w, cached), w, r)
  {
    var v := VerdictsOf(stop, KnownIn(w, cached), w, r);
    (WorldAfter(w, cached, r, ChargesOf(stop, KnownIn(w, cached), w, r), v), Statuses(r.lookups, v, r.now))
  }

  /** A world tells what the stores and the limiter hold. */
  ghost predicate Tells(w: World, stores: RedisCache.Stores, base: BaseRateLimiter)
    reads base
  {
    && (forall key :: CountOf(w.counts, key) == RedisCache.CountIn(stores, key))
    && w.local == base.local && w.stats == base.stats
  }

  /** The Redis limiter does what `Call` says, in every mode and with one store or two. */
  method Serve(
    cache: RedisCache.FixedCache, r: Request, jitters: seq<nat>, ghost w: World, ghost perSecond: set<string>)
    returns (statuses: seq<Status>)
    requires cache.client != cache.perSecondClient && RedisCache.Separated(cache.split, r.lookups, perSecond)
    requires |jitters| == |r.lookups| && Tells(w, cache.View(perSecond), cache.base)
    requires forall i | 0 <= i < |r.lookups| :: r.lookups[i].Look? ==> r.lookups[i].key != ""
    requires Fits(cache.stop, KnownIn(w, cache.base.cacheEnabled), w, r)
    modifies cache.client, cache.perSecondClient, cache.base`stats, cache.base`local
    ensures statuses == Call(cache.stop, cache.base.cacheEnabled, w, r).1
    ensures Tells(Call(cache.stop, cache.base.cacheEnabled, w, r).0, cache.View(perSecond), cache.base)
  {
    ghost var known := KnownIn(w, cache.base.cacheEnabled);
    assert CountsOf(w.counts, r.lookups) == RedisCache.CountsIn(cache.View(perSecond), r.lookups);
    assert known == Known(cache.base);
    ghost var afters := RedisCache.Afters(
      cache.stop, r.lookups, known, RedisCache.CountsIn(cache.View(perSecond), r.lookups), r.hits);
    assert afters == AftersOf(cache.stop, known, w, r);
    assert forall i | 0 <= i < |r.lookups| :: afters[i] < TWO_32;
    statuses := cache.DoLimit(r.lookups, r.hits, jitters, r.now, perSecond);
    forall key
      ensures CountOf(Call(cache.stop, cache.base.cacheEnabled, w, r).0.counts, key) ==
              RedisCache.CountIn(cache.View(perSecond), key)
    {
      ChargedCounts(w.counts, r.lookups, ChargesOf(cache.stop, known, w, r), |r.lookups|, key);
    }
  }

  /** The call that both backends agree on is this one, without the stop mode. */
  lemma RedisCallIsCall(w: World, cached: bool, r: Request)
    requires Sound(w, cached, r)
    ensures Fits(false, KnownIn(w, cached), w, r) && RedisCall(w, cached, r) == Call(false, cached, w, r)
  {
    assert forall i | 0 <= i < |r.lookups| ::
             AftersOf(false, KnownIn(w, cached), w, r)[i] == RedisAfters(w, cached, r)[i];
  }

  // ----------------------------------------- from checked lookups to all of them

  lemma {:induction false} CountsAtPlaces(
    counts: map<string, nat>, d: Lookups, all: seq<Option<uint32>>, c: Lookups, checked: seq<Option<uint32>>,
    pos: seq<nat>, n: nat)
    requires Places(d, c, pos) && |all| == |d| && |checked| == |c| && n <= |d|
    requires forall i | 0 <= i < |d| && d[i].Look? :: checked[pos[i]] == all[i]
    ensures pos[n] <= |c| && Charged(counts, c, checked, pos[n]) == Charged(counts, d, all, n)
  {
    if n > 0 {
      CountsAtPlaces(counts, d, all, c, checked, pos, n - 1);
      assert pos[n] == pos[n - 1] + if d[n - 1].Look? then 1 else 0;
    }
  }

  lemma CountsCarry(counts: map<string, nat>, d: Lookups, all: seq<Option<uint32>>, checked: seq<Option<uint32>>)
    requires Carried(d, all, checked)
    ensures Charged(counts, CheckedOnly(d), checked, |CheckedOnly(d)|) == Charged(counts, d, all, |d|)
  {
    var pos := PositionsArePlaces(d);
    CountsAtPlaces(counts, d, all, CheckedOnly(d), checked, pos, |d|);
    LastPosition(d);
  }

  /** Charges and results carry over, whatever the mode. */
  lemma ChargesCarry(stop: bool, known: set<string>, w: World, r: Request)
    ensures var r' := r.(lookups := CheckedOnly(r.lookups));
            && Carried(r.lookups, ChargesOf(stop, known, w, r), ChargesOf(stop, known, w, r'))
            && forall i | 0 <= i < |r.lookups| && r.lookups[i].Look? ::
                 Position(r.lookups, i) < |r'.lookups| &&
                 AftersOf(stop, known, w, r')[Position(r.lookups, i)] == AftersOf(stop, known, w, r)[i]
  {
    var d, c := r.lookups, CheckedOnly(r.lookups);
    var counts, checked := CountsOf(w.counts, d), CountsOf(w.counts, c);
    forall k | 0 <= k < |c| ensures c[k].Look? {
      var i := Origin(d, k);
    }
    forall i | 0 <= i < |d| && d[i].Look? ensures Position(d, i) < |c| && c[Position(d, i)] == d[i] {
      CheckedAt(d, i);
    }
    CheckedIsShorter(d);
    WidthDoesNotMatter(stop, |d|, c, known, checked, r.hits);
    forall i | 0 <= i < |d| && d[i].Look?
      ensures ChargesOf(stop, known, w, r.(lookups := c))[Position(d, i)] == ChargesOf(stop, known, w, r)[i]
      ensures AftersOf(stop, known, w, r.(lookups := c))[Position(d, i)] == AftersOf(stop, known, w, r)[i]
    {
      RedisRequest.ChargeCarries(stop, d, known, counts, checked, r.hits, i);
      RedisRequest.ResultCarries(stop, d, known, counts, checked, r.hits, i);
    }
  }

  lemma FitsCarries(stop: bool, known: set<string>, w: World, r: Request)
    requires Fits(stop, known, w, r)
    ensures Fits(stop, known, w, r.(lookups := CheckedOnly(r.lookups)))
  {
    ChargesCarry(stop, known, w, r);
    var r' := r.(lookups := CheckedOnly(r.lookups));
    forall k | 0 <= k < |r'.lookups| ensures AftersOf(stop, known, w, r')[k] < TWO_32 {
      var i := Origin(r.lookups, k);
    }
  }

  lemma VerdictsCarry(stop: bool, known: set<string>, w: World, r: Request)
    requires Fits(stop, known, w, r) && Fits(stop, known, w, r.(lookups := CheckedOnly(r.lookups)))
    ensures Carried(r.lookups, VerdictsOf(stop, known, w, r),
                    VerdictsOf(stop, known, w, r.(lookups := CheckedOnly(r.lookups))))
  {
    ChargesCarry(stop, known, w, r);
  }

  /** Descriptors that are unmatched, unlimited or replaced are inert: in every mode a
      call leaves the counters, statistics and cached keys of the call without them, and
      gives the other descriptors the same statuses. */
  lemma UncheckedAreInert(stop: bool, cached: bool, w: World, r: Request)
    requires Fits(stop, KnownIn(w, cached), w, r)
    ensures var r', d := r.(lookups := CheckedOnly(r.lookups)), r.lookups;
            && Fits(stop, KnownIn(w, cached), w, r')
            && Call(stop, cached, w, r').0 == Call(stop, cached, w, r).0
            && forall i | 0 <= i < |d| ::
                 if d[i].Skip? then Call(stop, cached, w, r).1[i] == UNCHECKED
                 else
                   && Position(d, i) < |Call(stop, cached, w, r').1|
                   && Call(stop, cached, w, r').1[Position(d, i)] == Call(stop, cached, w, r).1[i]
  {
    var known, d, c := KnownIn(w, cached), r.lookups, CheckedOnly(r.lookups);
    var r' := r.(lookups := c);
    FitsCarries(stop, known, w, r);
    SameWorld(stop, cached, w, r);
    VerdictsCarry(stop, known, w, r);
  }

  lemma SameWorld(stop: bool, cached: bool, w: World, r: Request)
    requires Fits(stop, KnownIn(w, cached), w, r)
    requires Fits(stop, KnownIn(w, cached), w, r.(lookups := CheckedOnly(r.lookups)))
    ensures Call(stop, cached, w, r.(lookups := CheckedOnly(r.lookups))).0 == Call(stop, cached, w, r).0
  {
    var known, d := KnownIn(w, cached), r.lookups;
    var r' := r.(lookups := CheckedOnly(d));
    ChargesCarry(stop, known, w, r);
    VerdictsCarry(stop, known, w, r);
    CountsCarry(w.counts, d, ChargesOf(stop, known, w, r), ChargesOf(stop, known, w, r'));
    StatsCarry(w.stats, d, VerdictsOf(stop, known, w, r), VerdictsOf(stop, known, w, r'));
    KeysCarry(d, VerdictsOf(stop, known, w, r), VerdictsOf(stop, known, w, r'));
  }
}
