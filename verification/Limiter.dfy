/** The status and statistics core of `src/limiter/base_limiter.go`: how one
    batch of hits on one counter is judged. */
module Limiter {
  import opened Prelude

  /** The units that `UnitToDivider` accepts. */
  datatype Unit = Second | Minute | Hour | Day

  /** The part of a limit that a response carries. */
  datatype Quota = Quota(perUnit: uint32, unit: Unit, name: string)

  datatype LimitFields = LimitFields(quota: Quota, near: uint32, shadowMode: bool, statsKey: string)

  /** A limit to check. `near` is the near-limit threshold that the source
      derives from the quota with a ratio of at most one. */
  type Limit = l: LimitFields | l.near <= l.quota.perUnit
    witness LimitFields(Quota(0, Second, ""), 0, false, "")

  /** A limit to check under a cache key, as the state machines of both backends take it. */
  datatype Target = Target(key: string, limit: Limit)

  datatype Stats = Stats(
    totalHits: nat, overLimit: nat, nearLimit: nat,
    overLimitWithLocalCache: nat, withinLimit: nat, shadowMode: nat)

  const NO_STATS := Stats(0, 0, 0, 0, 0, 0)

  function Plus(a: Stats, b: Stats): Stats {
    Stats(a.totalHits + b.totalHits, a.overLimit + b.overLimit, a.nearLimit + b.nearLimit,
          a.overLimitWithLocalCache + b.overLimitWithLocalCache,
          a.withinLimit + b.withinLimit, a.shadowMode + b.shadowMode)
  }

  /** The counters of the stats store, by stats key; an unused key reads zero. */
  type StatsStore = map<string, Stats>

  function StatsOf(store: StatsStore, key: string): Stats {
    if key in store then store[key] else NO_STATS
  }

  function AddStats(store: StatsStore, key: string, delta: Stats): StatsStore {
    store[key := Plus(StatsOf(store, key), delta)]
  }

  /** Two additions to one counter set are one. */
  lemma AddTwice(store: StatsStore, key: string, a: Stats, b: Stats)
    ensures AddStats(AddStats(store, key, a), key, b) == AddStats(store, key, Plus(a, b))
  {
  }

  datatype Code = OK | OverLimit

  /** Everything that judging one batch decides. `caches` tells whether the key
      is put into the local cache, if there is one. */
  datatype Verdict = Verdict(code: Code, remaining: uint32, delta: Stats, caches: bool)

  datatype Status = Status(
    code: Code, currentLimit: Option<Quota>, limitRemaining: uint32, durationUntilReset: Option<int>)

  /** The status of a descriptor that no limit applies to. */
  const UNCHECKED := Status(OK, None, 0, None)

  function UnitToDivider(unit: Unit): (r: int)
    ensures r >= 1
  {
    match unit
    case Second => 1
    case Minute => 60
    case Hour => 60 * 60
    case Day => 60 * 60 * 24
  }

  /** Seconds until the window that contains `now` closes. */
  function CalculateReset(unit: Unit, now: nat): (r: int)
    ensures 1 <= r <= UnitToDivider(unit)
  {
    UnitToDivider(unit) - now % UnitToDivider(unit)
  }

  predicate BeginsWindow(unit: Unit, time: nat) { time % UnitToDivider(unit) == 0 }

  lemma MinuteReset(now: nat, later: nat)
    requires 0 < later <= 60 - now % 60
    ensures (now + later) % 60 == 0 <==> later == 60 - now % 60
  {
  }

  lemma HourReset(now: nat, later: nat)
    requires 0 < later <= 3600 - now % 3600
    ensures (now + later) % 3600 == 0 <==> later == 3600 - now % 3600
  {
  }

  lemma DayReset(now: nat, later: nat)
    requires 0 < later <= 86400 - now % 86400
    ensures (now + later) % 86400 == 0 <==> later == 86400 - now % 86400
  {
  }

  /** The reset is the first moment after `now` at which a window of the unit begins. */
  lemma ResetEndsWindow(unit: Unit, now: nat, later: nat)
    requires 0 < later <= CalculateReset(unit, now)
    ensures BeginsWindow(unit, now + later) <==> later == CalculateReset(unit, now)
  {
    match unit
    case Second =>
    case Minute => MinuteReset(now, later);
    case Hour => HourReset(now, later);
    case Day => DayReset(now, later);
  }

  /** Windows in seconds: minutes, hours and days begin at the multiples of 60, 3600 and
      86400; a day is 24 hours, an hour 60 minutes, a minute 60 seconds. */
  lemma WindowsInSeconds(time: nat)
    ensures BeginsWindow(Second, time)
    ensures BeginsWindow(Minute, time) <==> time % 60 == 0
    ensures BeginsWindow(Hour, time) <==> time % 3600 == 0
    ensures BeginsWindow(Day, time) <==> time % 86400 == 0
    ensures time % 86400 == 0 ==>
              && CalculateReset(Day, time) == 24 * CalculateReset(Hour, time)
              && CalculateReset(Hour, time) == 60 * CalculateReset(Minute, time)
              && CalculateReset(Minute, time) == 60 * CalculateReset(Second, time) == 60
  {
    if time % 86400 == 0 {
      DayIsWhole(time);
    }
  }

  lemma DayIsWhole(time: nat)
    requires time % 86400 == 0
    ensures time % 3600 == 0 && time % 60 == 0
  {
    var days := time / 86400;
    assert time == 3600 * (24 * days) && time == 60 * (1440 * days);
  }

  function VerdictCode(limit: Limit): Code {
    if limit.shadowMode then OK else OverLimit
  }

  /** What `GetResponseDescriptorStatus` decides for a non-empty key. */
  function Judge(limit: Limit, before: uint32, after: uint32, localHit: bool, hits: uint32): Verdict {
    var max := limit.quota.perUnit;
    if localHit then
      Verdict(VerdictCode(limit), 0, Stats(0, hits, 0, hits, 0, if limit.shadowMode then hits else 0), false)
    else if after > max then
      var over := if before >= max then hits else after - max;
      var near := if before >= max then 0 else max - Max(limit.near, before);
      Verdict(VerdictCode(limit), 0, Stats(0, over, near, 0, 0, if limit.shadowMode then over else 0), true)
    else
      var near := if after <= limit.near then 0 else if before >= limit.near then hits else after - limit.near;
      Verdict(OK, max - after, Stats(0, 0, near, 0, hits, 0), false)
  }

  function StatusOf(v: Verdict, limit: Limit, now: nat): Status {
    Status(v.code, Some(limit.quota), v.remaining, Some(CalculateReset(limit.quota.unit, now)))
  }

  /** How many of the hits numbered `from + 1 .. last` have a number in `lo + 1 .. hi`:
      the reference that looks at every hit on its own. */
  function Covered(from: nat, last: nat, lo: nat, hi: nat): nat {
    if last <= from then 0 else Covered(from, last - 1, lo, hi) + if lo < last <= hi then 1 else 0
  }

  lemma {:induction false} CoveredClosedForm(from: nat, last: nat, lo: nat, hi: nat)
    ensures Covered(from, last, lo, hi) == Max(0, Min(last, hi) - Max(from, lo))
    decreases last
  {
    if from < last {
      CoveredClosedForm(from, last - 1, lo, hi);
    }
  }

  /** A charged batch is judged exactly as its hits would be one by one: a hit
      is over the limit when its number is beyond the quota, near it when its
      number is beyond the near threshold and not beyond the quota, and the
      shadow statistic copies the over-limit one. */
  lemma {:induction false} JudgeCountsHits(limit: Limit, before: uint32, after: uint32, hits: uint32)
    requires after == before + hits
    ensures var v, max := Judge(limit, before, after, false, hits), limit.quota.perUnit;
            && v.delta.overLimit == Covered(before, after, max, after)
            && v.delta.nearLimit == Covered(before, after, limit.near, max)
            && v.delta.shadowMode == (if limit.shadowMode then v.delta.overLimit else 0)
            && v.delta.withinLimit == (if after <= max then hits else 0)
            && v.remaining == Max(0, max - after)
            && v.caches == (after > max)
            && (v.code == OverLimit <==> after > max && !limit.shadowMode)
  {
    CoveredClosedForm(before, after, limit.quota.perUnit, after);
    CoveredClosedForm(before, after, limit.near, limit.quota.perUnit);
  }

  /** A batch that the local cache rejects counts in full as over the limit, as rejected
      locally and, for a shadow rule, in the shadow statistic; nothing remains, nothing
      else is counted, and only a shadow rule is answered OK. */
  lemma LocalRejectionCounts(limit: Limit, before: uint32, after: uint32, hits: uint32)
    ensures var v := Judge(limit, before, after, true, hits);
            && v.delta.overLimit == hits && v.delta.overLimitWithLocalCache == hits
            && v.delta.shadowMode == (if limit.shadowMode then hits else 0)
            && v.delta.nearLimit == v.delta.withinLimit == v.delta.totalHits == 0
            && v.remaining == 0 && !v.caches && (v.code == OK <==> limit.shadowMode)
  {
  }

  /** `BaseRateLimiter`: the stats counters and the optional local cache of keys
      that are known to be over their limit. */
  class BaseRateLimiter {
    const cacheEnabled: bool
    var stats: StatsStore
    var local: set<string>

    constructor (cacheEnabled: bool)
      ensures this.cacheEnabled == cacheEnabled && stats == map[] && local == {}
    {
      this.cacheEnabled := cacheEnabled;
      stats := map[];
      local := {};
    }

    method IsOverLimitWithLocalCache(key: string) returns (r: bool)
      ensures r <==> cacheEnabled && key in local
    {
      r := false;
      if cacheEnabled {
        if key in local {
          r := true;
        }
      }
    }

    method Add(key: string, delta: Stats)
      modifies this`stats
      ensures stats == AddStats(old(stats), key, delta)
    {
      stats := AddStats(stats, key, delta);
    }

    method CheckOverLimitThreshold(limit: Limit, before: uint32, after: uint32, hits: uint32)
      requires after > limit.quota.perUnit
      modifies this`stats
      ensures stats == AddStats(old(stats), limit.statsKey,
                                Judge(limit, before, after, false, hits).delta.(shadowMode := 0))
    {
      var max := limit.quota.perUnit;
      if before >= max {
        Add(limit.statsKey, NO_STATS.(overLimit := hits));
      } else {
        var over, near := NO_STATS.(overLimit := after - max), NO_STATS.(nearLimit := max - Max(limit.near, before));
        AddTwice(stats, limit.statsKey, over, near);
        Add(limit.statsKey, over);
        Add(limit.statsKey, near);
      }
    }

    method CheckNearLimitThreshold(limit: Limit, before: uint32, after: uint32, hits: uint32)
      requires after <= limit.quota.perUnit
      modifies this`stats
      ensures stats == AddStats(old(stats), limit.statsKey,
                                Judge(limit, before, after, false, hits).delta.(withinLimit := 0))
           || (stats == old(stats) && Judge(limit, before, after, false, hits).delta.(withinLimit := 0) == NO_STATS)
    {
      if after > limit.near {
        if before >= limit.near {
          Add(limit.statsKey, NO_STATS.(nearLimit := hits));
        } else {
          Add(limit.statsKey, NO_STATS.(nearLimit := after - limit.near));
        }
      }
    }

    method IncreaseShadowModeStats(localHit: bool, limit: Limit, before: uint32, after: uint32, hits: uint32)
      requires localHit || after > limit.quota.perUnit
      modifies this`stats
      ensures stats == AddStats(old(stats), limit.statsKey,
                                NO_STATS.(shadowMode := Judge(limit, before, after, localHit, hits).delta.overLimit))
    {
      if localHit || before >= limit.quota.perUnit {
        Add(limit.statsKey, NO_STATS.(shadowMode := hits));
      } else {
        Add(limit.statsKey, NO_STATS.(shadowMode := after - limit.quota.perUnit));
      }
    }

    method GetResponseDescriptorStatus(
      key: string, limit: Option<Limit>, before: uint32, after: uint32, localHit: bool, hits: uint32, now: nat)
      returns (status: Status)
      requires key != "" ==> limit.Some?
      modifies this`stats, this`local
      ensures key == "" ==> status == UNCHECKED && stats == old(stats) && local == old(local)
      ensures key != "" ==>
                var v := Judge(limit.value, before, after, localHit, hits);
                && status == StatusOf(v, limit.value, now)
                && stats == AddStats(old(stats), limit.value.statsKey, v.delta)
                && local == old(local) + if v.caches && cacheEnabled then {key} else {}
    {
      if key == "" {
        return UNCHECKED;
      }
      var l := limit.value;
      ghost var v, was := Judge(l, before, after, localHit, hits), stats;
      ghost var beforeShadow := v.delta.(shadowMode := 0);
      var max := l.quota.perUnit;
      var reset := Some(CalculateReset(l.quota.unit, now));
      var isOverLimit := false;
      if localHit {
        isOverLimit := true;
        AddTwice(stats, l.statsKey, NO_STATS.(overLimit := hits), NO_STATS.(overLimitWithLocalCache := hits));
        Add(l.statsKey, NO_STATS.(overLimit := hits));
        Add(l.statsKey, NO_STATS.(overLimitWithLocalCache := hits));
        status := Status(OverLimit, Some(l.quota), 0, reset);
      } else {
        if after > max {
          isOverLimit := true;
          status := Status(OverLimit, Some(l.quota), 0, reset);
          CheckOverLimitThreshold(l, before, after, hits);
          if cacheEnabled {
            local := local + {key};
          }
        } else {
          status := Status(OK, Some(l.quota), max - after, reset);
          AddTwice(stats, l.statsKey, v.delta.(withinLimit := 0), NO_STATS.(withinLimit := hits));
          CheckNearLimitThreshold(l, before, after, hits);
          Add(l.statsKey, NO_STATS.(withinLimit := hits));
        }
      }
      assert stats == AddStats(was, l.statsKey, beforeShadow);
      if isOverLimit && l.shadowMode {
        status := status.(code := OK);
        AddTwice(was, l.statsKey, beforeShadow, NO_STATS.(shadowMode := v.delta.overLimit));
        IncreaseShadowModeStats(localHit, l, before, after, hits);
      }
    }
  }
}
