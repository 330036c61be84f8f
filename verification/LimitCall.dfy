/** One `DoLimit` call on its own, whichever backend serves it: the lookups it makes
    and how the verdicts on them add up to statuses, statistics and cache entries. */
module LimitCall {
  import opened Prelude
  import opened Limiter
  import opened CacheKeys

  /** A descriptor of the request, with its cache key if it has a limit to check. */
  datatype Lookup = Skip | Look(key: string, perSecond: bool, limit: Limit)

  function LookupOf(prefix: string, domain: string, entries: seq<Entry>, limit: Option<Limit>, now: nat): Lookup {
    if limit.None? then Skip
    else
      var unit := limit.value.quota.unit;
      Look(KeyText(prefix, domain, entries, WindowStart(unit, now)), unit == Second, limit.value)
  }

  /** Keys that the local cache reports as over their limit. */
  function Known(base: BaseRateLimiter): set<string>
    reads base
  {
    if base.cacheEnabled then base.local else {}
  }

  predicate IsKnown(look: Lookup, known: set<string>) { look.Look? && look.key in known }

  /** The statistics after a sequence of verdicts on a sequence of lookups. */
  function StatsAfter(stats: StatsStore, lookups: seq<Lookup>, verdicts: seq<Verdict>): StatsStore
    requires |lookups| == |verdicts|
  {
    if lookups == [] then stats
    else
      var n := |lookups| - 1;
      var earlier := StatsAfter(stats, lookups[..n], verdicts[..n]);
      if lookups[n].Skip? then earlier else AddStats(earlier, lookups[n].limit.statsKey, verdicts[n].delta)
  }

  /** The keys that the verdicts put into the local cache. */
  function CachedKeys(lookups: seq<Lookup>, verdicts: seq<Verdict>): set<string>
    requires |lookups| == |verdicts|
  {
    set i | 0 <= i < |lookups| && lookups[i].Look? && verdicts[i].caches :: lookups[i].key
  }

  function StatusAt(look: Lookup, verdict: Verdict, now: nat): Status {
    if look.Skip? then UNCHECKED else StatusOf(verdict, look.limit, now)
  }

  function Statuses(lookups: seq<Lookup>, verdicts: seq<Verdict>, now: nat): seq<Status>
    requires |lookups| == |verdicts|
  {
    seq(|lookups|, i requires 0 <= i < |lookups| => StatusAt(lookups[i], verdicts[i], now))
  }

  /** The total-hits statistic: every checked descriptor counts, whatever the verdict. */
  function TotalsAfter(stats: StatsStore, limits: seq<Option<Limit>>, hits: uint32): StatsStore {
    if limits == [] then stats
    else
      var n := |limits| - 1;
      var earlier := TotalsAfter(stats, limits[..n], hits);
      if limits[n].None? then earlier
      else AddStats(earlier, limits[n].value.statsKey, NO_STATS.(totalHits := hits))
  }

  /** How many of the limits are counted under a stats key. */
  function LimitsUnder(limits: seq<Option<Limit>>, key: string): nat {
    if limits == [] then 0
    else
      var n := |limits| - 1;
      LimitsUnder(limits[..n], key) + if limits[n].Some? && limits[n].value.statsKey == key then 1 else 0
  }

  /** The total of a stats key grows by the hits, once for each limit under it; nothing
      else of it changes. */
  lemma {:induction false} TotalsGrow(stats: StatsStore, limits: seq<Option<Limit>>, hits: uint32, key: string)
    ensures var a, b := StatsOf(stats, key), StatsOf(TotalsAfter(stats, limits, hits), key);
            && b.totalHits == a.totalHits + hits * LimitsUnder(limits, key)
            && b.overLimit == a.overLimit && b.nearLimit == a.nearLimit && b.withinLimit == a.withinLimit
            && b.overLimitWithLocalCache == a.overLimitWithLocalCache && b.shadowMode == a.shadowMode
  {
    if limits != [] {
      var n := |limits| - 1;
      TotalsGrow(stats, limits[..n], hits, key);
      OneMoreBatch(hits, LimitsUnder(limits[..n], key));
    }
  }

  /** What the verdicts on the lookups under a stats key sum up to, field by field. */
  function DeltaSum(lookups: seq<Lookup>, verdicts: seq<Verdict>, key: string): Stats
    requires |lookups| == |verdicts|
  {
    if lookups == [] then Stats(0, 0, 0, 0, 0, 0)
    else
      var n := |lookups| - 1;
      var s, d := DeltaSum(lookups[..n], verdicts[..n], key), verdicts[n].delta;
      if lookups[n].Skip? || lookups[n].limit.statsKey != key then s
      else Stats(
        s.totalHits + d.totalHits, s.overLimit + d.overLimit, s.nearLimit + d.nearLimit,
        s.overLimitWithLocalCache + d.overLimitWithLocalCache,
        s.withinLimit + d.withinLimit, s.shadowMode + d.shadowMode)
  }

  /** Every field of a stats key grows by its sum over the verdicts under that key. */
  lemma {:induction false} FieldsGrow(stats: StatsStore, lookups: seq<Lookup>, verdicts: seq<Verdict>, key: string)
    requires |lookups| == |verdicts|
    ensures var a, b := StatsOf(stats, key), StatsOf(StatsAfter(stats, lookups, verdicts), key);
            var sum := DeltaSum(lookups, verdicts, key);
            && b.totalHits == a.totalHits + sum.totalHits && b.overLimit == a.overLimit + sum.overLimit
            && b.nearLimit == a.nearLimit + sum.nearLimit && b.withinLimit == a.withinLimit + sum.withinLimit
            && b.overLimitWithLocalCache == a.overLimitWithLocalCache + sum.overLimitWithLocalCache
            && b.shadowMode == a.shadowMode + sum.shadowMode
  {
    if lookups != [] {
      var n := |lookups| - 1;
      FieldsGrow(stats, lookups[..n], verdicts[..n], key);
    }
  }

  /** A stats key that was never used reads zero. */
  lemma UnusedKeyIsZero(key: string)
    ensures var s := StatsOf(map[], key);
            && s.totalHits == s.overLimit == s.nearLimit == 0
            && s.overLimitWithLocalCache == s.withinLimit == s.shadowMode == 0
  {
  }

  method GenerateCacheKeys(
    base: BaseRateLimiter, prefix: string, domain: string, descriptors: seq<seq<Entry>>, limits: seq<Option<Limit>>,
    hits: uint32, now: nat)
    returns (lookups: seq<Lookup>)
    requires |descriptors| == |limits|
    modifies base`stats
    ensures |lookups| == |descriptors|
    ensures forall i | 0 <= i < |lookups| :: lookups[i] == LookupOf(prefix, domain, descriptors[i], limits[i], now)
    ensures forall i | 0 <= i < |lookups| :: lookups[i].Look? ==> lookups[i].key != ""
    ensures base.stats == TotalsAfter(old(base.stats), limits, hits)
  {
    lookups := [];
    for i := 0 to |descriptors|
      invariant |lookups| == i
      invariant forall j | 0 <= j < i :: lookups[j] == LookupOf(prefix, domain, descriptors[j], limits[j], now)
      invariant forall j | 0 <= j < i :: lookups[j].Look? ==> lookups[j].key != ""
      invariant base.stats == TotalsAfter(old(base.stats), limits[..i], hits)
    {
      var key := GenerateCacheKey(prefix, domain, descriptors[i], limits[i], now);
      assert limits[..i + 1][..i] == limits[..i];
      if limits[i].None? {
        lookups := lookups + [Skip];
      } else {
        lookups := lookups + [Look(key.key, key.perSecond, limits[i].value)];
        base.Add(limits[i].value.statsKey, NO_STATS.(totalHits := hits));
      }
    }
    assert limits[..|descriptors|] == limits;
  }

  /** The loop that probes the local cache. */
  method ProbeLocalCache(base: BaseRateLimiter, lookups: seq<Lookup>) returns (local: seq<bool>)
    ensures |local| == |lookups|
    ensures forall i | 0 <= i < |lookups| :: local[i] == IsKnown(lookups[i], Known(base))
  {
    local := [];
    for i := 0 to |lookups|
      invariant |local| == i
      invariant forall j | 0 <= j < i :: local[j] == IsKnown(lookups[j], Known(base))
    {
      var hit := false;
      if lookups[i].Look? {
        hit := base.IsOverLimitWithLocalCache(lookups[i].key);
      }
      local := local + [hit];
    }
  }

  /** What judging a whole batch of lookups on given counts decides. */
  function Verdicts(
    lookups: seq<Lookup>, before: seq<uint32>, after: seq<uint32>, known: set<string>, hits: uint32): (v: seq<Verdict>)
    requires |lookups| == |before| == |after|
    ensures |v| == |lookups|
  {
    seq(|lookups|, i requires 0 <= i < |lookups| =>
      if lookups[i].Skip? then Verdict(OK, 0, NO_STATS, false)
      else Judge(lookups[i].limit, before[i], after[i], lookups[i].key in known, hits))
  }

  lemma StatsSnoc(stats: StatsStore, lookups: seq<Lookup>, verdicts: seq<Verdict>, n: nat)
    requires n < |lookups| == |verdicts|
    ensures StatsAfter(stats, lookups[..n + 1], verdicts[..n + 1]) ==
            if lookups[n].Skip? then StatsAfter(stats, lookups[..n], verdicts[..n])
            else AddStats(StatsAfter(stats, lookups[..n], verdicts[..n]), lookups[n].limit.statsKey, verdicts[n].delta)
  {
    assert lookups[..n + 1][..n] == lookups[..n] && verdicts[..n + 1][..n] == verdicts[..n];
  }

  lemma CachedKeysSnoc(lookups: seq<Lookup>, verdicts: seq<Verdict>, n: nat)
    requires n < |lookups| == |verdicts|
    ensures CachedKeys(lookups[..n + 1], verdicts[..n + 1]) ==
            CachedKeys(lookups[..n], verdicts[..n]) +
            if lookups[n].Look? && verdicts[n].caches then {lookups[n].key} else {}
  {
    var a, b := CachedKeys(lookups[..n + 1], verdicts[..n + 1]), CachedKeys(lookups[..n], verdicts[..n]);
    forall key | key in a ensures key in b || (lookups[n].Look? && verdicts[n].caches && key == lookups[n].key) {
      var i :| 0 <= i < n + 1 && lookups[i].Look? && verdicts[i].caches && lookups[i].key == key;
      if i < n {
        assert lookups[..n][i].Look? && verdicts[..n][i].caches;
      }
    }
    forall key | key in b ensures key in a {
      var i :| 0 <= i < n && lookups[..n][i].Look? && verdicts[..n][i].caches && lookups[..n][i].key == key;
      assert lookups[..n + 1][i].Look? && verdicts[..n + 1][i].caches;
    }
    if lookups[n].Look? && verdicts[n].caches {
      assert lookups[..n + 1][n].Look? && verdicts[..n + 1][n].caches;
    }
  }

  /** The loop that turns counts into statuses. */
  method AnswerAll(
    base: BaseRateLimiter, lookups: seq<Lookup>, local: seq<bool>, before: seq<uint32>, after: seq<uint32>,
    hits: uint32, now: nat)
    returns (statuses: seq<Status>)
    requires |lookups| == |local| == |before| == |after|
    requires forall i | 0 <= i < |lookups| :: lookups[i].Look? ==> lookups[i].key != ""
    requires forall i | 0 <= i < |lookups| :: local[i] == IsKnown(lookups[i], Known(base))
    modifies base`stats, base`local
    ensures var v := Verdicts(lookups, before, after, old(Known(base)), hits);
            && statuses == Statuses(lookups, v, now)
            && base.stats == StatsAfter(old(base.stats), lookups, v)
            && base.local == old(base.local) + if base.cacheEnabled then CachedKeys(lookups, v) else {}
  {
    ghost var v := Verdicts(lookups, before, after, Known(base), hits);
    statuses := [];
    for i := 0 to |lookups|
      invariant |statuses| == i
      invariant forall j | 0 <= j < i :: statuses[j] == StatusAt(lookups[j], v[j], now)
      invariant base.stats == StatsAfter(old(base.stats), lookups[..i], v[..i])
      invariant base.local == old(base.local) + if base.cacheEnabled then CachedKeys(lookups[..i], v[..i]) else {}
    {
      assert lookups[..i + 1][..i] == lookups[..i] && v[..i + 1][..i] == v[..i];
      CachedKeysSnoc(lookups, v, i);
      var key, limit := "", None;
      if lookups[i].Look? {
        key, limit := lookups[i].key, Some(lookups[i].limit);
      }
      var status := base.GetResponseDescriptorStatus(key, limit, before[i], after[i], local[i], hits, now);
      statuses := statuses + [status];
    }
    assert lookups[..|lookups|] == lookups && v[..|lookups|] == v;
  }

  // ---------------------------------------------------------------- charges

  function CountOf(store: map<string, nat>, key: string): nat { if key in store then store[key] else 0 }

  /** What the first `n` lookups add to a key. */
  function Added(lookups: seq<Lookup>, charges: seq<Option<uint32>>, key: string, n: nat): nat
    requires n <= |lookups| == |charges|
  {
    if n == 0 then 0
    else
      Added(lookups, charges, key, n - 1) +
      if lookups[n - 1].Look? && lookups[n - 1].key == key && charges[n - 1].Some? then charges[n - 1].value else 0
  }

  lemma {:induction false} AddedBound(lookups: seq<Lookup>, charges: seq<Option<uint32>>, key: string, n: nat,
                                      hits: nat)
    requires n <= |lookups| == |charges|
    requires forall i | 0 <= i < n && charges[i].Some? :: charges[i].value <= hits
    ensures Added(lookups, charges, key, n) <= hits * n
  {
    if n > 0 {
      AddedBound(lookups, charges, key, n - 1, hits);
      assert hits * n == hits * (n - 1) + hits;
    }
  }

  // ------------------------------------------------------- checked descriptors

  /** The lookups of the descriptors that are checked. */
  function CheckedOnly(lookups: seq<Lookup>): (r: seq<Lookup>)
    ensures forall k | 0 <= k < |r| :: r[k].Look?
  {
    if lookups == [] then []
    else
      var n := |lookups| - 1;
      CheckedOnly(lookups[..n]) + if lookups[n].Skip? then [] else [lookups[n]]
  }

  lemma {:induction false} CheckedIsShorter(lookups: seq<Lookup>)
    ensures |CheckedOnly(lookups)| <= |lookups|
  {
    if lookups != [] {
      CheckedIsShorter(lookups[..|lookups| - 1]);
    }
  }

  /** Where the lookup of a checked descriptor stands among the checked ones. */
  function Position(lookups: seq<Lookup>, i: nat): (k: nat)
    requires i <= |lookups|
  {
    |CheckedOnly(lookups[..i])|
  }

  lemma PositionSnoc(lookups: seq<Lookup>, i: nat)
    requires i < |lookups|
    ensures Position(lookups, i + 1) == Position(lookups, i) + if lookups[i].Look? then 1 else 0
  {
    assert lookups[..i + 1][..i] == lookups[..i];
  }

  lemma {:induction false} CheckedAt(lookups: seq<Lookup>, i: nat)
    requires i < |lookups| && lookups[i].Look?
    ensures Position(lookups, i) < |CheckedOnly(lookups)| && CheckedOnly(lookups)[Position(lookups, i)] == lookups[i]
  {
    var n := |lookups| - 1;
    if i < n {
      CheckedAt(lookups[..n], i);
      assert lookups[..n][..i] == lookups[..i];
    }
  }

  /** Every checked lookup comes from a descriptor. */
  lemma {:induction false} Origin(lookups: seq<Lookup>, k: nat) returns (i: nat)
    requires k < |CheckedOnly(lookups)|
    ensures i < |lookups| && lookups[i].Look? && Position(lookups, i) == k && CheckedOnly(lookups)[k] == lookups[i]
  {
    var n := |lookups| - 1;
    if k < |CheckedOnly(lookups[..n])| {
      i := Origin(lookups[..n], k);
      assert lookups[..n][..i] == lookups[..i];
    } else {
      i := n;
    }
  }

  /** What belongs to a checked lookup belongs to its descriptor. */
  ghost predicate Carried<T(!new)>(d: seq<Lookup>, all: seq<T>, checked: seq<T>) {
    && |all| == |d| && |checked| == |CheckedOnly(d)|
    && forall i | 0 <= i < |d| && d[i].Look? ::
         && Position(d, i) < |checked| && CheckedOnly(d)[Position(d, i)] == d[i]
         && checked[Position(d, i)] == all[i]
  }

  lemma LastPosition(d: seq<Lookup>)
    ensures Position(d, |d|) == |CheckedOnly(d)|
  {
    assert d[..|d|] == d;
  }

  lemma {:induction false} SumsCarry(
    d: seq<Lookup>, all: seq<Option<uint32>>, checked: seq<Option<uint32>>, key: string, n: nat)
    requires Carried(d, all, checked) && n <= |d|
    ensures Position(d, n) <= |CheckedOnly(d)|
    ensures Added(CheckedOnly(d), checked, key, Position(d, n)) == Added(d, all, key, n)
  {
    if n > 0 {
      SumsCarry(d, all, checked, key, n - 1);
      PositionSnoc(d, n - 1);
    }
  }

  /** Positions of the lookups of `d` among those of `c`, which are the checked ones. */
  ghost predicate Places(d: seq<Lookup>, c: seq<Lookup>, pos: seq<nat>) {
    && |pos| == |d| + 1 && pos[0] == 0
    && forall i | 0 <= i < |d| ::
         && pos[i + 1] == pos[i] + (if d[i].Look? then 1 else 0) <= |c|
         && (d[i].Look? ==> c[pos[i]] == d[i])
  }

  lemma PositionsArePlaces(d: seq<Lookup>) returns (pos: seq<nat>)
    ensures Places(d, CheckedOnly(d), pos)
    ensures forall i | 0 <= i <= |d| :: pos[i] == Position(d, i)
  {
    pos := seq(|d| + 1, i requires 0 <= i <= |d| => Position(d, i));
    LastPosition(d);
    forall i | 0 <= i < |d|
      ensures pos[i + 1] == pos[i] + (if d[i].Look? then 1 else 0) <= |CheckedOnly(d)|
      ensures d[i].Look? ==> CheckedOnly(d)[pos[i]] == d[i]
    {
      PositionSnoc(d, i);
      PositionBound(d, i + 1);
      if d[i].Look? {
        CheckedAt(d, i);
      }
    }
  }

  lemma {:induction false} PositionBound(d: seq<Lookup>, n: nat)
    requires n <= |d|
    ensures Position(d, n) <= |CheckedOnly(d)|
    decreases |d| - n
  {
    if n == |d| {
      LastPosition(d);
    } else {
      PositionBound(d, n + 1);
      PositionSnoc(d, n);
    }
  }

  lemma {:induction false} StatsAtPlaces(
    stats: StatsStore, d: seq<Lookup>, all: seq<Verdict>, c: seq<Lookup>, checked: seq<Verdict>, pos: seq<nat>, n: nat)
    requires Places(d, c, pos) && |all| == |d| && |checked| == |c| && n <= |d|
    requires forall i | 0 <= i < |d| && d[i].Look? :: checked[pos[i]] == all[i]
    ensures pos[n] <= |c|
    ensures StatsAfter(stats, c[..pos[n]], checked[..pos[n]]) == StatsAfter(stats, d[..n], all[..n])
  {
    if n > 0 {
      StatsAtPlaces(stats, d, all, c, checked, pos, n - 1);
      assert pos[n] == pos[n - 1] + if d[n - 1].Look? then 1 else 0;
      StatsSnoc(stats, d, all, n - 1);
      if d[n - 1].Look? {
        StatsSnoc(stats, c, checked, pos[n - 1]);
      }
    }
  }

  lemma StatsCarry(stats: StatsStore, d: seq<Lookup>, all: seq<Verdict>, checked: seq<Verdict>)
    requires Carried(d, all, checked)
    ensures StatsAfter(stats, CheckedOnly(d), checked) == StatsAfter(stats, d, all)
  {
    var c, n := CheckedOnly(d), |d|;
    var pos := PositionsArePlaces(d);
    StatsAtPlaces(stats, d, all, c, checked, pos, n);
    LastPosition(d);
    assert d[..n] == d && all[..n] == all && c[..|c|] == c && checked[..|c|] == checked;
  }

  lemma KeysCarry(d: seq<Lookup>, all: seq<Verdict>, checked: seq<Verdict>)
    requires Carried(d, all, checked)
    ensures CachedKeys(CheckedOnly(d), checked) == CachedKeys(d, all)
  {
    var c := CheckedOnly(d);
    var a, b := CachedKeys(c, checked), CachedKeys(d, all);
    forall key | key in a ensures key in b {
      var k :| 0 <= k < |c| && c[k].Look? && checked[k].caches && c[k].key == key;
      var i := Origin(d, k);
    }
    forall key | key in b ensures key in a {
      var i :| 0 <= i < |d| && d[i].Look? && all[i].caches && d[i].key == key;
    }
  }
}
