/** What a request means: in terms of rule lists, cache keys and counters only, what it
    is answered and what it changes. How trees, pipelines, verdicts and statuses
    implement this is the business of the other modules; `ShouldRateLimit` puts them
    together. */
module RequestMeaning {
  import opened Prelude
  import opened Limiter
  import opened CacheKeys
  import opened Config
  import opened ConfigLookup
  import opened ConfigHeap
  import opened LimitCall
  import opened Health
  import ConfigMeaning
  import Service
  import StatsHandles
  import RedisCache

  datatype Request = Request(domain: string, descriptors: seq<Descriptor>, hitsAddend: uint32)

  function HitsOf(r: Request): uint32 { Max(1, r.hitsAddend) }

  /** The near-limit threshold of a limit; the source multiplies by a ratio of at most one. */
  type Threshold = f: uint32 -> uint32 | forall n: uint32 :: f(n) <= n witness (n: uint32) => n

  /** A request at a time, against rule files. */
  datatype Question = Question(prefix: string, nearOf: Threshold, roots: seq<Root>, request: Request, now: nat)

  // ---------------------------------------------------------- which lookups

  /** The rule that a descriptor stands for, read directly off the rule lists. */
  function Meaning(roots: seq<Root>, domain: string, d: Descriptor): Option<Rule> {
    if domain !in DomainsOf(roots) then None
    else if d.limit.Some? then Some(OverrideRule(domain, d))
    else Read(domain + ".", RulesOf(roots, domain), d.entries)
  }

  function Meanings(roots: seq<Root>, r: Request): (rules: seq<Option<Rule>>)
    ensures |rules| == |r.descriptors|
  {
    seq(|r.descriptors|, i requires 0 <= i < |r.descriptors| => Meaning(roots, r.domain, r.descriptors[i]))
  }

  /** Limits that requests bring along have a unit that the limiter knows. */
  predicate KnownUnits(r: Request) {
    forall d | d in r.descriptors && d.limit.Some? :: d.limit.value.unit.Some?
  }

  /** The limit that a descriptor is checked against, and the stats key it is counted under. */
  function LimitAt(q: Question, i: nat): Option<Limit>
    requires i < |q.request.descriptors|
  {
    var rule, ds := Service.ToCheck(Meanings(q.roots, q.request))[i], q.request.descriptors;
    if rule.None? || rule.value.unit.None? then None
    else
      var n := rule.value.requestsPerUnit;
      Some(LimitFields(Quota(n, rule.value.unit.value, rule.value.name), q.nearOf(n), rule.value.shadowMode,
                       StatsHandles.Handle(ConfigOf(q.roots), q.request.domain, ds, i, |ds|)))
  }

  function Limits(q: Question): (limits: seq<Option<Limit>>)
    ensures |limits| == |q.request.descriptors|
  {
    seq(|q.request.descriptors|, i requires 0 <= i < |q.request.descriptors| => LimitAt(q, i))
  }

  function Lookups(q: Question): (lookups: seq<Lookup>)
    ensures |lookups| == |q.request.descriptors|
  {
    seq(|q.request.descriptors|, i requires 0 <= i < |q.request.descriptors| =>
      LookupOf(q.prefix, q.request.domain, q.request.descriptors[i].entries, LimitAt(q, i), q.now))
  }

  /** A rule read off valid lists has a unit exactly when it is not unlimited. */
  lemma {:induction false} ReadHasUnit(parentKey: string, list: seq<Yaml>, entries: seq<Entry>)
    requires ValidList(list)
    ensures var rule := Read(parentKey, list, entries);
            rule.Some? ==> (rule.value.unlimited <==> rule.value.unit.None?)
    decreases |entries|
  {
    if entries != [] {
      var d := Pick(list, entries[0]);
      if d.Some? {
        assert ValidDescriptor(d.value);
        if |entries| > 1 {
          ReadHasUnit(parentKey + Final(d.value) + ".", d.value.descriptors, entries[1..]);
        }
      }
    }
  }

  lemma RuleIsMeaning(roots: seq<Root>, merge: bool, domain: string, d: Descriptor)
    requires ValidFiles(roots, merge) && (d.limit.Some? ==> d.limit.value.unit.Some?)
    ensures StatsHandles.RuleFor(ConfigOf(roots), domain, d) == Meaning(roots, domain, d)
    ensures var rule := Meaning(roots, domain, d);
            rule.Some? ==> (rule.value.unlimited <==> rule.value.unit.None?)
  {
    LookupRefinesRules(domain + ".", RulesOf(roots, domain), None, d.entries);
    ReadHasUnit(domain + ".", RulesOf(roots, domain), d.entries);
  }

  /** The tree means the lists: the rules that a request matches in the loaded tree are
      those read off the files, and have a unit exactly when they are limited. */
  lemma RulesAreMeanings(roots: seq<Root>, merge: bool, r: Request)
    requires ValidFiles(roots, merge) && KnownUnits(r)
    ensures Service.RulesFor(ConfigOf(roots), r.domain, r.descriptors) == Meanings(roots, r)
    ensures forall i | 0 <= i < |r.descriptors| && Meanings(roots, r)[i].Some? ::
              Meanings(roots, r)[i].value.unlimited <==> Meanings(roots, r)[i].value.unit.None?
  {
    forall i | 0 <= i < |r.descriptors|
      ensures StatsHandles.RuleFor(ConfigOf(roots), r.domain, r.descriptors[i]) == Meanings(roots, r)[i]
      ensures Meanings(roots, r)[i].Some? ==>
                (Meanings(roots, r)[i].value.unlimited <==> Meanings(roots, r)[i].value.unit.None?)
    {
      RuleIsMeaning(roots, merge, r.domain, r.descriptors[i]);
    }
  }

  /** Which descriptors are checked, and against what: those whose rule, read off the
      files, is not unlimited and not replaced by any rule that the request matches. The
      key is that of the current window, and the limit is that of the rule. */
  lemma LookupsExactly(q: Question, merge: bool, i: nat)
    requires ValidFiles(q.roots, merge) && KnownUnits(q.request) && i < |q.request.descriptors|
    ensures var rules, look := Meanings(q.roots, q.request), Lookups(q)[i];
            && (look.Look? <==> Service.IsChecked(rules, i))
            && (look.Look? ==>
                  var rule, entries := rules[i].value, q.request.descriptors[i].entries;
                  && rule.unit.Some?
                  && look.key == KeyText(q.prefix, q.request.domain, entries, WindowStart(rule.unit.value, q.now))
                  && look.perSecond == (rule.unit == Some(Second))
                  && look.limit.quota == Quota(rule.requestsPerUnit, rule.unit.value, rule.name)
                  && look.limit.shadowMode == rule.shadowMode && look.limit.near == q.nearOf(rule.requestsPerUnit)
                  && var ds := q.request.descriptors;
                  look.limit.statsKey == StatsHandles.Handle(ConfigOf(q.roots), q.request.domain, ds, i, |ds|))
  {
    RulesAreMeanings(q.roots, merge, q.request);
    Service.CheckedExactly(Meanings(q.roots, q.request), i);
  }

  /** A limit that a request to a known domain brings along is always checked, against what
      the request says, and never in shadow mode. */
  lemma OverrideIsChecked(q: Question, merge: bool, i: nat)
    requires ValidFiles(q.roots, merge) && KnownUnits(q.request) && i < |q.request.descriptors|
    requires q.request.domain in DomainsOf(q.roots) && q.request.descriptors[i].limit.Some?
    ensures var look, limit := Lookups(q)[i], q.request.descriptors[i].limit.value;
            && look.Look? && !look.limit.shadowMode
            && look.limit.quota.perUnit == limit.requestsPerUnit && Some(look.limit.quota.unit) == limit.unit
  {
    OverrideIsPlain(q.request.domain, q.request.descriptors[i]);
    LookupsExactly(q, merge, i);
  }

  /** The entries of a descriptor lead through these rules of the files. */
  ghost predicate LeadsThrough(roots: seq<Root>, domain: string, d: Descriptor, path: seq<Yaml>) {
    domain in DomainsOf(roots) && d.limit.None? && ConfigMeaning.Leads(RulesOf(roots, domain), d.entries, path)
  }

  lemma FileRuleIsMeant(roots: seq<Root>, merge: bool, domain: string, d: Descriptor, path: seq<Yaml>)
    requires ValidFiles(roots, merge) && LeadsThrough(roots, domain, d, path)
    ensures var rule, last := Meaning(roots, domain, d), path[|path| - 1];
            && (rule.Some? <==> last.rateLimit.Some?)
            && (rule.Some? ==>
                  && ConfigMeaning.Reflects(rule.value, last)
                  && ConfigMeaning.Joins(domain + ".", path, rule.value.fullKey))
  {
    ConfigMeaning.ReadFollowsChain(domain + ".", RulesOf(roots, domain), d.entries, path);
  }

  /** The limit of a lookup, in terms of a rule of a file. */
  ghost predicate Enforces(limit: Limit, d: Yaml) {
    && d.rateLimit.Some? && var rl := d.rateLimit.value;
    && limit.quota.perUnit == rl.requestsPerUnit && ConfigMeaning.NamesUnit(rl.unit, limit.quota.unit)
    && limit.quota.name == rl.name && limit.shadowMode == d.shadowMode
  }

  lemma ReflectedIsEnforced(rule: Rule, limit: Limit, d: Yaml)
    requires ConfigMeaning.Reflects(rule, d) && rule.unit.Some?
    requires limit.quota == Quota(rule.requestsPerUnit, rule.unit.value, rule.name)
    requires limit.shadowMode == rule.shadowMode
    ensures Enforces(limit, d)
  {
  }

  /** A descriptor whose entries lead through rules of the files is checked against the
      fields of the last of these. */
  lemma FileRuleIsChecked(q: Question, merge: bool, i: nat, path: seq<Yaml>)
    requires ValidFiles(q.roots, merge) && KnownUnits(q.request) && i < |q.request.descriptors|
    requires LeadsThrough(q.roots, q.request.domain, q.request.descriptors[i], path)
    ensures var look := Lookups(q)[i]; look.Look? ==> Enforces(look.limit, path[|path| - 1])
  {
    var look, rule := Lookups(q)[i], Meanings(q.roots, q.request)[i];
    if look.Look? {
      LookupsExactly(q, merge, i);
      FileRuleIsMeant(q.roots, merge, q.request.domain, q.request.descriptors[i], path);
      ReflectedIsEnforced(rule.value, look.limit, path[|path| - 1]);
    }
  }

  /** No later descriptor that matches the same rule is spelled otherwise. */
  ghost predicate Unrivalled(q: Question, i: nat)
    requires i < |q.request.descriptors|
  {
    var domain, ds := q.request.domain, q.request.descriptors;
    forall j | i < j < |ds| && StatsHandles.SameRule(ConfigOf(q.roots), domain, ds[j], ds[i]) ::
      DetailedKey(domain, ds[j].entries) == DetailedKey(domain, ds[i].entries)
  }

  /** It is counted under the joined spellings of the rules; under its own spelling where
      the rule is detailed, unless a later descriptor redirects it. */
  lemma FileRuleStatsKey(q: Question, merge: bool, i: nat, path: seq<Yaml>)
    requires ValidFiles(q.roots, merge) && KnownUnits(q.request) && i < |q.request.descriptors|
    requires LeadsThrough(q.roots, q.request.domain, q.request.descriptors[i], path)
    requires Lookups(q)[i].Look?
    ensures var key, last := Lookups(q)[i].limit.statsKey, path[|path| - 1];
            if !last.detailedMetric then ConfigMeaning.Joins(q.request.domain + ".", path, key)
            else Unrivalled(q, i) ==> key == DetailedKey(q.request.domain, q.request.descriptors[i].entries)
  {
    var domain, ds := q.request.domain, q.request.descriptors;
    LookupsExactly(q, merge, i);
    FileRuleIsMeant(q.roots, merge, domain, ds[i], path);
    RuleIsMeaning(q.roots, merge, domain, ds[i]);
    assert Meanings(q.roots, q.request)[i] == Meaning(q.roots, domain, ds[i]);
    if Unrivalled(q, i) {
      StatsHandles.OwnSpellingWithoutRivals(ConfigOf(q.roots), domain, ds, i);
    }
  }

  // ------------------------------------------------------ what they are charged

  /** The lookups of a call, with what is there before it: the keys in the local cache
      and the counters in the stores. */
  datatype Scene = Scene(lookups: seq<Lookup>, hits: uint32, known: set<string>, stores: RedisCache.Stores, stop: bool)

  predicate KnownAt(c: Scene, i: nat)
    requires i < |c.lookups|
  {
    c.lookups[i].Look? && c.lookups[i].key in c.known
  }

  /** The hits would take the counter, in 32 bits, beyond the limit. */
  predicate NearAt(c: Scene, i: nat)
    requires i < |c.lookups|
  {
    && c.lookups[i].Look?
    && Wrap(RedisCache.CountIn(c.stores, c.lookups[i].key) + c.hits) > c.lookups[i].limit.quota.perUnit
  }

  /** In stop mode a lookup is held back when some key is known to be over its limit, or
      some other one would go beyond it. */
  predicate HeldBack(c: Scene, i: nat)
    requires i < |c.lookups|
  {
    && c.stop
    && ((exists j | 0 <= j < |c.lookups| :: KnownAt(c, j)) ||
        (|c.lookups| > 1 && !NearAt(c, i) && exists j | 0 <= j < |c.lookups| :: NearAt(c, j)))
  }

  function AmountAt(c: Scene, i: nat): uint32
    requires i < |c.lookups|
  {
    if c.lookups[i].Skip? || KnownAt(c, i) || HeldBack(c, i) then 0 else c.hits
  }

  /** What the first `n` lookups give to a key. */
  function Given(c: Scene, key: string, n: nat): nat
    requires n <= |c.lookups|
  {
    if n == 0 then 0
    else Given(c, key, n - 1) + if c.lookups[n - 1].Look? && c.lookups[n - 1].key == key then AmountAt(c, n - 1) else 0
  }

  /** The counter of a lookup when its turn is over. */
  function CountAt(c: Scene, i: nat): nat
    requires i < |c.lookups| && c.lookups[i].Look?
  {
    RedisCache.CountIn(c.stores, c.lookups[i].key) + Given(c, c.lookups[i].key, i + 1)
  }

  /** No counter that the call charges or reads back reaches 2^32. */
  ghost predicate Roomy(c: Scene) {
    forall i | 0 <= i < |c.lookups| && c.lookups[i].Look? && !KnownAt(c, i) :: CountAt(c, i) < TWO_32
  }

  /** How many of the first `n` lookups are on a key. */
  function Occurrences(lookups: seq<Lookup>, key: string, n: nat): nat
    requires n <= |lookups|
  {
    if n == 0 then 0
    else Occurrences(lookups, key, n - 1) + if lookups[n - 1].Look? && lookups[n - 1].key == key then 1 else 0
  }

  /** Without the stop mode a key receives the hits once for each lookup on it, and
      nothing when it is known to be over its limit. */
  lemma {:induction false} GivenWithoutStop(c: Scene, key: string, n: nat)
    requires !c.stop && n <= |c.lookups|
    ensures Given(c, key, n) == if key in c.known then 0 else c.hits * Occurrences(c.lookups, key, n)
  {
    if n > 0 {
      GivenWithoutStop(c, key, n - 1);
      OneMoreBatch(c.hits, Occurrences(c.lookups, key, n - 1));
    }
  }

  ghost function ChargesOf(c: Scene): (r: seq<Option<uint32>>)
    ensures |r| == |c.lookups|
  {
    RedisCache.Charges(c.stop, c.lookups, c.known, RedisCache.CountsIn(c.stores, c.lookups), c.hits)
  }

  ghost function AftersOf(c: Scene): (r: seq<nat>)
    ensures |r| == |c.lookups|
  {
    RedisCache.Afters(c.stop, c.lookups, c.known, RedisCache.CountsIn(c.stores, c.lookups), c.hits)
  }

  lemma NearAgrees(c: Scene)
    ensures forall i | 0 <= i < |c.lookups| ::
              NearAt(c, i) <==> RedisCache.IsNear(c.lookups[i], RedisCache.CountsIn(c.stores, c.lookups)[i], c.hits)
  {
  }

  /** The limiter charges what the request means, in every mode. */
  lemma ChargeIsAmount(c: Scene, i: nat)
    requires i < |c.lookups|
    ensures ChargesOf(c)[i] == if c.lookups[i].Skip? || KnownAt(c, i) then None else Some(AmountAt(c, i))
  {
    NearAgrees(c);
    assert RedisCache.AnyKnown(c.lookups, c.known) <==> exists j | 0 <= j < |c.lookups| :: KnownAt(c, j) by {
      assert forall j | 0 <= j < |c.lookups| :: KnownAt(c, j) <==> IsKnown(c.lookups[j], c.known);
    }
  }

  lemma {:induction false} AddedIsGiven(c: Scene, key: string, n: nat)
    requires n <= |c.lookups|
    ensures Added(c.lookups, ChargesOf(c), key, n) == Given(c, key, n)
  {
    if n > 0 {
      AddedIsGiven(c, key, n - 1);
      ChargeIsAmount(c, n - 1);
    }
  }

  lemma AfterIsCount(c: Scene, i: nat)
    requires i < |c.lookups|
    ensures AftersOf(c)[i] == if c.lookups[i].Skip? || KnownAt(c, i) then 0 else CountAt(c, i)
  {
    ChargeIsAmount(c, i);
    if c.lookups[i].Look? {
      AddedIsGiven(c, c.lookups[i].key, i + 1);
    }
  }

  lemma RoomyFits(c: Scene)
    ensures Roomy(c) <==>
            RedisCache.Fits(c.stop, c.lookups, c.known, RedisCache.CountsIn(c.stores, c.lookups), c.hits)
  {
    forall i | 0 <= i < |c.lookups|
      ensures AftersOf(c)[i] == if c.lookups[i].Skip? || KnownAt(c, i) then 0 else CountAt(c, i)
    {
      AfterIsCount(c, i);
    }
  }

  // ------------------------------------------------------- what each is answered

  /** A checked descriptor is over its limit. */
  predicate Over(c: Scene, i: nat)
    requires i < |c.lookups|
  {
    c.lookups[i].Look? && (KnownAt(c, i) || CountAt(c, i) > c.lookups[i].limit.quota.perUnit)
  }

  function StatusFor(c: Scene, i: nat, now: nat): Status
    requires i < |c.lookups|
  {
    if c.lookups[i].Skip? then UNCHECKED
    else
      var limit := c.lookups[i].limit;
      Status(if Over(c, i) && !limit.shadowMode then OverLimit else OK,
             Some(limit.quota),
             if Over(c, i) then 0 else limit.quota.perUnit - CountAt(c, i),
             Some(CalculateReset(limit.quota.unit, now)))
  }

  /** What the status of a checked descriptor tells: its quota; nothing remaining exactly
      at the limit or beyond it; OVER_LIMIT exactly beyond it, outside shadow mode; and the
      seconds until its window ends. */
  lemma StatusSays(c: Scene, i: nat, now: nat)
    requires i < |c.lookups| && c.lookups[i].Look? && !KnownAt(c, i)
    ensures var status, limit, n := StatusFor(c, i, now), c.lookups[i].limit, CountAt(c, i);
            && status.currentLimit == Some(limit.quota)
            && (status.code == OverLimit <==> n > limit.quota.perUnit && !limit.shadowMode)
            && status.limitRemaining == Max(0, limit.quota.perUnit - n)
            && status.durationUntilReset.Some? && status.durationUntilReset.value >= 1
            && BeginsWindow(limit.quota.unit, now + status.durationUntilReset.value)
  {
    var unit := c.lookups[i].limit.quota.unit;
    ResetEndsWindow(unit, now, CalculateReset(unit, now));
  }

  /** What a lookup adds to the statistics under its stats key. */
  function DeltaAt(c: Scene, i: nat): Stats
    requires i < |c.lookups| && c.lookups[i].Look?
  {
    var after := if KnownAt(c, i) then 0 else Wrap(CountAt(c, i));
    Judge(c.lookups[i].limit, Sub32(after, c.hits), after, KnownAt(c, i), c.hits).delta
  }

  /** For a lookup that is charged, the statistics count its hits one by one: those
      numbered beyond the limit, and those between the near threshold and the limit. */
  lemma DeltaCountsHits(c: Scene, i: nat)
    requires i < |c.lookups| && c.lookups[i].Look? && !KnownAt(c, i) && c.hits <= CountAt(c, i) < TWO_32
    ensures var d, limit, n := DeltaAt(c, i), c.lookups[i].limit, CountAt(c, i);
            && d.overLimit == Covered(n - c.hits, n, limit.quota.perUnit, n)
            && d.nearLimit == Covered(n - c.hits, n, limit.near, limit.quota.perUnit)
            && d.withinLimit == (if Over(c, i) then 0 else c.hits)
            && d.shadowMode == (if limit.shadowMode then d.overLimit else 0)
            && d.overLimitWithLocalCache == 0 && d.totalHits == 0
  {
    JudgeCountsHits(c.lookups[i].limit, CountAt(c, i) - c.hits, CountAt(c, i), c.hits);
  }

  /** A lookup that the local cache rejects adds its hits to the over-limit, the local
      cache and, for a shadow rule, the shadow statistic, and to no other. */
  lemma KnownAdds(c: Scene, i: nat)
    requires i < |c.lookups| && KnownAt(c, i)
    ensures var d := DeltaAt(c, i);
            && d.overLimit == c.hits && d.overLimitWithLocalCache == c.hits
            && d.shadowMode == (if c.lookups[i].limit.shadowMode then c.hits else 0)
            && d.nearLimit == d.withinLimit == d.totalHits == 0
  {
    LocalRejectionCounts(c.lookups[i].limit, Sub32(0, c.hits), 0, c.hits);
  }

  /** The statistics after the first `n` lookups. */
  function Tallied(stats: StatsStore, c: Scene, n: nat): StatsStore
    requires n <= |c.lookups|
  {
    if n == 0 then stats
    else
      var earlier := Tallied(stats, c, n - 1);
      if c.lookups[n - 1].Skip? then earlier
      else AddStats(earlier, c.lookups[n - 1].limit.statsKey, DeltaAt(c, n - 1))
  }

  /** The keys that a call adds to the local cache. */
  ghost function NewlyOver(c: Scene): set<string> {
    set i | 0 <= i < |c.lookups| && Over(c, i) && !KnownAt(c, i) :: c.lookups[i].key
  }

  /** The verdicts of the limiter. */
  ghost function VerdictsOf(c: Scene, after: seq<uint32>): (v: seq<Verdict>)
    requires |after| == |c.lookups|
    ensures |v| == |c.lookups|
  {
    Verdicts(c.lookups, RedisCache.Befores(after, c.hits), after, c.known, c.hits)
  }

  lemma VerdictIsMeant(c: Scene, after: seq<uint32>, now: nat, i: nat)
    requires after == AftersOf(c) && i < |c.lookups|
    ensures Statuses(c.lookups, VerdictsOf(c, after), now)[i] == StatusFor(c, i, now)
    ensures c.lookups[i].Look? ==>
              && VerdictsOf(c, after)[i].delta == DeltaAt(c, i)
              && (VerdictsOf(c, after)[i].caches <==> Over(c, i) && !KnownAt(c, i))
  {
    AfterIsCount(c, i);
    assert RedisCache.Befores(after, c.hits)[i] == Sub32(after[i], c.hits);
  }

  lemma {:induction false} StatsTally(c: Scene, v: seq<Verdict>, stats: StatsStore, n: nat)
    requires n <= |c.lookups| == |v|
    requires forall i | 0 <= i < |v| && c.lookups[i].Look? :: v[i].delta == DeltaAt(c, i)
    ensures StatsAfter(stats, c.lookups[..n], v[..n]) == Tallied(stats, c, n)
  {
    if n > 0 {
      StatsTally(c, v, stats, n - 1);
      StatsSnoc(stats, c.lookups, v, n - 1);
      TallySnoc(stats, c, n - 1);
    }
  }

  lemma StatsAreTallied(c: Scene, after: seq<uint32>, stats: StatsStore)
    requires after == AftersOf(c)
    ensures StatsAfter(stats, c.lookups, VerdictsOf(c, after)) == Tallied(stats, c, |c.lookups|)
  {
    var v, n := VerdictsOf(c, after), |c.lookups|;
    forall i | 0 <= i < n && c.lookups[i].Look? ensures v[i].delta == DeltaAt(c, i) {
      VerdictIsMeant(c, after, 0, i);
    }
    StatsTally(c, v, stats, n);
    assert c.lookups[..n] == c.lookups && v[..n] == v;
  }

  lemma TallySnoc(stats: StatsStore, c: Scene, n: nat)
    requires n < |c.lookups|
    ensures Tallied(stats, c, n + 1) ==
            if c.lookups[n].Skip? then Tallied(stats, c, n)
            else AddStats(Tallied(stats, c, n), c.lookups[n].limit.statsKey, DeltaAt(c, n))
  {
  }

  lemma CachedAreNewlyOver(c: Scene, after: seq<uint32>)
    requires after == AftersOf(c)
    ensures CachedKeys(c.lookups, VerdictsOf(c, after)) == NewlyOver(c)
  {
    forall i | 0 <= i < |c.lookups| && c.lookups[i].Look?
      ensures VerdictsOf(c, after)[i].caches <==> Over(c, i) && !KnownAt(c, i)
    {
      VerdictIsMeant(c, after, 0, i);
    }
  }

  // --------------------------------------------------------- the whole answer

  /** Some checked descriptor outside shadow mode is over its limit. */
  predicate AnyRejected(c: Scene) {
    exists i | 0 <= i < |c.lookups| :: Over(c, i) && !c.lookups[i].limit.shadowMode
  }

  lemma StatusesDecide(c: Scene, statuses: seq<Status>, unlimited: seq<bool>, now: nat)
    requires |statuses| == |unlimited| == |c.lookups|
    requires forall i | 0 <= i < |c.lookups| :: statuses[i] == StatusFor(c, i, now)
    requires forall i | 0 <= i < |c.lookups| && unlimited[i] :: c.lookups[i].Skip?
    ensures Service.AnyRejects(statuses, unlimited) <==> AnyRejected(c)
    ensures forall i | 0 <= i < |statuses| :: statuses[i].code == OverLimit ==> statuses[i].currentLimit.Some?
  {
    forall i | 0 <= i < |c.lookups|
      ensures Service.Rejects(statuses, unlimited, i) <==> Over(c, i) && !c.lookups[i].limit.shadowMode
    {
      assert statuses[i] == StatusFor(c, i, now);
    }
  }

  function Nowhere(n: nat): seq<bool> { seq(n, _ => false) }

  /** What unlimited descriptors report instead does not change the choice. */
  lemma ChoiceIgnoresUnlimited(
    statuses: seq<Status>, unlimited: seq<bool>, reported: seq<Status>, chosen: Option<nat>)
    requires |statuses| == |unlimited| == |reported|
    requires forall i | 0 <= i < |statuses| ::
               if unlimited[i] then
                 statuses[i] == UNCHECKED && reported[i] == Status(OK, None, Service.MAX_UINT32, None)
               else reported[i] == statuses[i]
    requires Service.Chosen(statuses, unlimited, chosen)
    ensures Service.Chosen(reported, Nowhere(|reported|), chosen)
  {
    var none := Nowhere(|reported|);
    forall i | 0 <= i < |statuses|
      ensures Service.Rejects(reported, none, i) <==> Service.Rejects(statuses, unlimited, i)
      ensures Service.Eligible(reported[i]) <==> Service.Eligible(statuses[i])
    {
    }
    assert Service.AnyRejects(reported, none) <==> Service.AnyRejects(statuses, unlimited);
  }

  /** The headers describe status `i`, the last rejecting one or else the first with
      the least remaining quota. */
  ghost predicate Describes(response: Service.Response, names: HeaderNames, now: nat, i: nat) {
    && i < |response.statuses| && response.statuses[i].currentLimit.Some?
    && Service.Chosen(response.statuses, Nowhere(|response.statuses|), Some(i))
    && response.headers == Service.HeadersOf(response.statuses[i], names, now)
  }

  /** Headers are there exactly when they are enabled and can describe some status. */
  ghost predicate HeadersFit(response: Service.Response, names: Option<HeaderNames>, now: nat) {
    if names.Some? && exists i | 0 <= i < |response.statuses| :: Service.Eligible(response.statuses[i])
    then exists i | 0 <= i < |response.statuses| :: Describes(response, names.value, now, i)
    else response.headers == []
  }

  /** The headers can describe every lookup that is over its limit or charged. */
  lemma ChargedIsEligible(c: Scene, i: nat, now: nat)
    requires i < |c.lookups| && c.lookups[i].Look? && (Over(c, i) || AmountAt(c, i) >= 1)
    ensures Service.Eligible(StatusFor(c, i, now))
  {
  }

  /** In every mode, where some descriptor is checked the headers can describe one: a
      lookup is held back only by another that is over its limit or goes beyond it. */
  lemma SomeIsEligible(c: Scene, i: nat, now: nat)
    requires c.hits >= 1 && i < |c.lookups| && c.lookups[i].Look?
    ensures exists j | 0 <= j < |c.lookups| :: Service.Eligible(StatusFor(c, j, now))
  {
    if KnownAt(c, i) || !HeldBack(c, i) {
      ChargedIsEligible(c, i, now);
    } else if j :| 0 <= j < |c.lookups| && KnownAt(c, j) {
      ChargedIsEligible(c, j, now);
    } else {
      var j :| 0 <= j < |c.lookups| && NearAt(c, j);
      ChargedIsEligible(c, j, now);
    }
  }

  /** In stop mode a limited status can be passed over: that of a lookup held back under
      the largest of all limits, on a key that nothing was counted on. */
  lemma LargestLimitIsPassedOver(a: Lookup, b: Lookup, hits: uint32, stores: RedisCache.Stores, now: nat)
    requires a.Look? && b.Look? && a.key != b.key
    requires b.limit.quota.perUnit == Service.MAX_UINT32 && RedisCache.CountIn(stores, b.key) == 0
    ensures var c := Scene([a, b], hits, {a.key}, stores, true);
            StatusFor(c, 1, now).currentLimit == Some(b.limit.quota) && !Service.Eligible(StatusFor(c, 1, now))
  {
    var c := Scene([a, b], hits, {a.key}, stores, true);
    assert KnownAt(c, 0);
    assert Given(c, b.key, 2) == Given(c, b.key, 1) == Given(c, b.key, 0);
  }

  // ------------------------------------------------------ what serving means

  /** The settings that an answer depends on. */
  datatype Mode = Mode(stop: bool, cacheEnabled: bool, globalShadowMode: bool, headers: Option<HeaderNames>)

  /** The counters of both stores, the local cache, and the statistics. */
  datatype Backend = Backend(stores: RedisCache.Stores, local: set<string>, stats: StatsStore)

  ghost function SceneOf(q: Question, mode: Mode, before: Backend): Scene {
    Scene(Lookups(q), HitsOf(q.request), if mode.cacheEnabled then before.local else {}, before.stores, mode.stop)
  }

  /** The answer: OVER_LIMIT exactly when, outside the global shadow mode, some checked
      descriptor that is not in shadow mode is over its limit; the status of each
      descriptor; and headers for the most pressing one. */
  ghost predicate Answers(q: Question, mode: Mode, c: Scene, response: Service.Response, turned: int)
    requires |c.lookups| == |q.request.descriptors|
  {
    && (response.overallCode == OverLimit <==> AnyRejected(c) && !mode.globalShadowMode)
    && turned == (if AnyRejected(c) && mode.globalShadowMode then 1 else 0)
    && |response.statuses| == |c.lookups|
    && (forall i | 0 <= i < |c.lookups| ::
          response.statuses[i] ==
          if Service.Unlimited(Meanings(q.roots, q.request)[i]) then Status(OK, None, Service.MAX_UINT32, None)
          else StatusFor(c, i, q.now))
    && HeadersFit(response, mode.headers, q.now)
  }

  /** The effect of the lookups: every counter grows by what it is given, the keys found
      over their limits are remembered, and every checked descriptor is counted under
      its stats key by its outcome. */
  ghost predicate ChangesFrom(before: Backend, mode: Mode, c: Scene, after: Backend) {
    && (forall key :: RedisCache.CountIn(after.stores, key) ==
          RedisCache.CountIn(before.stores, key) + Given(c, key, |c.lookups|))
    && after.local == (before.local + if mode.cacheEnabled then NewlyOver(c) else {})
    && after.stats == Tallied(before.stats, c, |c.lookups|)
  }

  /** The hits of every checked descriptor are counted in the total under its stats key. */
  function Totalled(q: Question, before: Backend): Backend {
    before.(stats := TotalsAfter(before.stats, Limits(q), HitsOf(q.request)))
  }

  /** A request is served. */
  ghost predicate Serves(
    q: Question, mode: Mode, before: Backend, after: Backend, response: Service.Response, turned: int)
  {
    var c := SceneOf(q, mode, before);
    Answers(q, mode, c, response, turned) && ChangesFrom(Totalled(q, before), mode, c, after)
  }

  lemma ServesFrom(
    q: Question, mode: Mode, before: Backend, prepared: Backend, after: Backend, response: Service.Response,
    turned: int)
    requires prepared == Totalled(q, before)
    requires Answers(q, mode, SceneOf(q, mode, before), response, turned)
    requires ChangesFrom(prepared, mode, SceneOf(q, mode, before), after)
    ensures Serves(q, mode, before, after, response, turned)
  {
  }

  /** In every mode the headers can describe some status exactly when some descriptor is checked. */
  lemma EligibleIfChecked(q: Question, mode: Mode, before: Backend, response: Service.Response, turned: int)
    requires Answers(q, mode, SceneOf(q, mode, before), response, turned)
    ensures (exists i | 0 <= i < |response.statuses| :: Service.Eligible(response.statuses[i])) <==>
            exists i | 0 <= i < |Lookups(q)| :: Lookups(q)[i].Look?
  {
    var c := SceneOf(q, mode, before);
    UnlimitedIsUnchecked(q);
    if i :| 0 <= i < |Lookups(q)| && Lookups(q)[i].Look? {
      SomeIsEligible(c, i, q.now);
      var j :| 0 <= j < |c.lookups| && Service.Eligible(StatusFor(c, j, q.now));
      assert response.statuses[j] == StatusFor(c, j, q.now);
    }
    if j :| 0 <= j < |response.statuses| && Service.Eligible(response.statuses[j]) {
      assert response.statuses[j] == StatusFor(c, j, q.now);
      assert Lookups(q)[j].Look?;
    }
  }

  /** So an answer has headers exactly when they are enabled and some descriptor is checked. */
  lemma HeadersExactly(q: Question, mode: Mode, before: Backend, response: Service.Response, turned: int)
    requires Answers(q, mode, SceneOf(q, mode, before), response, turned)
    ensures response.headers != [] <==> mode.headers.Some? && exists i | 0 <= i < |Lookups(q)| :: Lookups(q)[i].Look?
  {
    EligibleIfChecked(q, mode, before, response, turned);
    FitMeansHeaders(response, mode.headers, q.now);
  }

  lemma FitMeansHeaders(response: Service.Response, names: Option<HeaderNames>, now: nat)
    requires HeadersFit(response, names, now)
    ensures response.headers != [] <==>
            names.Some? && exists i | 0 <= i < |response.statuses| :: Service.Eligible(response.statuses[i])
  {
  }

  lemma LookupsHaveKeys(q: Question)
    ensures forall i | 0 <= i < |Lookups(q)| :: Lookups(q)[i].Look? ==> Lookups(q)[i].key != ""
  {
  }

  lemma UnlimitedIsUnchecked(q: Question)
    ensures forall i | 0 <= i < |Lookups(q)| && Service.Unlimited(Meanings(q.roots, q.request)[i]) ::
              Lookups(q)[i].Skip?
  {
  }

  /** The hits of a request: as many as it says, but at least one. */
  function HitsAsked(r: Request): nat { if r.hitsAddend == 0 then 1 else r.hitsAddend }

  /** What a served request adds to a counter without the stop mode: its hits, once for
      each checked descriptor with that key, unless the key is known to be over. */
  lemma ServedCounter(
    q: Question, mode: Mode, before: Backend, after: Backend, response: Service.Response, turned: int, key: string)
    requires Serves(q, mode, before, after, response, turned) && !mode.stop
    ensures RedisCache.CountIn(after.stores, key) ==
            RedisCache.CountIn(before.stores, key) +
            if mode.cacheEnabled && key in before.local then 0
            else HitsAsked(q.request) * Occurrences(Lookups(q), key, |Lookups(q)|)
  {
    GivenWithoutStop(SceneOf(q, mode, before), key, |Lookups(q)|);
  }

  lemma {:induction false} TalliedTotals(stats: StatsStore, c: Scene, n: nat, key: string)
    requires n <= |c.lookups|
    ensures StatsOf(Tallied(stats, c, n), key).totalHits == StatsOf(stats, key).totalHits
  {
    if n > 0 {
      TalliedTotals(stats, c, n - 1, key);
    }
  }

  /** What a served request adds to the total of a stats key, in every mode: its hits, once
      for each checked descriptor that is counted under it. */
  lemma ServedTotal(
    q: Question, mode: Mode, before: Backend, after: Backend, response: Service.Response, turned: int, key: string)
    requires Serves(q, mode, before, after, response, turned)
    ensures StatsOf(after.stats, key).totalHits ==
            StatsOf(before.stats, key).totalHits + HitsAsked(q.request) * LimitsUnder(Limits(q), key)
  {
    TotalsGrow(before.stats, Limits(q), HitsOf(q.request), key);
    TalliedTotals(Totalled(q, before).stats, SceneOf(q, mode, before), |Lookups(q)|, key);
  }
}
