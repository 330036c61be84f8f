/** The request path of `src/service/ratelimit.go`: which limits a request checks, and
    how the statuses become one response. */
module Service {
  import opened Prelude
  import opened Limiter
  import opened CacheKeys
  import opened Config
  import opened ConfigLookup
  import opened ConfigHeap
  import opened StatsHandles
  import opened LimitCall
  import opened Health

  // -------------------------------------------------------- which limits to check

  function RulesFor(loaded: Domains, domain: string, descriptors: seq<Descriptor>): (r: seq<Option<Rule>>)
    ensures |r| == |descriptors|
  {
    seq(|descriptors|, i requires 0 <= i < |descriptors| => RuleFor(loaded, domain, descriptors[i]))
  }

  /** The names that any matched rule replaces, checked or not. */
  function Replaced(rules: seq<Option<Rule>>): set<string> {
    set i, name | 0 <= i < |rules| && rules[i].Some? && name in rules[i].value.replaced :: name
  }

  function NamesOf(rule: Option<Rule>): set<string> {
    if rule.Some? then set name | name in rule.value.replaced else {}
  }

  predicate Checks(rule: Option<Rule>, replaced: set<string>) {
    rule.Some? && !rule.value.unlimited && (rule.value.name == "" || rule.value.name !in replaced)
  }

  /** What is left to check of the matched rules. */
  function ToCheck(rules: seq<Option<Rule>>): (r: seq<Option<Rule>>)
    ensures |r| == |rules|
  {
    seq(|rules|, i requires 0 <= i < |rules| => if Checks(rules[i], Replaced(rules)) then rules[i] else None)
  }

  predicate Unlimited(rule: Option<Rule>) { rule.Some? && rule.value.unlimited }

  lemma ReplacedMember(rules: seq<Option<Rule>>, name: string)
    ensures name in Replaced(rules) <==> exists rule | rule in rules :: rule.Some? && name in rule.value.replaced
  {
    if rule :| rule in rules && rule.Some? && name in rule.value.replaced {
      var i :| 0 <= i < |rules| && rules[i] == rule;
      assert name in rules[i].value.replaced;
    }
  }

  /** Rule `i` is to be checked: it is there, is not unlimited, and has no name or one that
      no matched rule, in whatever position and checked or not, lists as replaced. */
  ghost predicate IsChecked(rules: seq<Option<Rule>>, i: nat)
    requires i < |rules|
  {
    && rules[i].Some? && !rules[i].value.unlimited
    && (rules[i].value.name == "" ||
        forall j | 0 <= j < |rules| && rules[j].Some? :: rules[i].value.name !in rules[j].value.replaced)
  }

  lemma CheckedExactly(rules: seq<Option<Rule>>, i: nat)
    requires i < |rules|
    ensures ToCheck(rules)[i] == if IsChecked(rules, i) then rules[i] else None
  {
    if rules[i].Some? {
      ReplacedMember(rules, rules[i].value.name);
    }
  }

  /** Replacement is order-free: rearranging, repeating or dropping repeated
      descriptors rearranges the outcome, because each descriptor's fate depends on
      its own rule and on the set of matched rules only. */
  lemma ReplacementIsOrderFree(rules: seq<Option<Rule>>, rules': seq<Option<Rule>>)
    requires forall rule :: rule in rules <==> rule in rules'
    ensures forall i, j | 0 <= i < |rules| && 0 <= j < |rules'| && rules[i] == rules'[j] ::
              ToCheck(rules)[i] == ToCheck(rules')[j]
  {
    forall name ensures name in Replaced(rules) <==> name in Replaced(rules') {
      ReplacedMember(rules, name);
      ReplacedMember(rules', name);
    }
    assert Replaced(rules) == Replaced(rules');
  }

  lemma ReplacedSnoc(rules: seq<Option<Rule>>, n: nat)
    requires n < |rules|
    ensures Replaced(rules[..n + 1]) == Replaced(rules[..n]) + NamesOf(rules[n])
  {
    forall name
      ensures name in Replaced(rules[..n + 1]) <==>
              name in Replaced(rules[..n]) || (rules[n].Some? && name in rules[n].value.replaced)
    {
      ReplacedMember(rules[..n + 1], name);
      ReplacedMember(rules[..n], name);
      assert rules[..n + 1] == rules[..n] + [rules[n]];
    }
  }

  /** The limit of a matched rule, unless it is unlimited. */
  ghost predicate Holds(limit: LimitCell?, rule: Option<Rule>)
    reads limit
  {
    && (limit != null <==> rule.Some? && !rule.value.unlimited)
    && (limit != null ==> limit.rule == rule.value)
  }

  /** One round of the matching loop. The limit comes back under the spelling of this
      descriptor, and no handle is rewritten but that of the object it shares. */
  method MatchLimit(config: LoadedConfig, domain: string, d: Descriptor)
    returns (limit: LimitCell?, unlimited: bool, names: set<string>)
    requires config.Valid()
    modifies config`notFound, config.cells`statsKey
    ensures config.Valid()
    ensures var rule := RuleFor(config.loaded, domain, d);
            names == NamesOf(rule) && unlimited == Unlimited(rule) && Holds(limit, rule)
    ensures limit != null ==>
              Carries(config, domain, d, limit) && limit.statsKey == OwnHandle(domain, d.entries, limit.rule)
    ensures forall c | c in config.cells ::
              && c.rule == old(c.rule)
              && c.statsKey ==
                 if Shares(config.loaded, domain, d) && domain in config.domains &&
                    ConfigLookup.Lookup(config.domains[domain], d.entries) == Some(c)
                 then DetailedKey(domain, d.entries) else old(c.statsKey)
  {
    if domain in config.domains {
      config.FoundAlike(domain, d.entries);
    }
    limit := config.GetLimit(domain, d);
    unlimited, names := false, {};
    if limit != null {
      names := set name | name in limit.rule.replaced;
      if limit.rule.unlimited {
        unlimited := true;
        limit := null;
      }
    }
  }

  /** A matched limit, and the stats key it carries when the first `n` descriptors have
      been looked up. */
  ghost predicate Counted(config: LoadedConfig, domain: string, ds: seq<Descriptor>, i: nat, n: nat, limit: LimitCell?)
    requires i < n <= |ds|
    reads config, limit
  {
    && Holds(limit, RuleFor(config.loaded, domain, ds[i]))
    && (limit != null ==>
          Carries(config, domain, ds[i], limit) && limit.statsKey == Handle(config.loaded, domain, ds, i, n))
  }

  /** What a rewritten handle means for a limit that was matched earlier. */
  lemma StillCounted(config: LoadedConfig, domain: string, ds: seq<Descriptor>, i: nat, n: nat, limit: LimitCell,
                     was: string)
    requires config.Valid() && i < n < |ds|
    requires Holds(limit, RuleFor(config.loaded, domain, ds[i])) && Carries(config, domain, ds[i], limit)
    requires was == Handle(config.loaded, domain, ds, i, n)
    requires limit !in config.cells ==> limit.statsKey == was
    requires limit in config.cells ==>
               limit.statsKey ==
               if Shares(config.loaded, domain, ds[n]) && domain in config.domains &&
                  ConfigLookup.Lookup(config.domains[domain], ds[n].entries) == Some(limit)
               then DetailedKey(domain, ds[n].entries) else was
    ensures Counted(config, domain, ds, i, n + 1, limit)
  {
    HandleSnoc(config.loaded, domain, ds, i, n);
    if Shares(config.loaded, domain, ds[i]) {
      RewritesExactly(config, domain, ds[n], ds[i], limit);
    }
  }

  /** The first loop of `constructLimitsToCheck`: matches all descriptors and collects
      the names that the matched rules replace. Each matched limit ends up under the
      stats key of the last descriptor that shares it. */
  method MatchLimits(config: LoadedConfig, domain: string, descriptors: seq<Descriptor>)
    returns (limits: seq<LimitCell?>, isUnlimited: seq<bool>, replacing: set<string>)
    requires config.Valid()
    modifies config`notFound, config.cells`statsKey
    ensures config.Valid()
    ensures |limits| == |isUnlimited| == |descriptors|
    ensures var rules := RulesFor(config.loaded, domain, descriptors);
            replacing == Replaced(rules) && forall i | 0 <= i < |descriptors| :: isUnlimited[i] == Unlimited(rules[i])
    ensures forall i | 0 <= i < |descriptors| :: Counted(config, domain, descriptors, i, |descriptors|, limits[i])
  {
    ghost var rules := RulesFor(config.loaded, domain, descriptors);
    limits, isUnlimited, replacing := [], [], {};
    for i := 0 to |descriptors|
      invariant config.Valid()
      invariant |limits| == |isUnlimited| == i
      invariant replacing == Replaced(rules[..i])
      invariant forall j | 0 <= j < i :: isUnlimited[j] == Unlimited(rules[j])
      invariant forall j | 0 <= j < i :: Counted(config, domain, descriptors, j, i, limits[j])
    {
      ReplacedSnoc(rules, i);
      var limit, unlimited, names := MatchOne(config, domain, descriptors, i, limits);
      replacing := replacing + names;
      limits, isUnlimited := limits + [limit], isUnlimited + [unlimited];
    }
    assert rules[..|descriptors|] == rules;
  }

  /** One round of the matching loop, and what it leaves of the earlier ones. */
  method MatchOne(config: LoadedConfig, domain: string, descriptors: seq<Descriptor>, i: nat,
                  ghost earlier: seq<LimitCell?>)
    returns (limit: LimitCell?, unlimited: bool, names: set<string>)
    requires config.Valid() && i < |descriptors| && |earlier| == i
    requires forall j | 0 <= j < i :: Counted(config, domain, descriptors, j, i, earlier[j])
    modifies config`notFound, config.cells`statsKey
    ensures config.Valid()
    ensures var rule := RuleFor(config.loaded, domain, descriptors[i]);
            names == NamesOf(rule) && unlimited == Unlimited(rule)
    ensures Counted(config, domain, descriptors, i, i + 1, limit)
    ensures forall j | 0 <= j < i :: Counted(config, domain, descriptors, j, i + 1, earlier[j])
  {
    ghost var was := seq(i, j requires 0 <= j < i =>
      if earlier[j] == null then "" else Handle(config.loaded, domain, descriptors, j, i));
    limit, unlimited, names := MatchLimit(config, domain, descriptors[i]);
    forall j | 0 <= j < i ensures Counted(config, domain, descriptors, j, i + 1, earlier[j]) {
      if earlier[j] != null {
        StillCounted(config, domain, descriptors, j, i, earlier[j], was[j]);
      }
    }
    if limit != null && Shares(config.loaded, domain, descriptors[i]) {
      assert LastSame(config.loaded, domain, descriptors, i, i + 1) == i;
    }
  }

  /** `constructLimitsToCheck`: a descriptor is checked exactly when its rule is not
      unlimited and its name is empty or not replaced by any rule that the request
      matches, in whatever position; and it is counted under its handle. */
  method ConstructLimitsToCheck(config: LoadedConfig, domain: string, descriptors: seq<Descriptor>)
    returns (limits: seq<LimitCell?>, isUnlimited: seq<bool>)
    requires config.Valid()
    modifies config`notFound, config.cells`statsKey
    ensures config.Valid()
    ensures |limits| == |isUnlimited| == |descriptors|
    ensures var rules := RulesFor(config.loaded, domain, descriptors);
            forall i | 0 <= i < |descriptors| ::
              && (limits[i] != null <==> IsChecked(rules, i))
              && (limits[i] != null ==>
                    && limits[i].rule == rules[i].value
                    && limits[i].statsKey == Handle(config.loaded, domain, descriptors, i, |descriptors|))
              && isUnlimited[i] == Unlimited(rules[i])
  {
    ghost var rules := RulesFor(config.loaded, domain, descriptors);
    var matched, replacing;
    matched, isUnlimited, replacing := MatchLimits(config, domain, descriptors);
    limits := DropReplaced(matched, replacing);
    forall i | 0 <= i < |descriptors| ensures limits[i] != null <==> IsChecked(rules, i) {
      CheckedExactly(rules, i);
      assert Counted(config, domain, descriptors, i, |descriptors|, matched[i]);
      assert rules[i] == RuleFor(config.loaded, domain, descriptors[i]);
    }
  }

  predicate IsReplaced(limit: LimitCell?, replacing: set<string>)
    reads limit
  {
    limit != null && limit.rule.name != "" && limit.rule.name in replacing
  }

  /** The second loop of `constructLimitsToCheck`. */
  method DropReplaced(matched: seq<LimitCell?>, replacing: set<string>) returns (limits: seq<LimitCell?>)
    ensures |limits| == |matched|
    ensures forall i | 0 <= i < |matched| :: limits[i] == if IsReplaced(matched[i], replacing) then null else matched[i]
  {
    limits := matched;
    for i := 0 to |matched|
      invariant |limits| == |matched|
      invariant forall j | 0 <= j < |matched| ::
                  limits[j] == if j < i && IsReplaced(matched[j], replacing) then null else matched[j]
    {
      if limits[i] != null && limits[i].rule.name != "" && limits[i].rule.name in replacing {
        limits := limits[i := null];
      }
    }
  }

  // --------------------------------------------------------------- the response

  const MAX_UINT32: uint32 := TWO_32 - 1

  datatype Header = Header(name: string, value: string)

  datatype Response = Response(overallCode: Code, statuses: seq<Status>, headers: seq<Header>)

  /** An over-limit status that counts towards the overall code. */
  predicate Rejects(statuses: seq<Status>, unlimited: seq<bool>, i: nat)
    requires i < |statuses| == |unlimited|
  {
    !unlimited[i] && statuses[i].code == OverLimit
  }

  predicate AnyRejects(statuses: seq<Status>, unlimited: seq<bool>)
    requires |statuses| == |unlimited|
  {
    exists i | 0 <= i < |statuses| :: Rejects(statuses, unlimited, i)
  }

  /** A status that the headers can describe. */
  predicate Eligible(status: Status) { status.currentLimit.Some? && status.limitRemaining < MAX_UINT32 }

  /** The descriptor that the headers describe: the last rejecting one, else the first
      of those with the least remaining quota; none if no status is eligible. */
  ghost predicate Chosen(statuses: seq<Status>, unlimited: seq<bool>, chosen: Option<nat>)
    requires |statuses| == |unlimited|
  {
    if AnyRejects(statuses, unlimited) then
      && chosen.Some? && chosen.value < |statuses| && Rejects(statuses, unlimited, chosen.value)
      && forall j | chosen.value < j < |statuses| :: !Rejects(statuses, unlimited, j)
    else if chosen.Some? then
      && chosen.value < |statuses| && Eligible(statuses[chosen.value])
      && (forall j | 0 <= j < |statuses| && Eligible(statuses[j]) ::
            statuses[chosen.value].limitRemaining <= statuses[j].limitRemaining)
      && (forall j | 0 <= j < chosen.value && Eligible(statuses[j]) ::
            statuses[chosen.value].limitRemaining < statuses[j].limitRemaining)
    else
      forall j | 0 <= j < |statuses| :: !Eligible(statuses[j])
  }

  /** The rule decides the descriptor. */
  lemma ChosenIsUnique(statuses: seq<Status>, unlimited: seq<bool>, a: Option<nat>, b: Option<nat>)
    requires |statuses| == |unlimited| && Chosen(statuses, unlimited, a) && Chosen(statuses, unlimited, b)
    ensures a == b
  {
  }

  function HeadersOf(status: Status, names: HeaderNames, now: nat): seq<Header>
    requires status.currentLimit.Some?
  {
    [Header(names.limit, FormatInt(status.currentLimit.value.perUnit)),
     Header(names.remaining, FormatInt(status.limitRemaining)),
     Header(names.reset, FormatInt(CalculateReset(status.currentLimit.value.unit, now)))]
  }

  /** Which header carries which number. */
  lemma HeadersSay(status: Status, names: HeaderNames, now: nat)
    requires status.currentLimit.Some?
    ensures var h, quota := HeadersOf(status, names, now), status.currentLimit.value;
            && |h| == 3 && h[0].name == names.limit && h[1].name == names.remaining && h[2].name == names.reset
            && ParseInt(h[0].value) == quota.perUnit && ParseInt(h[1].value) == status.limitRemaining
            && ParseInt(h[2].value) == CalculateReset(quota.unit, now)
  {
    ParseFormat(status.currentLimit.value.perUnit);
    ParseFormat(status.limitRemaining);
    ParseFormat(CalculateReset(status.currentLimit.value.unit, now));
  }

  /** The aggregation loop of `shouldRateLimitWorker`. `overridden` tells that the
      global shadow mode turned the answer and its statistic was increased. */
  method Respond(
    statuses: seq<Status>, unlimited: seq<bool>, names: Option<HeaderNames>, globalShadowMode: bool, now: nat)
    returns (response: Response, chosen: Option<nat>, overridden: bool)
    requires |statuses| == |unlimited|
    requires forall i | 0 <= i < |statuses| :: statuses[i].code == OverLimit ==> statuses[i].currentLimit.Some?
    ensures response.overallCode == OverLimit <==> AnyRejects(statuses, unlimited) && !globalShadowMode
    ensures overridden <==> AnyRejects(statuses, unlimited) && globalShadowMode
    ensures |response.statuses| == |statuses|
    ensures forall i | 0 <= i < |statuses| ::
              response.statuses[i] == if unlimited[i] then Status(OK, None, MAX_UINT32, None) else statuses[i]
    ensures names.Some? ==> Chosen(statuses, unlimited, chosen)
    ensures response.headers != [] <==> names.Some? && chosen.Some?
    ensures response.headers != [] ==>
              && chosen.value < |statuses| && statuses[chosen.value].currentLimit.Some?
              && response.headers == HeadersOf(statuses[chosen.value], names.value, now)
  {
    var finalCode := OK;
    var minLimitRemaining: uint32 := MAX_UINT32;
    var out: seq<Status> := [];
    chosen := None;
    for i := 0 to |statuses|
      invariant |out| == i
      invariant forall j | 0 <= j < i ::
                  out[j] == if unlimited[j] then Status(OK, None, MAX_UINT32, None) else statuses[j]
      invariant finalCode == OverLimit <==> AnyRejects(statuses[..i], unlimited[..i])
      invariant names.Some? ==> Chosen(statuses[..i], unlimited[..i], chosen)
      invariant chosen.Some? ==> chosen.value < i && statuses[chosen.value].currentLimit.Some?
      invariant names.Some? ==>
                  minLimitRemaining ==
                  if finalCode == OverLimit then 0
                  else if chosen.Some? then statuses[chosen.value].limitRemaining else MAX_UINT32
    {
      ghost var before := chosen;
      if names.Some? && statuses[i].currentLimit.Some? && statuses[i].limitRemaining < minLimitRemaining {
        chosen := Some(i);
        minLimitRemaining := statuses[i].limitRemaining;
      }
      if unlimited[i] {
        out := out + [Status(OK, None, MAX_UINT32, None)];
      } else {
        out := out + [statuses[i]];
        if statuses[i].code == OverLimit {
          finalCode := OverLimit;
          chosen := Some(i);
          minLimitRemaining := 0;
        }
      }
      RejectsSnoc(statuses, unlimited, i);
      if names.Some? {
        ChosenSnoc(statuses, unlimited, i, before, chosen);
      }
    }
    assert statuses[..|statuses|] == statuses && unlimited[..|statuses|] == unlimited;
    overridden := finalCode == OverLimit && globalShadowMode;
    var headers: seq<Header> := [];
    if names.Some? && chosen.Some? {
      headers := HeadersOf(statuses[chosen.value], names.value, now);
    }
    response := Response(if overridden then OK else finalCode, out, headers);
  }

  lemma RejectsSnoc(statuses: seq<Status>, unlimited: seq<bool>, n: nat)
    requires n < |statuses| == |unlimited|
    ensures AnyRejects(statuses[..n + 1], unlimited[..n + 1]) <==>
            AnyRejects(statuses[..n], unlimited[..n]) || Rejects(statuses, unlimited, n)
  {
    if AnyRejects(statuses[..n], unlimited[..n]) {
      var i :| 0 <= i < n && Rejects(statuses[..n], unlimited[..n], i);
      assert Rejects(statuses[..n + 1], unlimited[..n + 1], i);
    }
    if Rejects(statuses, unlimited, n) {
      assert Rejects(statuses[..n + 1], unlimited[..n + 1], n);
    }
    if AnyRejects(statuses[..n + 1], unlimited[..n + 1]) && !Rejects(statuses, unlimited, n) {
      var i :| 0 <= i < n + 1 && Rejects(statuses[..n + 1], unlimited[..n + 1], i);
      assert Rejects(statuses[..n], unlimited[..n], i);
    }
  }

  /** One more status, and how the running choice follows it. */
  lemma ChosenSnoc(statuses: seq<Status>, unlimited: seq<bool>, n: nat, before: Option<nat>, after: Option<nat>)
    requires n < |statuses| == |unlimited|
    requires Chosen(statuses[..n], unlimited[..n], before)
    requires var rejected := AnyRejects(statuses[..n], unlimited[..n]);
             after ==
             if Rejects(statuses, unlimited, n) then Some(n)
             else if !rejected && Eligible(statuses[n]) &&
                     (before.Some? ==> statuses[n].limitRemaining < statuses[before.value].limitRemaining)
             then Some(n) else before
    ensures Chosen(statuses[..n + 1], unlimited[..n + 1], after)
  {
    RejectsSnoc(statuses, unlimited, n);
    var s, u, t, w := statuses[..n], unlimited[..n], statuses[..n + 1], unlimited[..n + 1];
    assert forall j | 0 <= j < n :: t[j] == s[j] && w[j] == u[j] && Rejects(t, w, j) == Rejects(s, u, j);
    assert t[n] == statuses[n] && w[n] == unlimited[n];
    assert Rejects(t, w, n) == Rejects(statuses, unlimited, n);
  }

  // ------------------------------------------------- statuses from the limiters

  /** Statuses of a call: over-limit ones carry their limit, so building headers never
      meets a missing one. A limited status is eligible for the headers unless nothing
      was counted against the largest of all limits; so when every lookup is charged,
      the headers are missing only if no descriptor has a limit. */
  lemma LimiterStatuses(
    lookups: seq<Lookup>, before: seq<uint32>, after: seq<uint32>, known: set<string>, hits: uint32, now: nat)
    requires |lookups| == |before| == |after|
    ensures var s := Statuses(lookups, Verdicts(lookups, before, after, known, hits), now);
            && |s| == |lookups|
            && (forall i | 0 <= i < |s| :: s[i].code == OverLimit ==> s[i].currentLimit.Some?)
            && (forall i | 0 <= i < |s| :: s[i].currentLimit.Some? <==> lookups[i].Look?)
            && (forall i | 0 <= i < |s| && lookups[i].Skip? :: s[i] == Status(OK, None, 0, None))
            && (forall i | 0 <= i < |s| && lookups[i].Look? ::
                  Eligible(s[i]) <==>
                  lookups[i].key in known || after[i] >= 1 || lookups[i].limit.quota.perUnit < MAX_UINT32)
  {
    var s := Statuses(lookups, Verdicts(lookups, before, after, known, hits), now);
    forall i | 0 <= i < |s|
      ensures s[i].code == OverLimit ==> s[i].currentLimit.Some?
      ensures s[i].currentLimit.Some? <==> lookups[i].Look?
      ensures lookups[i].Skip? ==> s[i] == Status(OK, None, 0, None)
      ensures lookups[i].Look? ==>
                (Eligible(s[i]) <==>
                 lookups[i].key in known || after[i] >= 1 || lookups[i].limit.quota.perUnit < MAX_UINT32)
    {
      assert s[i] == StatusAt(lookups[i], Verdicts(lookups, before, after, known, hits)[i], now);
    }
  }

  /** What an overall rejection means: some checked descriptor outside shadow mode was
      known to be over its limit, or its counter went beyond it. */
  lemma RejectionMeaning(
    lookups: seq<Lookup>, before: seq<uint32>, after: seq<uint32>, known: set<string>, hits: uint32, now: nat,
    unlimited: seq<bool>)
    requires |lookups| == |before| == |after| == |unlimited|
    requires forall i | 0 <= i < |lookups| && unlimited[i] :: lookups[i].Skip?
    ensures var s := Statuses(lookups, Verdicts(lookups, before, after, known, hits), now);
            AnyRejects(s, unlimited) <==>
            exists i | 0 <= i < |lookups| ::
              && lookups[i].Look? && !lookups[i].limit.shadowMode
              && (lookups[i].key in known || after[i] > lookups[i].limit.quota.perUnit)
  {
    var v := Verdicts(lookups, before, after, known, hits);
    var s := Statuses(lookups, v, now);
    forall i | 0 <= i < |lookups|
      ensures Rejects(s, unlimited, i) <==>
              && lookups[i].Look? && !lookups[i].limit.shadowMode
              && (lookups[i].key in known || after[i] > lookups[i].limit.quota.perUnit)
    {
      assert s[i] == StatusAt(lookups[i], v[i], now);
    }
  }
}
