/** The service of `src/service/ratelimit.go` over the Redis limiter: reloads, and a
    whole request from the rule files to the response, in every mode. */
module ShouldRateLimit {
  import opened Prelude
  import opened Limiter
  import opened CacheKeys
  import opened Config
  import opened ConfigHeap
  import opened LimitCall
  import opened Health
  import opened RequestMeaning
  import Service
  import RedisCache

  datatype ServiceError = EmptyRequestDomain | NoDescriptors | NoConfiguration

  datatype Answer = Refused(error: ServiceError) | Answered(response: Service.Response)

  /** What the configuration provider delivers. */
  datatype Delivery = Delivered(config: LoadedConfig) | Rejected(error: LoadError)

  class RateLimitService {
    const cache: RedisCache.FixedCache
    const health: HealthChecker
    const needsConfig: bool
    const prefix: string
    const nearOf: Threshold
    var config: LoadedConfig?
    var globalShadowMode: bool
    /** The names of the response headers, once they are enabled. */
    var headers: Option<HeaderNames>
    /** Answers that the global shadow mode turned. */
    var shadowed: nat
    var loadErrors: nat
    var loadSuccesses: nat

    constructor (
      cache: RedisCache.FixedCache, health: HealthChecker, setup: Setup, prefix: string, nearOf: Threshold)
      ensures this.cache == cache && this.health == health && this.needsConfig == setup.needsConfig
      ensures this.prefix == prefix && this.nearOf == nearOf && config == null
      ensures globalShadowMode == setup.shadowMode && headers == None
      ensures shadowed == loadErrors == loadSuccesses == 0
    {
      this.cache, this.health, this.needsConfig := cache, health, setup.needsConfig;
      this.prefix, this.nearOf := prefix, nearOf;
      config, globalShadowMode, headers := null, setup.shadowMode, None;
      shadowed, loadErrors, loadSuccesses := 0, 0, 0;
    }

    // ------------------------------------------------------------------ reloads

    ghost function Now(): Snapshot
      reads this, health
    {
      Snapshot(if config == null then None else Some(config.loaded), health.components, globalShadowMode, headers)
    }

    /** One load: an error changes its counter and nothing else; a success takes over
        configuration and settings and reports the health of the configuration. */
    method SetConfig(delivery: Delivery, settings: Settings)
      requires health.Valid() && (delivery.Delivered? ==> delivery.config.SameDomains())
      modifies this, health
      ensures health.Valid() && shadowed == old(shadowed)
      ensures var update :=
              if delivery.Delivered? then Loaded(delivery.config.loaded, settings) else Failed(delivery.error);
              Now() == Deliver(old(Now()), update, needsConfig)
      ensures loadErrors == old(loadErrors) + (if delivery.Rejected? then 1 else 0)
      ensures loadSuccesses == old(loadSuccesses) + (if delivery.Delivered? then 1 else 0)
    {
      if delivery.Rejected? {
        loadErrors := loadErrors + 1;
        return;
      }
      SameEmptiness(delivery.config);
      ReportConfig(delivery.config.domains != map[]);
      loadSuccesses := loadSuccesses + 1;
      config := delivery.config;
      globalShadowMode := settings.globalShadowMode;
      if settings.headers.Some? {
        headers := settings.headers;
      }
    }

    /** Reports whether the configuration has a domain, if health depends on it. */
    method ReportConfig(healthy: bool)
      requires health.Valid()
      modifies health
      ensures health.Valid()
      ensures health.components ==
              if needsConfig then Marked(old(health.components), CONFIG, healthy) else old(health.components)
    {
      if needsConfig {
        if healthy {
          var known := health.MarkOk(CONFIG);
        } else {
          var known := health.Fail(CONFIG);
        }
      }
    }

    // ----------------------------------------------------------------- requests

    ghost function BackendNow(perSecond: set<string>): Backend
      reads cache.client, cache.perSecondClient, cache.base
    {
      Backend(cache.View(perSecond), cache.base.local, cache.base.stats)
    }

    ghost function ModeNow(): Mode
      reads this
    {
      Mode(cache.stop, cache.base.cacheEnabled, globalShadowMode, headers)
    }

    /** The limits to check, as the limiter takes them. */
    method LimitsOf(cells: seq<LimitCell?>) returns (limits: seq<Option<Limit>>)
      requires forall i | 0 <= i < |cells| && cells[i] != null :: cells[i].rule.unit.Some?
      ensures |limits| == |cells|
      ensures forall i | 0 <= i < |cells| :: limits[i] == LimitIn(cells[i])
    {
      limits := [];
      for i := 0 to |cells|
        invariant |limits| == i
        invariant forall j | 0 <= j < i :: limits[j] == LimitIn(cells[j])
      {
        if cells[i] == null {
          limits := limits + [None];
        } else {
          var rule := cells[i].rule;
          var quota := Quota(rule.requestsPerUnit, rule.unit.value, rule.name);
          limits := limits + [Some(LimitFields(quota, nearOf(rule.requestsPerUnit), rule.shadowMode,
                                               cells[i].statsKey))];
        }
      }
    }

    ghost function LimitIn(cell: LimitCell?): Option<Limit>
      reads cell
    {
      if cell == null || cell.rule.unit.None? then None
      else
        var rule := cell.rule;
        Some(LimitFields(Quota(rule.requestsPerUnit, rule.unit.value, rule.name), nearOf(rule.requestsPerUnit),
                         rule.shadowMode, cell.statsKey))
    }

    ghost predicate Configured(snapped: LoadedConfig, roots: seq<Root>, merge: bool)
      reads snapped, snapped.cells
    {
      snapped.Valid() && ValidFiles(roots, merge) && snapped.loaded == ConfigOf(roots)
    }

    ghost function Asked(request: Request, now: nat, roots: seq<Root>): Question {
      Question(prefix, nearOf, roots, request, now)
    }

    /** Matches the descriptors; the limits are those that the rule files mean. */
    method Match(request: Request, snapped: LoadedConfig, ghost now: nat, ghost roots: seq<Root>, ghost merge: bool)
      returns (limits: seq<Option<Limit>>, unlimited: seq<bool>)
      requires Configured(snapped, roots, merge) && KnownUnits(request)
      modifies snapped`notFound, snapped.cells`statsKey
      ensures snapped.Valid()
      ensures limits == Limits(Asked(request, now, roots))
      ensures |unlimited| == |request.descriptors|
      ensures forall i | 0 <= i < |unlimited| :: unlimited[i] == Service.Unlimited(Meanings(roots, request)[i])
    {
      ghost var q := Asked(request, now, roots);
      RulesAreMeanings(roots, merge, request);
      var cells;
      cells, unlimited := Service.ConstructLimitsToCheck(snapped, request.domain, request.descriptors);
      limits := LimitsOf(cells);
      forall i | 0 <= i < |cells| ensures limits[i] == LimitAt(q, i) {
        assert limits[i] == LimitIn(cells[i]);
      }
    }

    /** Matches the descriptors and makes the lookups that the rule files mean. */
    method Prepare(request: Request, snapped: LoadedConfig, now: nat, ghost roots: seq<Root>, ghost merge: bool)
      returns (lookups: seq<Lookup>, unlimited: seq<bool>)
      requires Configured(snapped, roots, merge) && KnownUnits(request)
      modifies cache.base`stats, snapped`notFound, snapped.cells`statsKey
      ensures snapped.Valid()
      ensures lookups == Lookups(Asked(request, now, roots))
      ensures cache.base.stats ==
              TotalsAfter(old(cache.base.stats), Limits(Asked(request, now, roots)), HitsOf(request))
      ensures |unlimited| == |lookups|
      ensures forall i | 0 <= i < |unlimited| :: unlimited[i] == Service.Unlimited(Meanings(roots, request)[i])
    {
      var limits;
      limits, unlimited := Match(request, snapped, now, roots, merge);
      var entries := seq(|request.descriptors|,
                         i requires 0 <= i < |request.descriptors| => request.descriptors[i].entries);
      lookups := GenerateCacheKeys(cache.base, prefix, request.domain, entries, limits, HitsOf(request), now);
    }

    /** The lookups through the limiter. */
    method Limit(
      lookups: seq<Lookup>, hits: uint32, jitters: seq<nat>, now: nat, ghost c: Scene, ghost perSecond: set<string>)
      returns (statuses: seq<Status>)
      requires c.lookups == lookups && c.hits == hits
      requires cache.client != cache.perSecondClient && RedisCache.Separated(cache.split, c.lookups, perSecond)
      requires |jitters| == |c.lookups| && Roomy(c)
      requires forall i | 0 <= i < |c.lookups| :: c.lookups[i].Look? ==> c.lookups[i].key != ""
      requires c.stores == cache.View(perSecond) && c.known == Known(cache.base) && c.stop == cache.stop
      modifies cache.client, cache.perSecondClient, cache.base`stats, cache.base`local
      ensures |statuses| == |c.lookups|
      ensures forall i | 0 <= i < |c.lookups| :: statuses[i] == StatusFor(c, i, now)
      ensures forall key :: RedisCache.CountIn(cache.View(perSecond), key) ==
                RedisCache.CountIn(c.stores, key) + Given(c, key, |c.lookups|)
      ensures cache.base.local == old(cache.base.local) + if cache.base.cacheEnabled then NewlyOver(c) else {}
      ensures cache.base.stats == Tallied(old(cache.base.stats), c, |c.lookups|)
    {
      RoomyFits(c);
      statuses := cache.DoLimit(lookups, hits, jitters, now, perSecond);
      ghost var n, after: seq<uint32> := |c.lookups|, AftersOf(c);
      forall i | 0 <= i < n ensures statuses[i] == StatusFor(c, i, now) {
        VerdictIsMeant(c, after, now, i);
      }
      forall key
        ensures RedisCache.CountIn(cache.View(perSecond), key) == RedisCache.CountIn(c.stores, key) + Given(c, key, n)
      {
        AddedIsGiven(c, key, n);
      }
      CachedAreNewlyOver(c, after);
      StatsAreTallied(c, after, old(cache.base.stats));
    }

    /** The statuses become one response. */
    method Conclude(statuses: seq<Status>, unlimited: seq<bool>, now: nat, ghost q: Question, ghost c: Scene)
      returns (response: Service.Response)
      requires |statuses| == |unlimited| == |c.lookups| == |q.request.descriptors| && q.now == now
      requires forall i | 0 <= i < |statuses| :: statuses[i] == StatusFor(c, i, now)
      requires forall i | 0 <= i < |statuses| :: unlimited[i] == Service.Unlimited(Meanings(q.roots, q.request)[i])
      requires forall i | 0 <= i < |statuses| && unlimited[i] :: c.lookups[i].Skip?
      modifies this`shadowed
      ensures Answers(q, ModeNow(), c, response, shadowed - old(shadowed))
    {
      StatusesDecide(c, statuses, unlimited, now);
      var chosen, overridden;
      response, chosen, overridden := Service.Respond(statuses, unlimited, headers, globalShadowMode, now);
      if overridden {
        shadowed := shadowed + 1;
      }
      if headers.Some? {
        ChoiceIgnoresUnlimited(statuses, unlimited, response.statuses, chosen);
        if chosen.Some? {
          assert Describes(response, headers.value, now, chosen.value);
        }
      }
    }

    /** The prepared lookups are limited and answered. */
    method Serve(
      lookups: seq<Lookup>, unlimited: seq<bool>, hits: uint32, jitters: seq<nat>, now: nat,
      ghost q: Question, ghost c: Scene, ghost perSecond: set<string>)
      returns (response: Service.Response)
      requires cache.client != cache.perSecondClient && RedisCache.Separated(cache.split, lookups, perSecond)
      requires q.now == now && lookups == Lookups(q) && hits == HitsOf(q.request)
      requires |jitters| == |unlimited| == |lookups|
      requires forall i | 0 <= i < |unlimited| :: unlimited[i] == Service.Unlimited(Meanings(q.roots, q.request)[i])
      requires c == SceneOf(q, ModeNow(), BackendNow(perSecond)) && Roomy(c)
      modifies this`shadowed, cache.client, cache.perSecondClient, cache.base`stats, cache.base`local
      ensures Answers(q, ModeNow(), c, response, shadowed - old(shadowed))
      ensures ChangesFrom(old(BackendNow(perSecond)), ModeNow(), c, BackendNow(perSecond))
    {
      LookupsHaveKeys(q);
      UnlimitedIsUnchecked(q);
      var statuses := Limit(lookups, hits, jitters, now, c, perSecond);
      response := Conclude(statuses, unlimited, now, q, c);
    }

    /** A request can be served: units and stores are as assumed, and no counter that it
        charges reaches 2^32. */
    ghost predicate CanServe(request: Request, jitters: seq<nat>, now: nat, roots: seq<Root>, perSecond: set<string>)
      reads this, cache.client, cache.perSecondClient, cache.base
    {
      var q := Asked(request, now, roots);
      && cache.client != cache.perSecondClient && |jitters| == |request.descriptors| && KnownUnits(request)
      && RedisCache.Separated(cache.split, Lookups(q), perSecond)
      && Roomy(SceneOf(q, ModeNow(), BackendNow(perSecond)))
    }

    /** A request against a loaded configuration. */
    method Examine(
      request: Request, snapped: LoadedConfig, jitters: seq<nat>, now: nat,
      ghost roots: seq<Root>, ghost merge: bool, ghost perSecond: set<string>)
      returns (response: Service.Response)
      requires Configured(snapped, roots, merge) && CanServe(request, jitters, now, roots, perSecond)
      modifies this`shadowed, cache.client, cache.perSecondClient, cache.base`stats, cache.base`local
      modifies snapped`notFound, snapped.cells`statsKey
      ensures snapped.Valid()
      ensures Serves(Asked(request, now, roots), ModeNow(), old(BackendNow(perSecond)), BackendNow(perSecond),
                     response, shadowed - old(shadowed))
    {
      ghost var q := Asked(request, now, roots);
      ghost var c := SceneOf(q, ModeNow(), BackendNow(perSecond));
      var lookups, unlimited := Prepare(request, snapped, now, roots, merge);
      ghost var prepared := BackendNow(perSecond);
      label Prepared:
      response := Serve(lookups, unlimited, HitsOf(request), jitters, now, q, c, perSecond);
      assert unchanged@Prepared(snapped.cells);
      ServesFrom(q, ModeNow(), old(BackendNow(perSecond)), prepared, BackendNow(perSecond), response,
                 shadowed - old(shadowed));
    }

    /** `shouldRateLimitWorker`: a request without domain or descriptors, or before any
        configuration is loaded, is refused and changes nothing; any other is served. */
    method Worker(
      request: Request, jitters: seq<nat>, now: nat, ghost roots: seq<Root>, ghost merge: bool,
      ghost perSecond: set<string>)
      returns (answer: Answer)
      requires config != null ==> Configured(config, roots, merge) && CanServe(request, jitters, now, roots, perSecond)
      modifies this`shadowed, cache.client, cache.perSecondClient, cache.base`stats, cache.base`local
      modifies (if config == null then {} else {config})`notFound,
               (if config == null then {} else config.cells)`statsKey
      ensures config != null ==> config.Valid()
      ensures answer.Refused? <==> request.domain == "" || request.descriptors == [] || config == null
      ensures answer.Refused? ==>
                && answer.error == (if request.domain == "" then EmptyRequestDomain
                                    else if request.descriptors == [] then NoDescriptors else NoConfiguration)
                && BackendNow(perSecond) == old(BackendNow(perSecond)) && shadowed == old(shadowed)
      ensures answer.Answered? ==>
                Serves(Asked(request, now, roots), ModeNow(), old(BackendNow(perSecond)), BackendNow(perSecond),
                       answer.response, shadowed - old(shadowed))
    {
      if request.domain == "" {
        return Refused(EmptyRequestDomain);
      }
      if request.descriptors == [] {
        return Refused(NoDescriptors);
      }
      if config == null {
        return Refused(NoConfiguration);
      }
      var response := Examine(request, config, jitters, now, roots, merge, perSecond);
      answer := Answered(response);
    }
  }

  lemma SameEmptiness(config: LoadedConfig)
    requires config.SameDomains()
    ensures config.domains == map[] <==> config.loaded == map[]
  {
  }
}
