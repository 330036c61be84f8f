/** Health and configuration reloads over whole runs: `src/server/health.go` and
    `SetConfig` of `src/service/ratelimit.go`. */
module Health {
  import opened Prelude
  import opened Config

  const CONFIG := "config"
  const REDIS := "redis"
  const SIGTERM := "sigterm"

  predicate AllHealthy(components: map<string, bool>) {
    forall c | c in components :: components[c]
  }

  method AreAllComponentsHealthy(components: map<string, bool>) returns (all: bool)
    ensures all <==> AllHealthy(components)
  {
    all := true;
    var rest := components.Keys;
    while rest != {}
      invariant rest <= components.Keys
      invariant all && forall c | c in components.Keys - rest :: components[c]
      decreases |rest|
    {
      var c :| c in rest;
      if !components[c] {
        all := false;
        break;
      }
      rest := rest - {c};
    }
  }

  function InitialComponents(needsConfig: bool): map<string, bool> {
    var base := map[REDIS := true, SIGTERM := true];
    if needsConfig then base[CONFIG := false] else base
  }

  /** The component map, the flag that HTTP serves, and the gRPC serving status. */
  class HealthChecker {
    var components: map<string, bool>
    var ok: bool
    var serving: bool

    /** The flag and the gRPC status tell whether all components are healthy. */
    ghost predicate Valid()
      reads this
    {
      ok == serving == AllHealthy(components)
    }

    constructor (needsConfig: bool)
      ensures Valid() && components == InitialComponents(needsConfig)
    {
      components := InitialComponents(needsConfig);
      new;
      var all := AreAllComponentsHealthy(components);
      if all {
        serving := true;
        ok := true;
      } else {
        serving := false;
        ok := false;
      }
    }

    method Fail(component: string) returns (known: bool)
      requires Valid()
      modifies this
      ensures Valid()
      ensures known <==> component in old(components)
      ensures components == Marked(old(components), component, false)
    {
      known := component in components;
      if known {
        components := components[component := false];
        ok := false;
        serving := false;
        assert !components[component];
      }
    }

    method MarkOk(component: string) returns (known: bool)
      requires Valid()
      modifies this
      ensures Valid()
      ensures known <==> component in old(components)
      ensures components == Marked(old(components), component, true)
    {
      known := component in components;
      if known {
        ghost var before := components;
        components := components[component := true];
        var all := AreAllComponentsHealthy(components);
        if all {
          ok := true;
          serving := true;
        } else {
          assert exists c | c in before :: !before[c] by {
            var c :| c in components && !components[c];
            assert c in before && !before[c];
          }
        }
      }
    }
  }

  /** The effect of a report on a component; unknown components are refused. */
  function Marked(components: map<string, bool>, component: string, healthy: bool): map<string, bool> {
    if component in components then components[component := healthy] else components
  }

  // ------------------------------------------------------------------- reloads

  datatype HeaderNames = HeaderNames(limit: string, remaining: string, reset: string)

  /** The settings that every successful load reads again; no names when response
      headers are not enabled. */
  datatype Settings = Settings(globalShadowMode: bool, headers: Option<HeaderNames>)

  /** What a load brings: a configuration and settings, or an error. */
  datatype Update = Loaded(config: Domains, settings: Settings) | Failed(error: LoadError)

  /** The part of the service that reloads change. */
  datatype Snapshot = Snapshot(
    config: Option<Domains>, components: map<string, bool>, globalShadowMode: bool, headers: Option<HeaderNames>)

  /** How the service is started. */
  datatype Setup = Setup(needsConfig: bool, shadowMode: bool)

  /** The effect of one load. Response headers can be enabled and renamed, not disabled. */
  function Deliver(s: Snapshot, update: Update, needsConfig: bool): Snapshot {
    if update.Failed? then s
    else Snapshot(
      Some(update.config),
      if needsConfig then Marked(s.components, CONFIG, update.config != map[]) else s.components,
      update.settings.globalShadowMode,
      if update.settings.headers.Some? then update.settings.headers else s.headers)
  }

  // ---------------------------------------------------------------- whole runs

  /** Updates, SIGTERM, and reports about other components. */
  datatype Event = Receive(update: Update) | Terminate | Report(component: string, healthy: bool)

  function Apply(s: Snapshot, e: Event, needsConfig: bool): Snapshot {
    match e
    case Receive(update) => Deliver(s, update, needsConfig)
    case Terminate => s.(components := Marked(s.components, SIGTERM, false))
    case Report(component, healthy) => s.(components := Marked(s.components, component, healthy))
  }

  function Run(es: seq<Event>, setup: Setup): Snapshot {
    if es == [] then Snapshot(None, InitialComponents(setup.needsConfig), setup.shadowMode, None)
    else Apply(Run(es[..|es| - 1], setup), es[|es| - 1], setup.needsConfig)
  }

  predicate IsLoad(e: Event) { e.Receive? && e.update.Loaded? }

  /** The last successful load. */
  function LastLoaded(es: seq<Event>): (r: Option<Update>)
    ensures r.Some? ==> r.value.Loaded?
  {
    if es == [] then None
    else if IsLoad(es[|es| - 1]) then Some(es[|es| - 1].update) else LastLoaded(es[..|es| - 1])
  }

  /** The header names of the last successful load that enabled headers. */
  function LastHeaders(es: seq<Event>): Option<HeaderNames> {
    if es == [] then None
    else
      var e := es[|es| - 1];
      if IsLoad(e) && e.update.settings.headers.Some? then e.update.settings.headers else LastHeaders(es[..|es| - 1])
  }

  /** No report concerns the config component; the source reports it only on reloads. */
  predicate ConfigOnlyByReloads(es: seq<Event>) {
    forall e | e in es :: !(e.Report? && e.component == CONFIG)
  }

  /** In every run the service holds the configuration and the shadow mode of the last
      successful load, failed loads changing nothing, and the header names of the last
      one that enabled headers; with the config check enabled the config component is
      healthy exactly when the configuration has a domain. */
  lemma {:induction false} ReloadsOverRuns(es: seq<Event>, setup: Setup)
    requires ConfigOnlyByReloads(es)
    ensures var s, last := Run(es, setup), LastLoaded(es);
            && s.config == (if last.Some? then Some(last.value.config) else None)
            && s.globalShadowMode == (if last.Some? then last.value.settings.globalShadowMode else setup.shadowMode)
            && s.headers == LastHeaders(es)
            && (if setup.needsConfig
                then CONFIG in s.components && (s.components[CONFIG] <==> last.Some? && last.value.config != map[])
                else CONFIG !in s.components)
  {
    if es != [] {
      var n := |es| - 1;
      assert es[n] in es;
      assert forall e | e in es[..n] :: e in es;
      ReloadsOverRuns(es[..n], setup);
    }
  }

  /** Once headers are enabled, they stay enabled. */
  lemma {:induction false} HeadersStayEnabled(es: seq<Event>, later: seq<Event>, setup: Setup)
    requires Run(es, setup).headers.Some?
    ensures Run(es + later, setup).headers.Some?
    decreases |later|
  {
    if later == [] {
      assert es + later == es;
    } else {
      var n := |later| - 1;
      assert (es + later)[..|es + later| - 1] == es + later[..n];
      HeadersStayEnabled(es, later[..n], setup);
    }
  }

  /** A new service is healthy exactly when it need not wait for a configuration. */
  lemma NewServiceIsHealthy(setup: Setup)
    ensures AllHealthy(Run([], setup).components) <==> !setup.needsConfig
    ensures REDIS in Run([], setup).components && SIGTERM in Run([], setup).components
  {
    if setup.needsConfig {
      assert !Run([], setup).components[CONFIG];
    }
  }

  /** A report on a known component is what that component then says; the others keep
      what they said, and an unknown component is ignored. */
  lemma ReportsAreKept(es: seq<Event>, component: string, healthy: bool, other: string, setup: Setup)
    ensures var before, after := Run(es, setup).components, Run(es + [Report(component, healthy)], setup).components;
            && after.Keys == before.Keys
            && (component in before ==> after[component] == healthy)
            && (other in before && other != component ==> after[other] == before[other])
  {
    var longer := es + [Report(component, healthy)];
    assert longer[..|longer| - 1] == es;
  }

  lemma {:induction false} ComponentsStay(es: seq<Event>, setup: Setup)
    ensures Run(es, setup).components.Keys == InitialComponents(setup.needsConfig).Keys
  {
    if es != [] {
      ComponentsStay(es[..|es| - 1], setup);
    }
  }

  /** Once SIGTERM is recorded and never re-marked healthy, no later event makes the
      service healthy again. */
  lemma {:induction false} TerminatedForEver(before: seq<Event>, later: seq<Event>, setup: Setup)
    requires forall e | e in later :: !(e.Report? && e.component == SIGTERM && e.healthy)
    ensures var c := Run(before + [Terminate] + later, setup).components;
            SIGTERM in c && !c[SIGTERM] && !AllHealthy(c)
    decreases |later|
  {
    var es := before + [Terminate] + later;
    ComponentsStay(es, setup);
    if later == [] {
      assert es == before + [Terminate];
      assert es[..|es| - 1] == before;
      ComponentsStay(before, setup);
    } else {
      var n := |later| - 1;
      assert es[..|es| - 1] == before + [Terminate] + later[..n];
      assert es[|es| - 1] == later[n] && later[n] in later;
      assert forall e | e in later[..n] :: e in later;
      TerminatedForEver(before, later[..n], setup);
    }
    assert !Run(es, setup).components[SIGTERM];
  }
}
