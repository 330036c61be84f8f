/** Under which stats key each descriptor of a request is counted. A detailed limit of
    a rule with children is one object for all descriptors that match it, and every
    lookup rewrites its handle (`src/config/config_impl.go`); this module says whose
    spelling remains. */
module StatsHandles {
  import opened Prelude
  import opened Limiter
  import opened CacheKeys
  import opened Config
  import opened ConfigLookup
  import opened ConfigHeap

  /** The rule that a descriptor matches. */
  function RuleFor(loaded: Domains, domain: string, d: Descriptor): Option<Rule> {
    if domain !in loaded then None
    else if d.limit.Some? then Some(OverrideRule(domain, d))
    else Lookup(loaded[domain], d.entries)
  }

  /** The descriptor gets the shared object of a detailed rule with children. */
  predicate Shares(loaded: Domains, domain: string, d: Descriptor) {
    && domain in loaded && d.limit.None? && Lookup(loaded[domain], d.entries).Some?
    && Lookup(loaded[domain], d.entries).value.detailedMetric && !EndsAtLeaf(loaded[domain], d.entries)
  }

  /** Both descriptors match the same rule of the configuration. */
  predicate SameRule(loaded: Domains, domain: string, a: Descriptor, b: Descriptor) {
    && domain in loaded && a.limit.None? && b.limit.None?
    && PathOf(loaded[domain], a.entries).Some?
    && PathOf(loaded[domain], a.entries) == PathOf(loaded[domain], b.entries)
  }

  lemma SameRuleSharesAlike(loaded: Domains, domain: string, a: Descriptor, b: Descriptor)
    requires SameRule(loaded, domain, a, b)
    ensures Shares(loaded, domain, a) <==> Shares(loaded, domain, b)
  {
    WalkFollowsPath(loaded[domain], a.entries);
    WalkFollowsPath(loaded[domain], b.entries);
  }

  lemma SharingHasPath(loaded: Domains, domain: string, d: Descriptor)
    requires Shares(loaded, domain, d)
    ensures SameRule(loaded, domain, d, d)
  {
    WalkFollowsPath(loaded[domain], d.entries);
  }

  /** The last of the first `n` descriptors that matches the rule of descriptor `i`. */
  function LastSame(loaded: Domains, domain: string, ds: seq<Descriptor>, i: nat, n: nat): (k: nat)
    requires i < n <= |ds| && Shares(loaded, domain, ds[i])
    ensures i <= k < n && SameRule(loaded, domain, ds[k], ds[i])
    ensures forall j | k < j < n :: !SameRule(loaded, domain, ds[j], ds[i])
  {
    SharingHasPath(loaded, domain, ds[i]);
    if SameRule(loaded, domain, ds[n - 1], ds[i]) then n - 1 else LastSame(loaded, domain, ds, i, n - 1)
  }

  /** The stats key that descriptor `i` is counted under when the first `n` have been
      looked up: its own, unless it shares an object that a later lookup rewrote; none
      without a rule. */
  function Handle(loaded: Domains, domain: string, ds: seq<Descriptor>, i: nat, n: nat): string
    requires i < n <= |ds|
  {
    if Shares(loaded, domain, ds[i]) then DetailedKey(domain, ds[LastSame(loaded, domain, ds, i, n)].entries)
    else if RuleFor(loaded, domain, ds[i]).None? then ""
    else OwnHandle(domain, ds[i].entries, RuleFor(loaded, domain, ds[i]).value)
  }

  lemma HandleSnoc(loaded: Domains, domain: string, ds: seq<Descriptor>, i: nat, n: nat)
    requires i < n < |ds| && RuleFor(loaded, domain, ds[i]).Some?
    ensures Handle(loaded, domain, ds, i, n + 1) ==
            if Shares(loaded, domain, ds[i]) && SameRule(loaded, domain, ds[n], ds[i])
            then DetailedKey(domain, ds[n].entries) else Handle(loaded, domain, ds, i, n)
  {
  }

  /** A descriptor is counted under its own spelling exactly when it does not share its
      limit, or the last descriptor that matches its rule is spelled alike. */
  lemma OwnSpellingExactly(loaded: Domains, domain: string, ds: seq<Descriptor>, i: nat)
    requires i < |ds| && RuleFor(loaded, domain, ds[i]).Some?
    ensures Handle(loaded, domain, ds, i, |ds|) ==
            OwnHandle(domain, ds[i].entries, RuleFor(loaded, domain, ds[i]).value) <==>
            (Shares(loaded, domain, ds[i]) ==>
               exists k | i <= k < |ds| ::
                 && SameRule(loaded, domain, ds[k], ds[i])
                 && (forall j | k < j < |ds| :: !SameRule(loaded, domain, ds[j], ds[i]))
                 && DetailedKey(domain, ds[k].entries) == DetailedKey(domain, ds[i].entries))
  {
    if Shares(loaded, domain, ds[i]) {
      var last := LastSame(loaded, domain, ds, i, |ds|);
      assert forall k | i <= k < |ds| && SameRule(loaded, domain, ds[k], ds[i]) &&
                        (forall j | k < j < |ds| :: !SameRule(loaded, domain, ds[j], ds[i])) :: k == last;
    }
  }

  /** In particular when no later descriptor that matches its rule is spelled otherwise. */
  lemma OwnSpellingWithoutRivals(loaded: Domains, domain: string, ds: seq<Descriptor>, i: nat)
    requires i < |ds| && RuleFor(loaded, domain, ds[i]).Some?
    requires forall j | i < j < |ds| && SameRule(loaded, domain, ds[j], ds[i]) ::
               DetailedKey(domain, ds[j].entries) == DetailedKey(domain, ds[i].entries)
    ensures Handle(loaded, domain, ds, i, |ds|) ==
            OwnHandle(domain, ds[i].entries, RuleFor(loaded, domain, ds[i]).value)
  {
  }

  // -------------------------------------------------------------- the heap

  /** What a lookup returned for a descriptor: the shared object where it shares one,
      else an object that no lookup redirects. */
  ghost predicate Carries(config: LoadedConfig, domain: string, d: Descriptor, cell: LimitCell)
    reads config, cell
  {
    if Shares(config.loaded, domain, d)
    then cell in config.cells && domain in config.domains && Lookup(config.domains[domain], d.entries) == Some(cell)
    else cell !in config.cells || !cell.rule.detailedMetric
  }

  /** A lookup rewrites the handle of an object that an earlier one returned exactly
      when both match the same rule. */
  lemma RewritesExactly(config: LoadedConfig, domain: string, a: Descriptor, b: Descriptor, cell: LimitCell)
    requires config.Valid() && Shares(config.loaded, domain, b) && Carries(config, domain, b, cell)
    ensures Shares(config.loaded, domain, a) && Lookup(config.domains[domain], a.entries) == Some(cell) <==>
            SameRule(config.loaded, domain, a, b)
  {
    SharingHasPath(config.loaded, domain, b);
    if Shares(config.loaded, domain, a) {
      config.FoundAlike(domain, a.entries);
      config.SameCell(domain, a.entries, b.entries);
    } else if SameRule(config.loaded, domain, a, b) {
      SameRuleSharesAlike(config.loaded, domain, a, b);
    }
  }

  // ------------------------------------------------------------ a redirection

  /** One rule with detailed metrics for key `a`, and a rule below it. */
  function DetailedRules(): seq<Yaml> {
    var below := Yaml("b", "", None, [], false, false);
    [Yaml("a", "", Some(YamlRateLimit(1, "MINUTE", false, "", [])), [below], false, true)]
  }

  function Ask(value: string): Descriptor { Descriptor([Entry("a", value)], None) }

  lemma DetailedRulesAreValid()
    ensures ValidList(DetailedRules())
  {
    var list := DetailedRules();
    assert Upper("MINUTE") == "MINUTE";
    assert ValidList(list[0].descriptors);
    assert ValidDescriptor(list[0]);
  }

  lemma ValueIsNoKey(value: string)
    ensures ValueKey(Entry("a", value)) != "a" && Pick(DetailedRules(), Entry("a", value)) == Some(DetailedRules()[0])
  {
    var list, text := DetailedRules(), ValueKey(Entry("a", value));
    assert |text| >= 2;
    assert Final(list[0]) == "a" && !IsWildcard("a");
    assert list[..0] == [];
    assert FindKey(list, text).None? && FindWildcard(list, text).None? && FindKey(list, "a") == Some(list[0]);
  }

  /** Two descriptors of one request can share a limit: the second lookup redirects the
      statistics of the first, so that both are counted under the second spelling. */
  lemma LaterDescriptorRedirects(domain: string, x: string, y: string)
    requires domain != ""
    ensures var roots, ds := [Root(domain, DetailedRules())], [Ask(x), Ask(y)];
            && ValidFiles(roots, false)
            && RuleFor(ConfigOf(roots), domain, ds[0]).Some?
            && Handle(ConfigOf(roots), domain, ds, 0, 2) == DetailedKey(domain, [Entry("a", y)])
            && (DetailedKey(domain, [Entry("a", y)]) == DetailedKey(domain, [Entry("a", x)]) <==> x == y)
  {
    var root := Root(domain, DetailedRules());
    DetailedRulesAreValid();
    RedirectTree(domain);
    AskShares(domain, x);
    AskShares(domain, y);
    SpellingsDiffer(domain, x, y);
  }

  lemma RedirectTree(domain: string)
    requires domain != ""
    ensures var roots := [Root(domain, DetailedRules())];
            && ValidFiles(roots, false)
            && domain in ConfigOf(roots) && ConfigOf(roots)[domain] == TreeOf(None, domain + ".", DetailedRules())
  {
    var root := Root(domain, DetailedRules());
    DetailedRulesAreValid();
    assert [] + [root] == [root];
    forall other ensures RulesOf([root], other) == if other == domain then DetailedRules() else [] {
      RulesOfSnoc([], root, other);
      assert [] + DetailedRules() == DetailedRules();
    }
    assert ValidList([]);
    assert root in [root];
  }

  /** The way of such a descriptor through the tree: the key alone. */
  lemma AskKey(parentKey: string, x: string)
    ensures NextKey(TreeOf(None, parentKey, DetailedRules()), Entry("a", x)) == Some("a")
  {
    var list, e := DetailedRules(), Entry("a", x);
    ValueIsNoKey(x);
    assert Final(list[0]) == "a";
    ChildKeys(parentKey, list, ValueKey(e));
    ChildKeys(parentKey, list, "a");
    WildcardIsFound(list, ValueKey(e));
  }

  lemma AskFinds(parentKey: string, x: string)
    ensures var tree, d := TreeOf(None, parentKey, DetailedRules()), DetailedRules()[0];
            Walk(tree, Ask(x).entries) == Some(SubtreeOf(parentKey, d)) && SubtreeOf(parentKey, d).descriptors != map[]
  {
    var list := DetailedRules();
    DetailedRulesAreValid();
    ValueIsNoKey(x);
    NextIsPick(parentKey, list, None, Entry("a", x));
    NoChildrenNoRules(parentKey + Final(list[0]) + ".", list[0].descriptors);
  }

  lemma AskShares(domain: string, x: string)
    requires domain != ""
    ensures var loaded := ConfigOf([Root(domain, DetailedRules())]);
            && Shares(loaded, domain, Ask(x)) && PathOf(loaded[domain], Ask(x).entries) == Some(["a"])
  {
    RedirectTree(domain);
    AskKey(domain + ".", x);
    AskFinds(domain + ".", x);
  }

  lemma SpellingOf(domain: string, x: string)
    ensures DetailedKey(domain, [Entry("a", x)]) == domain + ".a_" + x
  {
    var entries := [Entry("a", x)];
    assert entries[..0] == [];
    assert DetailedKey(domain, entries) == DetailedKey(domain, entries[..0]) + "." + ValueKey(entries[0]);
    assert DetailedKey(domain, []) == domain;
    assert domain + "." + ("a" + "_" + x) == domain + ".a_" + x;
  }

  lemma SpellingsDiffer(domain: string, x: string, y: string)
    ensures DetailedKey(domain, [Entry("a", y)]) == DetailedKey(domain, [Entry("a", x)]) <==> x == y
  {
    SpellingOf(domain, x);
    SpellingOf(domain, y);
    var head := domain + ".a_";
    assert (head + x)[|head|..] == x && (head + y)[|head|..] == y;
  }
}
