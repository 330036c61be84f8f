/** Loading rate limit configurations: `src/config/config_impl.go`. The nested rule
    lists of the files become a tree of maps; this module shows which lists are
    accepted and which tree they give. */
module Config {
  import opened Prelude
  import opened Limiter

  datatype YamlRateLimit = YamlRateLimit(
    requestsPerUnit: uint32, unit: string, unlimited: bool, name: string, replaced: seq<string>)

  datatype Yaml = Yaml(
    key: string, value: string, rateLimit: Option<YamlRateLimit>, descriptors: seq<Yaml>,
    shadowMode: bool, detailedMetric: bool)

  /** One parsed file. */
  datatype Root = Root(domain: string, descriptors: seq<Yaml>)

  /** A loaded limit. An unlimited rule has no unit. */
  datatype Rule = Rule(
    fullKey: string, requestsPerUnit: uint32, unit: Option<Unit>, unlimited: bool, shadowMode: bool,
    name: string, replaced: seq<string>, detailedMetric: bool)

  datatype Node<+L> = Node(descriptors: map<string, Node<L>>, limit: Option<L>, wildcardKeys: seq<string>)

  datatype LoadError =
    | EmptyKey | DuplicateKey(fullKey: string) | UnitWhenUnlimited | InvalidUnit
    | EmptyReplaces | SelfReplaces | EmptyDomain | DuplicateDomain(domain: string)

  datatype Result<+T> = Ok(value: T) | Err(error: LoadError)

  function UpperChar(c: char): char {
    if 'a' <= c <= 'z' then (c as int - 32) as char else c
  }

  function Upper(s: string): string {
    seq(|s|, i requires 0 <= i < |s| => UpperChar(s[i]))
  }

  /** The unit that a rule names, in any letter case. */
  function ParseUnit(text: string): Option<Unit> {
    var name := Upper(text);
    if name == "SECOND" then Some(Second)
    else if name == "MINUTE" then Some(Minute)
    else if name == "HOUR" then Some(Hour)
    else if name == "DAY" then Some(Day)
    else None
  }

  /** The composite key of a rule among its siblings. */
  function Final(d: Yaml): string { if d.value != "" then d.key + "_" + d.value else d.key }

  predicate IsWildcard(key: string) { key != "" && key[|key| - 1] == '*' }

  function RuleOf(parentKey: string, d: Yaml): Option<Rule> {
    if d.rateLimit.None? then None
    else
      var rl := d.rateLimit.value;
      Some(Rule(parentKey + Final(d), rl.requestsPerUnit, ParseUnit(rl.unit), rl.unlimited, d.shadowMode,
                rl.name, rl.replaced, d.detailedMetric))
  }

  // ------------------------------------------------------------------ loading

  function ReplacesError(replaced: seq<string>, name: string): Option<LoadError> {
    if replaced == [] then None
    else if replaced[0] == "" then Some(EmptyReplaces)
    else if replaced[0] == name then Some(SelfReplaces)
    else ReplacesError(replaced[1..], name)
  }

  function LimitError(rl: YamlRateLimit): Option<LoadError> {
    if rl.unlimited && ParseUnit(rl.unit).Some? then Some(UnitWhenUnlimited)
    else if !rl.unlimited && ParseUnit(rl.unit).None? then Some(InvalidUnit)
    else ReplacesError(rl.replaced, rl.name)
  }

  function AddChild(node: Node<Rule>, key: string, child: Node<Rule>): Node<Rule> {
    Node(node.descriptors[key := child], node.limit, node.wildcardKeys + if IsWildcard(key) then [key] else [])
  }

  /** What one round of the loop in `loadDescriptors` does. */
  function LoadOne(node: Node<Rule>, parentKey: string, d: Yaml): Result<Node<Rule>>
    decreases d, 1
  {
    var fullKey := parentKey + Final(d);
    if d.key == "" then Err(EmptyKey)
    else if Final(d) in node.descriptors then Err(DuplicateKey(fullKey))
    else if d.rateLimit.Some? && LimitError(d.rateLimit.value).Some? then Err(LimitError(d.rateLimit.value).value)
    else
      match LoadAll(Node(map[], RuleOf(parentKey, d), []), fullKey + ".", d.descriptors)
      case Err(error) => Err(error)
      case Ok(child) => Ok(AddChild(node, Final(d), child))
  }

  function LoadAll(node: Node<Rule>, parentKey: string, list: seq<Yaml>): Result<Node<Rule>>
    decreases list, 0
  {
    if list == [] then Ok(node)
    else
      match LoadOne(node, parentKey, list[0])
      case Err(error) => Err(error)
      case Ok(next) => LoadAll(next, parentKey, list[1..])
  }

  method CheckReplaces(replaced: seq<string>, name: string) returns (error: Option<LoadError>)
    ensures error == ReplacesError(replaced, name)
  {
    for i := 0 to |replaced|
      invariant ReplacesError(replaced, name) == ReplacesError(replaced[i..], name)
    {
      if replaced[i] == "" {
        return Some(EmptyReplaces);
      }
      if replaced[i] == name {
        return Some(SelfReplaces);
      }
    }
    error := None;
  }

  /** `loadDescriptors`: adds a list of rules below `start`, children first. */
  method LoadDescriptors(start: Node<Rule>, parentKey: string, list: seq<Yaml>) returns (r: Result<Node<Rule>>)
    ensures r == LoadAll(start, parentKey, list)
    decreases list
  {
    var node := start;
    for i := 0 to |list|
      invariant LoadAll(start, parentKey, list) == LoadAll(node, parentKey, list[i..])
    {
      var d := list[i];
      assert list[i..][0] == d && list[i..][1..] == list[i + 1..];
      if d.key == "" {
        return Err(EmptyKey);
      }
      var finalKey := d.key;
      if d.value != "" {
        finalKey := finalKey + "_" + d.value;
      }
      assert finalKey == d.key || finalKey == d.key + ("_" + d.value);
      assert finalKey == Final(d);
      var newParentKey := parentKey + finalKey;
      if finalKey in node.descriptors {
        return Err(DuplicateKey(newParentKey));
      }
      var rateLimit: Option<Rule> := None;
      if d.rateLimit.Some? {
        var rl := d.rateLimit.value;
        var unit := ParseUnit(rl.unit);
        if rl.unlimited {
          if unit.Some? {
            return Err(UnitWhenUnlimited);
          }
        } else if unit.None? {
          return Err(InvalidUnit);
        }
        rateLimit := Some(Rule(newParentKey, rl.requestsPerUnit, unit, rl.unlimited, d.shadowMode,
                               rl.name, rl.replaced, d.detailedMetric));
        var error := CheckReplaces(rl.replaced, rl.name);
        if error.Some? {
          return Err(error.value);
        }
      }
      var child := LoadDescriptors(Node(map[], rateLimit, []), newParentKey + ".", d.descriptors);
      if child.Err? {
        return Err(child.error);
      }
      node := AddChild(node, finalKey, child.value);
    }
    r := Ok(node);
  }

  // ----------------------------------------------- which lists, which tree

  predicate ValidLimit(rl: YamlRateLimit) {
    && (rl.unlimited <==> ParseUnit(rl.unit).None?)
    && "" !in rl.replaced && rl.name !in rl.replaced
  }

  predicate ValidDescriptor(d: Yaml)
    decreases d, 1
  {
    && d.key != ""
    && (d.rateLimit.Some? ==> ValidLimit(d.rateLimit.value))
    && ValidList(d.descriptors)
  }

  /** Legal rules with distinct composite keys among siblings, at every level. */
  predicate ValidList(list: seq<Yaml>)
    decreases list, 0
  {
    && (forall i | 0 <= i < |list| :: ValidDescriptor(list[i]))
    && (forall i, j | 0 <= i < j < |list| :: Final(list[i]) != Final(list[j]))
  }

  function TreeOf(limit: Option<Rule>, parentKey: string, list: seq<Yaml>): Node<Rule>
    decreases list, 1
  {
    Node(Children(parentKey, list), limit, Wildcards(list))
  }

  /** The subtree that a rule of the list stands for. */
  function SubtreeOf(parentKey: string, d: Yaml): Node<Rule>
    decreases d, 2
  {
    TreeOf(RuleOf(parentKey, d), parentKey + Final(d) + ".", d.descriptors)
  }

  function Children(parentKey: string, list: seq<Yaml>): map<string, Node<Rule>>
    decreases list, 0
  {
    if list == [] then map[]
    else
      var n := |list| - 1;
      Children(parentKey, list[..n])[Final(list[n]) := SubtreeOf(parentKey, list[n])]
  }

  /** The wildcard keys of a list in file order. */
  function Wildcards(list: seq<Yaml>): seq<string> {
    if list == [] then []
    else
      var n := |list| - 1;
      Wildcards(list[..n]) + if IsWildcard(Final(list[n])) then [Final(list[n])] else []
  }

  lemma {:induction false} ChildKeys(parentKey: string, list: seq<Yaml>, key: string)
    ensures key in Children(parentKey, list) <==> exists i | 0 <= i < |list| :: Final(list[i]) == key
  {
    if list != [] {
      var n := |list| - 1;
      ChildKeys(parentKey, list[..n], key);
      if i :| 0 <= i < |list| && Final(list[i]) == key && i < n {
        assert list[..n][i] == list[i];
      }
    }
  }

  lemma {:induction false} NoReplacesError(replaced: seq<string>, name: string)
    ensures ReplacesError(replaced, name).None? <==> "" !in replaced && name !in replaced
  {
    if replaced != [] {
      NoReplacesError(replaced[1..], name);
      assert replaced == [replaced[0]] + replaced[1..];
    }
  }

  lemma LimitErrors(rl: YamlRateLimit)
    ensures LimitError(rl).None? <==> ValidLimit(rl)
  {
    NoReplacesError(rl.replaced, rl.name);
  }

  lemma ValidPrefix(a: seq<Yaml>, b: seq<Yaml>)
    requires ValidList(a + b)
    ensures ValidList(a) && ValidList(b)
  {
    forall i | 0 <= i < |a| ensures ValidDescriptor(a[i]) {
      assert (a + b)[i] == a[i];
    }
    forall i | 0 <= i < |b| ensures ValidDescriptor(b[i]) {
      assert (a + b)[|a| + i] == b[i];
    }
    forall i, j | 0 <= i < j < |a| ensures Final(a[i]) != Final(a[j]) {
      assert (a + b)[i] == a[i] && (a + b)[j] == a[j];
    }
    forall i, j | 0 <= i < j < |b| ensures Final(b[i]) != Final(b[j]) {
      assert (a + b)[|a| + i] == b[i] && (a + b)[|a| + j] == b[j];
    }
  }

  lemma ValidSnoc(parentKey: string, list: seq<Yaml>, d: Yaml)
    requires ValidList(list)
    ensures ValidList(list + [d]) <==> ValidDescriptor(d) && Final(d) !in Children(parentKey, list)
  {
    ChildKeys(parentKey, list, Final(d));
    var longer := list + [d];
    if ValidList(longer) {
      assert longer[|list|] == d;
      forall i | 0 <= i < |list| ensures Final(list[i]) != Final(d) {
        assert longer[i] == list[i];
      }
    }
  }

  lemma TreeSnoc(limit: Option<Rule>, parentKey: string, list: seq<Yaml>, d: Yaml)
    ensures TreeOf(limit, parentKey, list + [d]) ==
            AddChild(TreeOf(limit, parentKey, list), Final(d), SubtreeOf(parentKey, d))
  {
    var longer := list + [d];
    assert longer[..|list|] == list && longer[|list|] == d;
  }

  /** A rule's own children load exactly when they are valid. */
  lemma SubtreeLoads(parentKey: string, d: Yaml)
    ensures var r := LoadAll(Node(map[], RuleOf(parentKey, d), []), parentKey + Final(d) + ".", d.descriptors);
            && (r.Ok? <==> ValidList(d.descriptors))
            && (r.Ok? ==> r.value == SubtreeOf(parentKey, d))
    decreases d, 1
  {
    var rule, below := RuleOf(parentKey, d), parentKey + Final(d) + ".";
    assert TreeOf(rule, below, []) == Node(map[], rule, []);
    LoadAllIsTree(rule, below, [], d.descriptors);
    assert [] + d.descriptors == d.descriptors;
  }

  /** What one round of the loop needs to succeed. */
  lemma LoadOneSucceeds(node: Node<Rule>, parentKey: string, d: Yaml)
    ensures var r := LoadOne(node, parentKey, d);
            && (r.Ok? <==> ValidDescriptor(d) && Final(d) !in node.descriptors)
            && (r.Ok? ==> r.value == AddChild(node, Final(d), SubtreeOf(parentKey, d)))
    decreases d, 2
  {
    if d.rateLimit.Some? {
      LimitErrors(d.rateLimit.value);
    }
    SubtreeLoads(parentKey, d);
  }

  /** Loading one more rule below the tree of a valid list succeeds exactly when the
      longer list is valid, and then gives its tree. */
  lemma LoadOneIsTree(limit: Option<Rule>, parentKey: string, list: seq<Yaml>, d: Yaml)
    requires ValidList(list)
    ensures var r := LoadOne(TreeOf(limit, parentKey, list), parentKey, d);
            && (r.Ok? <==> ValidList(list + [d]))
            && (r.Ok? ==> r.value == TreeOf(limit, parentKey, list + [d]))
    decreases d, 3
  {
    ValidSnoc(parentKey, list, d);
    LoadOneSucceeds(TreeOf(limit, parentKey, list), parentKey, d);
    TreeSnoc(limit, parentKey, list, d);
  }

  /** Loading a further list below the tree of a valid one is loading the
      concatenation: same acceptance, same tree, same wildcard order. */
  lemma {:induction false} LoadAllIsTree(limit: Option<Rule>, parentKey: string, a: seq<Yaml>, b: seq<Yaml>)
    requires ValidList(a)
    ensures LoadAll(TreeOf(limit, parentKey, a), parentKey, b).Ok? <==> ValidList(a + b)
    ensures ValidList(a + b) ==>
              LoadAll(TreeOf(limit, parentKey, a), parentKey, b) == Ok(TreeOf(limit, parentKey, a + b))
    decreases b, 0
  {
    if b == [] {
      assert a + b == a;
    } else {
      LoadOneIsTree(limit, parentKey, a, b[0]);
      assert a + [b[0]] + b[1..] == a + b;
      if ValidList(a + [b[0]]) {
        LoadAllIsTree(limit, parentKey, a + [b[0]], b[1..]);
      } else if ValidList(a + b) {
        ValidPrefix(a + [b[0]], b[1..]);
      }
    }
  }

  // ----------------------------------------------------------- whole configs

  type Domains = map<string, Node<Rule>>

  const EMPTY: Node<Rule> := Node(map[], None, [])

  /** `loadConfig`: one file into the configuration. */
  function LoadConfig(config: Domains, root: Root, merge: bool): Result<Domains> {
    if root.domain == "" then Err(EmptyDomain)
    else if root.domain in config && !merge then Err(DuplicateDomain(root.domain))
    else
      var node := if root.domain in config then config[root.domain] else EMPTY;
      match LoadAll(node, root.domain + ".", root.descriptors)
      case Err(error) => Err(error)
      case Ok(loaded) => Ok(config[root.domain := loaded])
  }

  function LoadConfigs(config: Domains, roots: seq<Root>, merge: bool): Result<Domains>
    decreases |roots|
  {
    if roots == [] then Ok(config)
    else
      match LoadConfig(config, roots[0], merge)
      case Err(error) => Err(error)
      case Ok(next) => LoadConfigs(next, roots[1..], merge)
  }

  /** `NewRateLimitConfigImpl`: all files in order. */
  method NewRateLimitConfig(roots: seq<Root>, merge: bool) returns (r: Result<Domains>)
    ensures r == LoadConfigs(map[], roots, merge)
  {
    var config: Domains := map[];
    for i := 0 to |roots|
      invariant LoadConfigs(map[], roots, merge) == LoadConfigs(config, roots[i..], merge)
    {
      var root := roots[i];
      assert roots[i..][0] == root && roots[i..][1..] == roots[i + 1..];
      if root.domain == "" {
        return Err(EmptyDomain);
      }
      if root.domain in config {
        if !merge {
          return Err(DuplicateDomain(root.domain));
        }
        var patched := LoadDescriptors(config[root.domain], root.domain + ".", root.descriptors);
        if patched.Err? {
          return Err(patched.error);
        }
        config := config[root.domain := patched.value];
      } else {
        var loaded := LoadDescriptors(EMPTY, root.domain + ".", root.descriptors);
        if loaded.Err? {
          return Err(loaded.error);
        }
        config := config[root.domain := loaded.value];
      }
    }
    r := Ok(config);
  }

  /** All rules for a domain, concatenated in file order. */
  function RulesOf(roots: seq<Root>, domain: string): seq<Yaml> {
    if roots == [] then []
    else
      var n := |roots| - 1;
      RulesOf(roots[..n], domain) + if roots[n].domain == domain then roots[n].descriptors else []
  }

  function DomainsOf(roots: seq<Root>): set<string> { set r | r in roots :: r.domain }

  ghost predicate ValidFiles(roots: seq<Root>, merge: bool) {
    && (forall r | r in roots :: r.domain != "")
    && (forall domain :: ValidList(RulesOf(roots, domain)))
    && (!merge ==> forall i, j | 0 <= i < j < |roots| :: roots[i].domain != roots[j].domain)
  }

  /** The configuration that each domain's concatenated rules stand for. */
  function ConfigOf(roots: seq<Root>): Domains {
    map domain | domain in DomainsOf(roots) :: TreeOf(None, domain + ".", RulesOf(roots, domain))
  }

  lemma RulesOfSnoc(roots: seq<Root>, root: Root, domain: string)
    ensures RulesOf(roots + [root], domain) ==
            RulesOf(roots, domain) + if root.domain == domain then root.descriptors else []
  {
    assert (roots + [root])[..|roots|] == roots;
  }

  lemma {:induction false} RulesOfAbsent(roots: seq<Root>, domain: string)
    requires domain !in DomainsOf(roots)
    ensures RulesOf(roots, domain) == []
  {
    if roots != [] {
      var n := |roots| - 1;
      assert roots[n] in roots;
      assert forall r | r in roots[..n] :: r in roots;
      RulesOfAbsent(roots[..n], domain);
    }
  }

  lemma ValidFilesSnoc(roots: seq<Root>, root: Root, merge: bool)
    requires ValidFiles(roots, merge)
    ensures ValidFiles(roots + [root], merge) <==>
            && root.domain != ""
            && ValidList(RulesOf(roots, root.domain) + root.descriptors)
            && (!merge ==> root.domain !in DomainsOf(roots))
  {
    var longer := roots + [root];
    RulesOfSnoc(roots, root, root.domain);
    forall domain ensures domain != root.domain ==> RulesOf(longer, domain) == RulesOf(roots, domain) {
      RulesOfSnoc(roots, root, domain);
    }
    if ValidFiles(longer, merge) {
      assert root in longer;
      forall i | 0 <= i < |roots| ensures !merge ==> roots[i].domain != root.domain {
        assert longer[i] == roots[i] && longer[|roots|] == root;
      }
    }
    forall i | 0 <= i < |roots| ensures roots[i].domain in DomainsOf(roots) {
      assert roots[i] in roots;
    }
  }

  lemma ValidFilesPrefix(a: seq<Root>, b: seq<Root>, merge: bool)
    requires ValidFiles(a + b, merge)
    ensures ValidFiles(a, merge)
    decreases |b|
  {
    if b == [] {
      assert a + b == a;
    } else {
      var n := |b| - 1;
      assert a + b == (a + b[..n]) + [b[n]];
      var shorter := a + b[..n];
      forall domain ensures ValidList(RulesOf(shorter, domain)) {
        RulesOfSnoc(shorter, b[n], domain);
        ValidPrefix(RulesOf(shorter, domain), if b[n].domain == domain then b[n].descriptors else []);
      }
      forall i, j | 0 <= i < j < |shorter| ensures !merge ==> shorter[i].domain != shorter[j].domain {
        assert (a + b)[i] == shorter[i] && (a + b)[j] == shorter[j];
      }
      ValidFilesPrefix(a, b[..n], merge);
    }
  }

  lemma ConfigSnoc(roots: seq<Root>, root: Root)
    ensures ConfigOf(roots + [root]) ==
            ConfigOf(roots)[root.domain :=
              TreeOf(None, root.domain + ".", RulesOf(roots, root.domain) + root.descriptors)]
  {
    var longer := ConfigOf(roots + [root]);
    var updated := ConfigOf(roots)[root.domain :=
      TreeOf(None, root.domain + ".", RulesOf(roots, root.domain) + root.descriptors)];
    DomainsSnoc(roots, root);
    assert longer.Keys == updated.Keys;
    forall domain | domain in longer ensures longer[domain] == updated[domain] {
      RulesOfSnoc(roots, root, domain);
      if domain != root.domain {
        assert RulesOf(roots + [root], domain) == RulesOf(roots, domain);
      }
    }
  }

  lemma DomainsSnoc(roots: seq<Root>, root: Root)
    ensures DomainsOf(roots + [root]) == DomainsOf(roots) + {root.domain}
  {
    assert forall r :: r in roots + [root] <==> r in roots || r == root;
  }

  /** The tree that a file for this domain is loaded into. */
  lemma DomainSoFar(roots: seq<Root>, domain: string)
    ensures TreeOf(None, domain + ".", RulesOf(roots, domain)) ==
            if domain in ConfigOf(roots) then ConfigOf(roots)[domain] else EMPTY
  {
    if domain !in DomainsOf(roots) {
      RulesOfAbsent(roots, domain);
    }
  }

  lemma LoadConfigIsTree(roots: seq<Root>, root: Root, merge: bool)
    requires ValidFiles(roots, merge)
    ensures var r := LoadConfig(ConfigOf(roots), root, merge);
            && (r.Ok? <==> ValidFiles(roots + [root], merge))
            && (r.Ok? ==> r.value == ConfigOf(roots + [root]))
  {
    ValidFilesSnoc(roots, root, merge);
    DomainSoFar(roots, root.domain);
    LoadAllIsTree(None, root.domain + ".", RulesOf(roots, root.domain), root.descriptors);
    ConfigSnoc(roots, root);
  }

  lemma {:induction false} LoadConfigsIsTree(a: seq<Root>, b: seq<Root>, merge: bool)
    requires ValidFiles(a, merge)
    ensures LoadConfigs(ConfigOf(a), b, merge).Ok? <==> ValidFiles(a + b, merge)
    ensures ValidFiles(a + b, merge) ==> LoadConfigs(ConfigOf(a), b, merge) == Ok(ConfigOf(a + b))
    decreases |b|
  {
    if b == [] {
      assert a + b == a;
    } else {
      LoadConfigIsTree(a, b[0], merge);
      assert a + [b[0]] + b[1..] == a + b;
      if ValidFiles(a + [b[0]], merge) {
        LoadConfigsIsTree(a + [b[0]], b[1..], merge);
      } else if ValidFiles(a + b, merge) {
        ValidFilesPrefix(a + [b[0]], b[1..], merge);
      }
    }
  }

  /** Merging is concatenation: a list of files loads exactly when no domain name is
      empty and, for every domain, the concatenation of its rule lists is valid at
      every nesting level (without merging, also no domain comes twice); the result
      gives each domain the tree of that concatenation. */
  lemma MergingIsConcatenation(roots: seq<Root>, merge: bool)
    ensures LoadConfigs(map[], roots, merge).Ok? <==> ValidFiles(roots, merge)
    ensures ValidFiles(roots, merge) ==> LoadConfigs(map[], roots, merge) == Ok(ConfigOf(roots))
  {
    assert ConfigOf([]) == map[];
    assert ValidList([]);
    assert [] + roots == roots;
    LoadConfigsIsTree([], roots, merge);
  }
}
