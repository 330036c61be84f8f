/** `GetLimit` on the heap. The loaded tree holds references to limits that every
    request shares; the only thing a lookup may write there is a stats handle. */
module ConfigHeap {
  import opened Prelude
  import opened Limiter
  import opened CacheKeys
  import opened Config
  import opened ConfigLookup

  /** A `RateLimit` object: its settings, and the key of its stats handle. */
  class LimitCell {
    var rule: Rule
    var statsKey: string

    constructor (rule: Rule, statsKey: string)
      ensures this.rule == rule && this.statsKey == statsKey
    {
      this.rule := rule;
      this.statsKey := statsKey;
    }
  }

  /** A limit that the request itself supplies. */
  datatype Override = Override(requestsPerUnit: uint32, unit: Option<Unit>)

  datatype Descriptor = Descriptor(entries: seq<Entry>, limit: Option<Override>)

  function DetailedKey(domain: string, entries: seq<Entry>): string {
    if entries == [] then domain
    else DetailedKey(domain, entries[..|entries| - 1]) + "." + ValueKey(entries[|entries| - 1])
  }

  function EntryKey(e: Entry): string { if e.value != "" then e.key + "_" + e.value else e.key }

  /** The dotted spelling of the entries; a separator goes before every entry that
      follows a non-empty spelling. */
  function Spelled(entries: seq<Entry>): string {
    if entries == [] then ""
    else
      var head := Spelled(entries[..|entries| - 1]);
      (if head != "" then head + "." else head) + EntryKey(entries[|entries| - 1])
  }

  function OverrideRule(domain: string, d: Descriptor): Rule
    requires d.limit.Some?
  {
    Rule(domain + "." + Spelled(d.entries), d.limit.value.requestsPerUnit, d.limit.value.unit,
         false, false, "", [], false)
  }

  /** A detailed stats key spells every key and value of the descriptor. */
  lemma DetailedSpelling(domain: string, entries: seq<Entry>, e: Entry)
    ensures DetailedKey(domain, []) == domain
    ensures DetailedKey(domain, entries + [e]) == DetailedKey(domain, entries) + "." + (e.key + "_" + e.value)
  {
    assert (entries + [e])[..|entries|] == entries;
  }

  /** The stats key of a limit that a request brings along spells only the values that
      are there, and puts no dot before the first. */
  lemma OverrideSpelling(entries: seq<Entry>, e: Entry)
    ensures Spelled([e]) == if e.value == "" then e.key else e.key + "_" + e.value
    ensures Spelled(entries) != "" ==> Spelled(entries + [e]) == Spelled(entries) + "." + Spelled([e])
  {
    assert (entries + [e])[..|entries|] == entries;
    assert [e][..0] == [];
    assert Spelled([e]) == EntryKey(e);
  }

  /** A limit that a request brings along is what the request says, and never unlimited,
      in shadow mode, named, replacing or detailed. */
  lemma OverrideIsPlain(domain: string, d: Descriptor)
    requires d.limit.Some?
    ensures var rule := OverrideRule(domain, d);
            && rule.fullKey == domain + "." + Spelled(d.entries)
            && rule.requestsPerUnit == d.limit.value.requestsPerUnit && rule.unit == d.limit.value.unit
            && !rule.unlimited && !rule.shadowMode && rule.name == "" && |rule.replaced| == 0 && !rule.detailedMetric
  {
  }

  lemma SpelledSnoc(entries: seq<Entry>, i: nat)
    requires i < |entries|
    ensures var head := Spelled(entries[..i]);
            Spelled(entries[..i + 1]) == (if head != "" then head + "." else head) + EntryKey(entries[i])
  {
    assert entries[..i + 1][..i] == entries[..i];
  }

  method EntryText(e: Entry) returns (piece: string)
    ensures piece == EntryKey(e)
  {
    piece := e.key;
    if e.value != "" {
      piece := piece + ("_" + e.value);
      assert piece == e.key + "_" + e.value;
    }
  }

  method DescriptorKey(domain: string, d: Descriptor) returns (key: string)
    ensures key == domain + "." + Spelled(d.entries)
  {
    var text := "";
    for i := 0 to |d.entries|
      invariant text == Spelled(d.entries[..i])
    {
      SpelledSnoc(d.entries, i);
      if text != "" {
        text := text + ".";
      }
      var piece := EntryText(d.entries[i]);
      text := text + piece;
    }
    assert d.entries[..|d.entries|] == d.entries;
    key := domain + "." + text;
  }

  /** Where in a configuration a limit object was put: its domain, then the keys of the tree. */
  type Places = map<LimitCell, seq<string>>

  /** A heap tree that holds the limits of a loaded tree in cells, each at its place. */
  ghost predicate Mirrors(h: Node<LimitCell>, v: Node<Rule>, place: Places, path: seq<string>)
    reads place.Keys`rule
    decreases v
  {
    && h.descriptors.Keys == v.descriptors.Keys && h.wildcardKeys == v.wildcardKeys
    && h.limit.Some? == v.limit.Some?
    && (h.limit.Some? ==>
          h.limit.value in place && place[h.limit.value] == path && h.limit.value.rule == v.limit.value)
    && (forall k | k in h.descriptors :: Mirrors(h.descriptors[k], v.descriptors[k], place, path + [k]))
  }

  /** Statistics that are not detailed go to the handle of the rule. */
  ghost predicate HandlesOk(cells: set<LimitCell>)
    reads cells
  {
    forall c | c in cells :: !c.rule.detailedMetric ==> c.statsKey == c.rule.fullKey
  }

  ghost predicate Extends(place: Places, more: Places) {
    forall c | c in place :: c in more && more[c] == place[c]
  }

  lemma {:induction false} MirrorsMore(h: Node<LimitCell>, v: Node<Rule>, place: Places, more: Places,
                                       path: seq<string>)
    requires Mirrors(h, v, place, path) && Extends(place, more)
    ensures Mirrors(h, v, more, path)
    decreases v
  {
    forall k | k in h.descriptors ensures Mirrors(h.descriptors[k], v.descriptors[k], more, path + [k]) {
      MirrorsMore(h.descriptors[k], v.descriptors[k], place, more, path + [k]);
    }
  }

  /** The trees allocated so far, of those that `trees` asks for. */
  ghost predicate AllMirror(
    done: map<string, Node<LimitCell>>, trees: map<string, Node<Rule>>, place: Places, path: seq<string>)
    reads place.Keys`rule
  {
    done.Keys <= trees.Keys && forall k | k in done :: Mirrors(done[k], trees[k], place, path + [k])
  }

  lemma AllMirrorMore(
    done: map<string, Node<LimitCell>>, trees: map<string, Node<Rule>>, place: Places, more: Places, path: seq<string>)
    requires AllMirror(done, trees, place, path) && Extends(place, more)
    ensures AllMirror(done, trees, more, path)
  {
    forall k | k in done ensures Mirrors(done[k], trees[k], more, path + [k]) {
      MirrorsMore(done[k], trees[k], place, more, path + [k]);
    }
  }

  /** Allocates the limits of a loaded tree. */
  method Allocate(v: Node<Rule>, ghost path: seq<string>) returns (h: Node<LimitCell>, ghost place: Places)
    ensures fresh(place.Keys) && Mirrors(h, v, place, path) && HandlesOk(place.Keys)
    decreases v, 1
  {
    var children, below := AllocateAll(v.descriptors, path, v);
    var limit: Option<LimitCell> := None;
    place := below;
    if v.limit.Some? {
      var cell := new LimitCell(v.limit.value, v.limit.value.fullKey);
      limit := Some(cell);
      place := below[cell := path];
    }
    AllMirrorMore(children, v.descriptors, below, place, path);
    h := Node(children, limit, v.wildcardKeys);
  }

  /** Allocates the limits of all trees below one, or of all domains. */
  method AllocateAll(trees: map<string, Node<Rule>>, ghost path: seq<string>, ghost parent: Node<Rule>)
    returns (done: map<string, Node<LimitCell>>, ghost place: Places)
    requires trees == parent.descriptors
    ensures fresh(place.Keys) && HandlesOk(place.Keys)
    ensures done.Keys == trees.Keys && AllMirror(done, trees, place, path)
    decreases parent, 0
  {
    done := map[];
    place := map[];
    var rest := trees.Keys;
    while rest != {}
      invariant rest <= trees.Keys && done.Keys == trees.Keys - rest
      invariant fresh(place.Keys) && HandlesOk(place.Keys)
      invariant AllMirror(done, trees, place, path)
      decreases |rest|
    {
      var key :| key in rest;
      var child, below := Allocate(trees[key], path + [key]);
      ghost var both := place + below;
      AllMirrorMore(done, trees, place, both, path);
      MirrorsMore(child, trees[key], below, both, path + [key]);
      done := done[key := child];
      place := both;
      rest := rest - {key};
    }
  }

  /** Lookups in both trees take the same way. */
  lemma NextMirrors(h: Node<LimitCell>, v: Node<Rule>, place: Places, path: seq<string>, e: Entry)
    requires Mirrors(h, v, place, path)
    ensures NextKey(h, e) == NextKey(v, e)
    ensures Next(h, e).Some? == Next(v, e).Some?
    ensures Next(h, e).Some? ==> Mirrors(Next(h, e).value, Next(v, e).value, place, path + [NextKey(v, e).value])
  {
  }

  lemma {:induction false} WalkMirrors(
    h: Node<LimitCell>, v: Node<Rule>, place: Places, path: seq<string>, entries: seq<Entry>)
    requires Mirrors(h, v, place, path)
    ensures PathOf(h, entries) == PathOf(v, entries)
    ensures Walk(h, entries).Some? == Walk(v, entries).Some? == PathOf(v, entries).Some?
    ensures Walk(h, entries).Some? ==>
              Mirrors(Walk(h, entries).value, Walk(v, entries).value, place, path + PathOf(v, entries).value)
    decreases |entries|
  {
    if entries != [] {
      NextMirrors(h, v, place, path, entries[0]);
      if |entries| > 1 && Next(h, entries[0]).Some? {
        var h', v', key := Next(h, entries[0]).value, Next(v, entries[0]).value, NextKey(v, entries[0]).value;
        assert h'.descriptors == map[] <==> v'.descriptors == map[] by {
          assert h'.descriptors.Keys == v'.descriptors.Keys;
        }
        WalkMirrors(h', v', place, path + [key], entries[1..]);
        if PathOf(v', entries[1..]).Some? {
          Reassociate(path, key, PathOf(v', entries[1..]).value);
        }
      }
    }
  }

  lemma Reassociate(path: seq<string>, key: string, rest: seq<string>)
    ensures path + [key] + rest == path + ([key] + rest)
  {
  }

  /** One round of the lookup loop: exact key, then wildcards in order, then the key alone. */
  method NextDescriptor(node: Node<LimitCell>, e: Entry) returns (next: Option<Node<LimitCell>>)
    ensures next == Next(node, e)
  {
    var finalKey := e.key + "_" + e.value;
    next := if finalKey in node.descriptors then Some(node.descriptors[finalKey]) else None;
    if next.None? && |node.wildcardKeys| > 0 {
      var i := 0;
      while i < |node.wildcardKeys|
        invariant 0 <= i <= |node.wildcardKeys|
        invariant FirstMatch(node.wildcardKeys[..i], finalKey).None?
      {
        assert node.wildcardKeys[..i + 1][..i] == node.wildcardKeys[..i];
        if HasPrefix(finalKey, TrimStar(node.wildcardKeys[i])) {
          FirstMatchExtends(node.wildcardKeys[..i + 1], node.wildcardKeys[i + 1..], finalKey);
          assert node.wildcardKeys[..i + 1] + node.wildcardKeys[i + 1..] == node.wildcardKeys;
          next := Child(node, node.wildcardKeys[i]);
          break;
        }
        i := i + 1;
      }
      assert i == |node.wildcardKeys| ==> node.wildcardKeys[..i] == node.wildcardKeys;
    }
    if next.None? {
      next := if e.key in node.descriptors then Some(node.descriptors[e.key]) else None;
    }
  }

  lemma {:induction false} FirstMatchExtends(a: seq<string>, b: seq<string>, text: string)
    requires FirstMatch(a, text).Some?
    ensures FirstMatch(a + b, text) == FirstMatch(a, text)
    decreases |b|
  {
    if b == [] {
      assert a + b == a;
    } else {
      assert (a + b)[..|a + b| - 1] == a + b[..|b| - 1];
      FirstMatchExtends(a, b[..|b| - 1], text);
    }
  }

  /** Whether the entries lead to a rule without children. */
  predicate EndsAtLeaf<L>(node: Node<L>, entries: seq<Entry>) {
    Walk(node, entries).Some? && Walk(node, entries).value.descriptors == map[]
  }

  /** The stats key that a lookup returns a rule under. */
  function OwnHandle(domain: string, entries: seq<Entry>, rule: Rule): string {
    if rule.detailedMetric then DetailedKey(domain, entries) else rule.fullKey
  }

  /** A loaded configuration, shared by all requests. */
  class LoadedConfig {
    const domains: map<string, Node<LimitCell>>
    ghost const loaded: Domains
    ghost const place: Places
    ghost const cells: set<LimitCell>
    /** Requests per unknown domain. */
    var notFound: map<string, nat>

    ghost predicate SameDomains() { domains.Keys == loaded.Keys }

    ghost predicate Valid()
      reads cells
    {
      && cells == place.Keys && SameDomains() && HandlesOk(cells)
      && AllMirror(domains, loaded, place, [])
    }

    constructor (config: Domains)
      ensures Valid() && loaded == config && fresh(cells) && notFound == map[]
    {
      var trees, all := AllocateAll(config, [], Node(config, None, []));
      domains, loaded, place, cells, notFound := trees, config, all, all.Keys, map[];
    }

    /** Lookups are stable on the shared heap. Whatever lookups came before, the
        result has the settings that the loaded tree gives the descriptor; the
        settings of shared limits never change, and only the handle of a returned
        limit with detailed metrics is rewritten. A detailed limit comes back under
        the spelling of the current request: as a copy when its rule has no
        children, as the shared object itself when it has. */
    method GetLimit(domain: string, descriptor: Descriptor) returns (r: LimitCell?)
      requires Valid()
      modifies this`notFound, cells`statsKey
      ensures Valid()
      ensures notFound ==
              (if domain in domains then old(notFound)
               else old(notFound)[domain := (if domain in old(notFound) then old(notFound)[domain] else 0) + 1])
      ensures domain !in domains ==> r == null
      ensures domain in domains && descriptor.limit.Some? ==>
                r != null && fresh(r) && r.rule == OverrideRule(domain, descriptor) && r.statsKey == r.rule.fullKey
      ensures domain in domains && descriptor.limit.None? ==>
                && (r == null <==> Lookup(loaded[domain], descriptor.entries).None?)
                && (r != null ==>
                      && r.rule == Lookup(loaded[domain], descriptor.entries).value
                      && r.statsKey == OwnHandle(domain, descriptor.entries, r.rule)
                      && (if r.rule.detailedMetric && EndsAtLeaf(loaded[domain], descriptor.entries) then fresh(r)
                          else r in cells && Lookup(domains[domain], descriptor.entries) == Some(r)))
      ensures forall c | c in cells :: c.rule == old(c.rule)
      ensures forall c | c in cells && c != r :: c.statsKey == old(c.statsKey)
    {
      r := null;
      if domain !in domains {
        notFound := notFound[domain := (if domain in notFound then notFound[domain] else 0) + 1];
      } else if descriptor.limit.Some? {
        var key := DescriptorKey(domain, descriptor);
        r := new LimitCell(
          Rule(key, descriptor.limit.value.requestsPerUnit, descriptor.limit.value.unit, false, false, "", [], false),
          key);
      } else {
        r := LookUp(domain, descriptor.entries);
      }
    }

    /** The part of `GetLimit` that consults the tree. */
    method LookUp(domain: string, entries: seq<Entry>) returns (r: LimitCell?)
      requires Valid() && domain in domains
      modifies cells`statsKey
      ensures Valid()
      ensures r == null <==> Lookup(loaded[domain], entries).None?
      ensures r != null ==>
                && r.rule == Lookup(loaded[domain], entries).value
                && r.statsKey == OwnHandle(domain, entries, r.rule)
                && (if r.rule.detailedMetric && EndsAtLeaf(loaded[domain], entries) then fresh(r)
                    else r in cells && Lookup(domains[domain], entries) == Some(r))
      ensures forall c | c in cells :: c.rule == old(c.rule)
      ensures forall c | c in cells && c != r :: c.statsKey == old(c.statsKey)
    {
      FoundAlike(domain, entries);
      var limit, leaf, fullKey := FindLimit(domain, entries);
      r := null;
      if limit.Some? {
        r := limit.value;
        if r.rule.detailedMetric {
          if leaf {
            r := new LimitCell(r.rule, r.rule.fullKey);
            r.statsKey := fullKey;
          } else {
            SetHandle(r, fullKey);
          }
        }
      }
    }

    /** Redirects the statistics of a shared detailed limit. */
    method SetHandle(c: LimitCell, key: string)
      requires Valid() && c in cells && c.rule.detailedMetric
      modifies c`statsKey
      ensures Valid() && c.statsKey == key
    {
      c.statsKey := key;
    }

    /** What a lookup finds in the heap tree holds the rule of the loaded tree. */
    lemma FoundAlike(domain: string, entries: seq<Entry>)
      requires Valid() && domain in domains
      ensures var h, v := Lookup(domains[domain], entries), Lookup(loaded[domain], entries);
              h.Some? == v.Some? && (h.Some? ==> h.value in cells && h.value.rule == v.value)
      ensures EndsAtLeaf(domains[domain], entries) <==> EndsAtLeaf(loaded[domain], entries)
    {
      DomainMirrors(domain);
      WalkMirrors(domains[domain], loaded[domain], place, [domain], entries);
      SameLeaf(domain, entries);
    }

    lemma DomainMirrors(domain: string)
      requires Valid() && domain in domains
      ensures Mirrors(domains[domain], loaded[domain], place, [domain])
    {
      assert [] + [domain] == [domain];
    }

    /** Objects of this configuration that lookups find: the same exactly for the same rule. */
    lemma SameCell(domain: string, a: seq<Entry>, b: seq<Entry>)
      requires Valid() && domain in domains
      requires Lookup(domains[domain], a).Some? && Lookup(domains[domain], b).Some?
      ensures Lookup(domains[domain], a) == Lookup(domains[domain], b) <==>
              PathOf(loaded[domain], a) == PathOf(loaded[domain], b)
    {
      var h, v := domains[domain], loaded[domain];
      DomainMirrors(domain);
      WalkMirrors(h, v, place, [domain], a);
      WalkMirrors(h, v, place, [domain], b);
      WalkFollowsPath(h, a);
      WalkFollowsPath(h, b);
      var p, q := PathOf(v, a).value, PathOf(v, b).value;
      if Lookup(h, a) == Lookup(h, b) {
        assert [domain] + p == [domain] + q;
        assert p == ([domain] + p)[1..] && q == ([domain] + q)[1..];
      }
    }

    lemma SameLeaf(domain: string, entries: seq<Entry>)
      requires Valid() && domain in domains
      ensures EndsAtLeaf(domains[domain], entries) <==> EndsAtLeaf(loaded[domain], entries)
    {
      DomainMirrors(domain);
      WalkMirrors(domains[domain], loaded[domain], place, [domain], entries);
      if Walk(domains[domain], entries).Some? {
        var h, v := Walk(domains[domain], entries).value, Walk(loaded[domain], entries).value;
        assert h.descriptors.Keys == v.descriptors.Keys;
        assert h.descriptors == map[] <==> v.descriptors == map[];
      }
    }

    /** The loop of `GetLimit`, with the detailed key spelled on the way. */
    method FindLimit(domain: string, entries: seq<Entry>)
      returns (limit: Option<LimitCell>, leaf: bool, fullKey: string)
      requires domain in domains
      ensures limit == Lookup(domains[domain], entries)
      ensures limit.Some? ==> leaf == EndsAtLeaf(domains[domain], entries) && fullKey == DetailedKey(domain, entries)
    {
      var root := domains[domain];
      var prev := root;
      limit, leaf, fullKey := None, false, domain;
      var i := 0;
      while i < |entries|
        invariant 0 <= i <= |entries|
        invariant fullKey == DetailedKey(domain, entries[..i])
        invariant limit.None?
        invariant i < |entries| ==> Walk(root, entries) == Walk(prev, entries[i..])
        invariant i == |entries| ==> Lookup(root, entries).None?
      {
        assert entries[..i + 1][..i] == entries[..i];
        fullKey := fullKey + "." + (entries[i].key + "_" + entries[i].value);
        assert entries[i..][0] == entries[i] && entries[i..][1..] == entries[i + 1..];
        var next := NextDescriptor(prev, entries[i]);
        if next.Some? && next.value.limit.Some? && i == |entries| - 1 {
          limit := next.value.limit;
        }
        if next.Some? && next.value.descriptors != map[] {
          prev := next.value;
        } else {
          assert i == |entries| - 1 ==> entries[..i + 1] == entries;
          leaf := true;
          return;
        }
        i := i + 1;
        if limit.Some? {
          assert entries[..i] == entries;
          return;
        }
      }
    }
  }
}
