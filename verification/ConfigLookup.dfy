/** Looking descriptors up in a loaded configuration: the walk through the tree of
    `GetLimit` in `src/config/config_impl.go` against a direct reading of the rule lists. */
module ConfigLookup {
  import opened Prelude
  import opened Limiter
  import opened CacheKeys
  import opened Config

  predicate HasPrefix(s: string, prefix: string) { prefix <= s }

  function TrimStar(key: string): string { if IsWildcard(key) then key[..|key| - 1] else key }

  predicate WildcardMatches(key: string, text: string) { HasPrefix(text, TrimStar(key)) }

  function ValueKey(e: Entry): string { e.key + "_" + e.value }

  // ------------------------------------------------------------ the tree walk

  /** The first of the wildcard keys that matches. */
  function FirstMatch(wildcards: seq<string>, text: string): (r: Option<string>)
    ensures r.Some? ==> r.value in wildcards
  {
    if wildcards == [] then None
    else
      var n := |wildcards| - 1;
      var earlier := FirstMatch(wildcards[..n], text);
      if earlier.Some? then earlier
      else if WildcardMatches(wildcards[n], text) then Some(wildcards[n]) else None
  }

  function Child<L>(node: Node<L>, key: string): Option<Node<L>> {
    if key in node.descriptors then Some(node.descriptors[key]) else None
  }

  /** The node that one entry leads to: exact, else wildcard, else the key alone. */
  function Next<L>(node: Node<L>, e: Entry): Option<Node<L>> {
    var exact := Child(node, ValueKey(e));
    if exact.Some? then exact
    else
      var wild := FirstMatch(node.wildcardKeys, ValueKey(e));
      var viaWild := if wild.Some? then Child(node, wild.value) else None;
      if viaWild.Some? then viaWild else Child(node, e.key)
  }

  /** The node that all entries together lead to. */
  function Walk<L>(node: Node<L>, entries: seq<Entry>): Option<Node<L>>
    decreases |entries|
  {
    if entries == [] then None
    else
      var next := Next(node, entries[0]);
      if next.None? then None
      else if |entries| == 1 then next
      else if next.value.descriptors == map[] then None
      else Walk(next.value, entries[1..])
  }

  function Lookup<L>(node: Node<L>, entries: seq<Entry>): Option<L> {
    var end := Walk(node, entries);
    if end.None? then None else end.value.limit
  }

  // ------------------------------------------------- the way through the tree

  /** The key under which one entry finds its node. */
  function NextKey<L>(node: Node<L>, e: Entry): (r: Option<string>)
    ensures r.Some? ==> r.value in node.descriptors
    ensures Next(node, e) == if r.None? then None else Some(node.descriptors[r.value])
  {
    var wild := FirstMatch(node.wildcardKeys, ValueKey(e));
    if ValueKey(e) in node.descriptors then Some(ValueKey(e))
    else if wild.Some? && wild.value in node.descriptors then wild
    else if e.key in node.descriptors then Some(e.key)
    else None
  }

  /** The keys under which all entries together find their node: which rule it is,
      whatever its name. */
  function PathOf<L>(node: Node<L>, entries: seq<Entry>): Option<seq<string>>
    decreases |entries|
  {
    if entries == [] || NextKey(node, entries[0]).None? then None
    else
      var key := NextKey(node, entries[0]).value;
      var next := node.descriptors[key];
      if |entries| == 1 then Some([key])
      else if next.descriptors == map[] || PathOf(next, entries[1..]).None? then None
      else Some([key] + PathOf(next, entries[1..]).value)
  }

  function Follow<L>(node: Node<L>, path: seq<string>): Option<Node<L>>
    decreases |path|
  {
    if path == [] then Some(node)
    else if path[0] in node.descriptors then Follow(node.descriptors[path[0]], path[1..])
    else None
  }

  /** Equal ways lead to the same node. */
  lemma {:induction false} WalkFollowsPath<L>(node: Node<L>, entries: seq<Entry>)
    ensures Walk(node, entries).Some? <==> PathOf(node, entries).Some?
    ensures Walk(node, entries).Some? ==> Walk(node, entries) == Follow(node, PathOf(node, entries).value)
    decreases |entries|
  {
    if entries != [] && NextKey(node, entries[0]).Some? {
      var key := NextKey(node, entries[0]).value;
      var next := node.descriptors[key];
      if |entries| == 1 {
        assert [key][1..] == [];
      } else if next.descriptors != map[] {
        WalkFollowsPath(next, entries[1..]);
        if PathOf(next, entries[1..]).Some? {
          assert ([key] + PathOf(next, entries[1..]).value)[1..] == PathOf(next, entries[1..]).value;
        }
      }
    }
  }

  // --------------------------------------------- reading the lists directly

  function FindKey(list: seq<Yaml>, key: string): (r: Option<Yaml>)
    ensures r.Some? ==> r.value in list && Final(r.value) == key
  {
    if list == [] then None
    else
      var n := |list| - 1;
      var earlier := FindKey(list[..n], key);
      if earlier.Some? then earlier else if Final(list[n]) == key then Some(list[n]) else None
  }

  /** The first rule in file order whose wildcard matches. */
  function FindWildcard(list: seq<Yaml>, text: string): (r: Option<Yaml>)
    ensures r.Some? ==> r.value in list
  {
    if list == [] then None
    else
      var n := |list| - 1;
      var earlier := FindWildcard(list[..n], text);
      if earlier.Some? then earlier
      else if IsWildcard(Final(list[n])) && WildcardMatches(Final(list[n]), text) then Some(list[n]) else None
  }

  /** The rule of a list that an entry selects. */
  function Pick(list: seq<Yaml>, e: Entry): (r: Option<Yaml>)
    ensures r.Some? ==> r.value in list
  {
    if FindKey(list, ValueKey(e)).Some? then FindKey(list, ValueKey(e))
    else if FindWildcard(list, ValueKey(e)).Some? then FindWildcard(list, ValueKey(e))
    else FindKey(list, e.key)
  }

  /** The limit that the nested lists give a descriptor: greedy, level by level. */
  function Read(parentKey: string, list: seq<Yaml>, entries: seq<Entry>): Option<Rule>
    decreases |entries|
  {
    if entries == [] then None
    else
      var d := Pick(list, entries[0]);
      if d.None? then None
      else if |entries| == 1 then RuleOf(parentKey, d.value)
      else Read(parentKey + Final(d.value) + ".", d.value.descriptors, entries[1..])
  }

  lemma {:induction false} ChildIsFound(parentKey: string, list: seq<Yaml>, limit: Option<Rule>, key: string)
    requires ValidList(list)
    ensures var d := FindKey(list, key);
            Child(TreeOf(limit, parentKey, list), key) == if d.None? then None else Some(SubtreeOf(parentKey, d.value))
  {
    if list != [] {
      var n := |list| - 1;
      assert list == list[..n] + [list[n]];
      ValidPrefix(list[..n], [list[n]]);
      ChildIsFound(parentKey, list[..n], limit, key);
      ValidSnoc(parentKey, list[..n], list[n]);
    }
  }

  lemma {:induction false} WildcardIsFound(list: seq<Yaml>, text: string)
    ensures var d := FindWildcard(list, text);
            FirstMatch(Wildcards(list), text) == if d.None? then None else Some(Final(d.value))
  {
    if list != [] {
      var n := |list| - 1;
      WildcardIsFound(list[..n], text);
      var earlier, all := Wildcards(list[..n]), Wildcards(list);
      if IsWildcard(Final(list[n])) {
        assert all[..|all| - 1] == earlier;
      } else {
        assert all == earlier;
      }
    }
  }

  lemma {:induction false} MemberIsFound(list: seq<Yaml>, d: Yaml)
    requires ValidList(list) && d in list
    ensures FindKey(list, Final(d)) == Some(d)
  {
    var n := |list| - 1;
    assert list == list[..n] + [list[n]];
    ValidPrefix(list[..n], [list[n]]);
    if d in list[..n] {
      MemberIsFound(list[..n], d);
    } else {
      var i :| 0 <= i < |list| && list[i] == d;
      assert i == n;
      assert forall j | 0 <= j < n :: list[..n][j] == list[j] && Final(list[j]) != Final(list[n]);
    }
  }

  /** One level: the tree's maps and wildcard list select what the rule list selects. */
  lemma NextIsPick(parentKey: string, list: seq<Yaml>, limit: Option<Rule>, e: Entry)
    requires ValidList(list)
    ensures var d := Pick(list, e);
            Next(TreeOf(limit, parentKey, list), e) == if d.None? then None else Some(SubtreeOf(parentKey, d.value))
  {
    ChildIsFound(parentKey, list, limit, ValueKey(e));
    ChildIsFound(parentKey, list, limit, e.key);
    WildcardIsFound(list, ValueKey(e));
    var wild := FindWildcard(list, ValueKey(e));
    if wild.Some? {
      MemberIsFound(list, wild.value);
      ChildIsFound(parentKey, list, limit, Final(wild.value));
    }
  }

  lemma NoChildrenNoRules(parentKey: string, list: seq<Yaml>)
    ensures Children(parentKey, list) == map[] <==> list == []
  {
    if list != [] {
      ChildKeys(parentKey, list, Final(list[0]));
    }
  }

  /** The tree lookup refines the rule lists: for every valid list and every
      descriptor the walk finds exactly the limit that direct reading gives. */
  lemma {:induction false} LookupRefinesRules(
    parentKey: string, list: seq<Yaml>, limit: Option<Rule>, entries: seq<Entry>)
    requires ValidList(list)
    ensures Lookup(TreeOf(limit, parentKey, list), entries) == Read(parentKey, list, entries)
    decreases |entries|
  {
    if entries != [] {
      NextIsPick(parentKey, list, limit, entries[0]);
      var d := Pick(list, entries[0]);
      if d.Some? {
        var below := parentKey + Final(d.value) + ".";
        assert ValidDescriptor(d.value);
        NoChildrenNoRules(below, d.value.descriptors);
        if |entries| > 1 {
          LookupRefinesRules(below, d.value.descriptors, RuleOf(parentKey, d.value), entries[1..]);
        }
      }
    }
  }
}
