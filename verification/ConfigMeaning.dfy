/** What rule files mean, told from the fields of the rules alone: which rule an entry
    selects, which limit a descriptor gets, what a loaded rule holds, and why a file is
    refused. */
module ConfigMeaning {
  import opened Prelude
  import opened Limiter
  import opened CacheKeys
  import opened Config
  import opened ConfigLookup

  // -------------------------------------------------------- which rule is selected

  /** A rule with a value stands for key and value, one without for its key. */
  predicate Spells(d: Yaml, text: string) {
    if d.value != "" then text == d.key + "_" + d.value else text == d.key
  }

  /** A rule whose spelling ends with a star stands for everything that begins like it. */
  ghost predicate Covers(d: Yaml, text: string) {
    exists stem: string :: Spells(d, stem + "*") && stem <= text
  }

  /** Some rule of the list is spelled like this. */
  ghost predicate AnySpells(list: seq<Yaml>, text: string) { exists d | d in list :: Spells(d, text) }

  ghost predicate FirstCovers(list: seq<Yaml>, text: string, i: nat) {
    i < |list| && Covers(list[i], text) && forall j | 0 <= j < i :: !Covers(list[j], text)
  }

  /** The rule that an entry selects: the one spelled like key and value, else the first
      wildcard in file order, else the one spelled like the key. */
  ghost predicate Selects(list: seq<Yaml>, e: Entry, r: Option<Yaml>) {
    var text := e.key + "_" + e.value;
    if AnySpells(list, text) then r.Some? && r.value in list && Spells(r.value, text)
    else if exists i: nat :: FirstCovers(list, text, i) then
      exists i: nat :: FirstCovers(list, text, i) && r == Some(list[i])
    else if AnySpells(list, e.key) then r.Some? && r.value in list && Spells(r.value, e.key)
    else r == None
  }

  lemma FinalSpells(d: Yaml, text: string)
    ensures Spells(d, text) <==> Final(d) == text
  {
  }

  lemma {:induction false} FoundKeySpells(list: seq<Yaml>, text: string)
    ensures FindKey(list, text).Some? <==> AnySpells(list, text)
    ensures FindKey(list, text).Some? ==> Spells(FindKey(list, text).value, text)
  {
    if list != [] {
      var n := |list| - 1;
      FoundKeySpells(list[..n], text);
      FinalSpells(list[n], text);
      assert list == list[..n] + [list[n]];
    }
  }

  lemma StarCovers(d: Yaml, text: string)
    ensures Covers(d, text) <==> IsWildcard(Final(d)) && WildcardMatches(Final(d), text)
  {
    var key := Final(d);
    if IsWildcard(key) {
      var stem := TrimStar(key);
      assert key == stem + "*";
      FinalSpells(d, stem + "*");
    }
    if stem: string :| Spells(d, stem + "*") && stem <= text {
      FinalSpells(d, stem + "*");
      assert key == stem + "*" && TrimStar(key) == stem;
    }
  }

  predicate StarMatches(d: Yaml, text: string) { IsWildcard(Final(d)) && WildcardMatches(Final(d), text) }

  predicate FirstMatches(list: seq<Yaml>, text: string, i: nat) {
    i < |list| && StarMatches(list[i], text) && forall j | 0 <= j < i :: !StarMatches(list[j], text)
  }

  lemma FindWildcardSnoc(init: seq<Yaml>, last: Yaml, text: string)
    ensures FindWildcard(init + [last], text) ==
            if FindWildcard(init, text).Some? then FindWildcard(init, text)
            else if StarMatches(last, text) then Some(last) else None
  {
    assert (init + [last])[..|init|] == init;
  }

  lemma {:induction false} FoundWildcardAt(list: seq<Yaml>, text: string, marks: seq<bool>) returns (i: nat)
    requires |marks| == |list| && forall j | 0 <= j < |list| :: marks[j] == StarMatches(list[j], text)
    ensures i <= |list| && FindWildcard(list, text) == if i < |list| then Some(list[i]) else None
    ensures (i < |list| ==> marks[i]) && forall j | 0 <= j < i :: !marks[j]
  {
    if list == [] {
      i := 0;
    } else {
      var n := |list| - 1;
      var init, last := list[..n], list[n];
      assert list == init + [last];
      i := FoundWildcardAt(init, text, marks[..n]);
      FindWildcardSnoc(init, last, text);
      if i == n && !marks[n] {
        i := n + 1;
      }
    }
  }

  lemma FoundWildcardIsFirst(list: seq<Yaml>, text: string) returns (i: nat)
    ensures i <= |list| && FindWildcard(list, text) == if i < |list| then Some(list[i]) else None
    ensures if i < |list| then FirstMatches(list, text, i)
            else forall j | 0 <= j < |list| :: !StarMatches(list[j], text)
  {
    var marks := seq(|list|, j requires 0 <= j < |list| => StarMatches(list[j], text));
    i := FoundWildcardAt(list, text, marks);
    assert forall j | 0 <= j < |list| :: marks[j] == StarMatches(list[j], text);
  }

  lemma FirstCoversFirst(list: seq<Yaml>, text: string, i: nat)
    ensures FirstCovers(list, text, i) <==> FirstMatches(list, text, i)
  {
    forall j | 0 <= j < |list| ensures Covers(list[j], text) <==> StarMatches(list[j], text) {
      StarCovers(list[j], text);
    }
  }

  /** What the first matching wildcard rule is. */
  lemma FoundWildcardCovers(list: seq<Yaml>, text: string)
    ensures var d := FindWildcard(list, text);
            if d.Some? then exists i: nat :: FirstCovers(list, text, i) && list[i] == d.value
            else forall i: nat :: !FirstCovers(list, text, i)
  {
    var first := FoundWildcardIsFirst(list, text);
    forall i: nat ensures FirstCovers(list, text, i) <==> FirstMatches(list, text, i) {
      FirstCoversFirst(list, text, i);
    }
  }

  /** The lookup picks the rule that the entry selects. */
  lemma PickSelects(list: seq<Yaml>, e: Entry)
    ensures Selects(list, e, Pick(list, e))
  {
    var text := e.key + "_" + e.value;
    assert ValueKey(e) == text;
    FoundKeySpells(list, text);
    FoundKeySpells(list, e.key);
    FoundWildcardCovers(list, text);
  }

  /** Among valid rules no entry selects two. */
  lemma SelectsOne(list: seq<Yaml>, e: Entry, a: Option<Yaml>, b: Option<Yaml>)
    requires ValidList(list) && Selects(list, e, a) && Selects(list, e, b)
    ensures a == b
  {
    var text := e.key + "_" + e.value;
    if AnySpells(list, text) {
      SpeltOnce(list, text, a.value, b.value);
    } else if exists i: nat :: FirstCovers(list, text, i) {
      var i: nat :| FirstCovers(list, text, i) && a == Some(list[i]);
      var j: nat :| FirstCovers(list, text, j) && b == Some(list[j]);
      assert i == j;
    } else if AnySpells(list, e.key) {
      SpeltOnce(list, e.key, a.value, b.value);
    }
  }

  lemma SpeltOnce(list: seq<Yaml>, text: string, a: Yaml, b: Yaml)
    requires ValidList(list) && a in list && b in list && Spells(a, text) && Spells(b, text)
    ensures a == b
  {
    FinalSpells(a, text);
    FinalSpells(b, text);
    MemberIsFound(list, a);
    MemberIsFound(list, b);
  }

  /** A rule with a value is found by its key and value. */
  lemma ExactRuleIsPicked(list: seq<Yaml>, d: Yaml)
    requires ValidList(list) && d in list && d.value != ""
    ensures Pick(list, Entry(d.key, d.value)) == Some(d)
  {
    var e := Entry(d.key, d.value);
    PickSelects(list, e);
    assert Spells(d, e.key + "_" + e.value);
    SpeltOnce(list, e.key + "_" + e.value, d, Pick(list, e).value);
  }

  /** A rule without a value is found by its key and any value that no sibling claims. */
  lemma KeyRuleIsPicked(list: seq<Yaml>, d: Yaml, value: string)
    requires ValidList(list) && d in list && d.value == ""
    requires forall x | x in list :: !Spells(x, d.key + "_" + value) && !Covers(x, d.key + "_" + value)
    ensures Pick(list, Entry(d.key, value)) == Some(d)
  {
    var e := Entry(d.key, value);
    PickSelects(list, e);
    assert Spells(d, e.key);
    SpeltOnce(list, e.key, d, Pick(list, e).value);
  }

  /** A rule whose value is a stem and a star is found by every value with that stem that
      no sibling spells and no earlier wildcard covers. */
  lemma WildcardRuleIsPicked(list: seq<Yaml>, i: nat, stem: string, rest: string)
    requires i < |list| && list[i].value == stem + "*"
    requires forall x | x in list :: !Spells(x, list[i].key + "_" + (stem + rest))
    requires forall j | 0 <= j < i :: !Covers(list[j], list[i].key + "_" + (stem + rest))
    ensures Pick(list, Entry(list[i].key, stem + rest)) == Some(list[i])
  {
    var d := list[i];
    var e, text := Entry(d.key, stem + rest), d.key + "_" + (stem + rest);
    var full := d.key + "_" + stem;
    assert full + "*" == d.key + "_" + d.value;
    assert Spells(d, full + "*");
    assert full + rest == text && full <= text;
    assert Covers(d, text);
    assert FirstCovers(list, text, i);
    PickSelects(list, e);
    var j: nat :| FirstCovers(list, text, j) && Pick(list, e) == Some(list[j]);
    assert j == i;
  }

  // ------------------------------------------------------ what a loaded rule holds

  /** The same letters in any case; `name` is in upper case. */
  predicate SameLetters(text: string, name: string) {
    && |text| == |name|
    && forall i | 0 <= i < |text| :: text[i] == name[i] || text[i] as int == name[i] as int + 32
  }

  /** The unit that a file names. */
  predicate NamesUnit(text: string, unit: Unit) {
    match unit
    case Second => SameLetters(text, "SECOND")
    case Minute => SameLetters(text, "MINUTE")
    case Hour => SameLetters(text, "HOUR")
    case Day => SameLetters(text, "DAY")
  }

  predicate IsUpper(name: string) { forall i | 0 <= i < |name| :: 'A' <= name[i] <= 'Z' }

  lemma UpperIs(text: string, name: string)
    requires IsUpper(name)
    ensures Upper(text) == name <==> SameLetters(text, name)
  {
    if |text| == |name| {
      forall i | 0 <= i < |text|
        ensures UpperChar(text[i]) == name[i] <==> text[i] == name[i] || text[i] as int == name[i] as int + 32
      {
      }
      if Upper(text) == name {
        assert forall i | 0 <= i < |text| :: Upper(text)[i] == UpperChar(text[i]) == name[i];
      }
    }
  }

  lemma UnitsAreNamed(text: string, unit: Unit)
    ensures ParseUnit(text) == Some(unit) <==> NamesUnit(text, unit)
  {
    UpperIs(text, "SECOND");
    UpperIs(text, "MINUTE");
    UpperIs(text, "HOUR");
    UpperIs(text, "DAY");
  }

  /** A loaded limit holds what its rule says in the file. */
  ghost predicate Reflects(rule: Rule, d: Yaml) {
    && d.rateLimit.Some?
    && var rl := d.rateLimit.value;
    && rule.requestsPerUnit == rl.requestsPerUnit && rule.unlimited == rl.unlimited && rule.name == rl.name
    && rule.replaced == rl.replaced && rule.shadowMode == d.shadowMode && rule.detailedMetric == d.detailedMetric
    && forall unit :: rule.unit == Some(unit) <==> NamesUnit(rl.unit, unit)
  }

  lemma RuleReflects(parentKey: string, d: Yaml)
    requires d.rateLimit.Some?
    ensures RuleOf(parentKey, d).Some? && Reflects(RuleOf(parentKey, d).value, d)
  {
    forall unit ensures ParseUnit(d.rateLimit.value.unit) == Some(unit) <==> NamesUnit(d.rateLimit.value.unit, unit) {
      UnitsAreNamed(d.rateLimit.value.unit, unit);
    }
  }

  // -------------------------------------------------------- which limit is found

  /** One rule for each entry, each selected among the children of the one before. */
  ghost predicate Leads(list: seq<Yaml>, entries: seq<Entry>, path: seq<Yaml>)
    decreases |path|
  {
    && |path| == |entries| && path != []
    && Selects(list, entries[0], Some(path[0]))
    && (|path| > 1 ==> Leads(path[0].descriptors, entries[1..], path[1..]))
  }

  /** The spellings of the rules on the way, joined by dots. */
  ghost predicate Joins(parentKey: string, path: seq<Yaml>, text: string)
    requires path != []
    decreases |path|
  {
    exists own: string :: Spells(path[0], own) &&
      if |path| == 1 then text == parentKey + own else Joins(parentKey + own + ".", path[1..], text)
  }

  lemma JoinsFinal(parentKey: string, path: seq<Yaml>, text: string)
    requires path != []
    requires if |path| == 1 then text == parentKey + Final(path[0])
             else Joins(parentKey + Final(path[0]) + ".", path[1..], text)
    ensures Joins(parentKey, path, text)
  {
    FinalSpells(path[0], Final(path[0]));
  }

  /** A chain of selected rules decides the lookup: it finds the limit of the last rule,
      if that has one, under the joined spellings. */
  lemma {:induction false} ReadFollowsChain(parentKey: string, list: seq<Yaml>, entries: seq<Entry>, path: seq<Yaml>)
    requires ValidList(list) && Leads(list, entries, path)
    ensures var rule, last := Read(parentKey, list, entries), path[|path| - 1];
            && (rule.Some? <==> last.rateLimit.Some?)
            && (rule.Some? ==> Reflects(rule.value, last) && Joins(parentKey, path, rule.value.fullKey))
    decreases |entries|
  {
    var d := path[0];
    PickSelects(list, entries[0]);
    SelectsOne(list, entries[0], Some(d), Pick(list, entries[0]));
    if |entries| == 1 {
      if d.rateLimit.Some? {
        RuleReflects(parentKey, d);
        JoinsFinal(parentKey, path, parentKey + Final(d));
      }
    } else {
      var below, rest := parentKey + Final(d) + ".", path[1..];
      assert ValidDescriptor(d);
      ReadFollowsChain(below, d.descriptors, entries[1..], rest);
      var rule := Read(below, d.descriptors, entries[1..]);
      assert rest[|rest| - 1] == path[|path| - 1];
      if rule.Some? {
        JoinsFinal(parentKey, path, rule.value.fullKey);
      }
    }
  }

  /** A limit is found only at the end of such a chain, hence only at the depth of the request. */
  lemma {:induction false} ReadMatchesDepth(parentKey: string, list: seq<Yaml>, entries: seq<Entry>)
    ensures Read(parentKey, list, entries).Some? ==> exists path :: Leads(list, entries, path)
    decreases |entries|
  {
    if Read(parentKey, list, entries).Some? {
      var d := Pick(list, entries[0]).value;
      PickSelects(list, entries[0]);
      if |entries| == 1 {
        assert Leads(list, entries, [d]);
      } else {
        ReadMatchesDepth(parentKey + Final(d) + ".", d.descriptors, entries[1..]);
        var rest :| Leads(d.descriptors, entries[1..], rest);
        assert ([d] + rest)[1..] == rest;
        assert Leads(list, entries, [d] + rest);
      }
    }
  }

  // ------------------------------------------------------- why a file is refused

  /** What is wrong with rule `i` of a list, its children aside. */
  ghost predicate Wrong(list: seq<Yaml>, i: nat, e: LoadError)
    requires i < |list|
  {
    var d := list[i];
    match e
    case EmptyKey => d.key == ""
    case DuplicateKey(_) => exists j, text | 0 <= j < i :: Spells(list[j], text) && Spells(d, text)
    case UnitWhenUnlimited =>
      d.rateLimit.Some? && d.rateLimit.value.unlimited && exists unit :: NamesUnit(d.rateLimit.value.unit, unit)
    case InvalidUnit =>
      d.rateLimit.Some? && !d.rateLimit.value.unlimited && forall unit :: !NamesUnit(d.rateLimit.value.unit, unit)
    case EmptyReplaces => d.rateLimit.Some? && "" in d.rateLimit.value.replaced
    case SelfReplaces => d.rateLimit.Some? && d.rateLimit.value.name in d.rateLimit.value.replaced
    case _ => false
  }

  /** Some rule of the list, at whatever depth, is wrong in this way. */
  ghost predicate HasWrong(list: seq<Yaml>, e: LoadError)
    decreases list
  {
    exists i | 0 <= i < |list| :: Wrong(list, i, e) || HasWrong(list[i].descriptors, e)
  }

  lemma {:induction false} ReplacesErrorIsTrue(replaced: seq<string>, name: string)
    ensures var e := ReplacesError(replaced, name);
            && (e.Some? ==> e.value == EmptyReplaces || e.value == SelfReplaces)
            && (e == Some(EmptyReplaces) ==> "" in replaced) && (e == Some(SelfReplaces) ==> name in replaced)
  {
    if replaced != [] {
      ReplacesErrorIsTrue(replaced[1..], name);
    }
  }

  lemma LimitErrorIsTrue(list: seq<Yaml>, i: nat)
    requires i < |list| && list[i].rateLimit.Some? && LimitError(list[i].rateLimit.value).Some?
    ensures Wrong(list, i, LimitError(list[i].rateLimit.value).value)
  {
    var rl := list[i].rateLimit.value;
    ReplacesErrorIsTrue(rl.replaced, rl.name);
    forall unit ensures ParseUnit(rl.unit) == Some(unit) <==> NamesUnit(rl.unit, unit) {
      UnitsAreNamed(rl.unit, unit);
    }
    if ParseUnit(rl.unit).Some? {
      assert NamesUnit(rl.unit, ParseUnit(rl.unit).value);
    }
  }

  lemma OneErrorIsTrue(limit: Option<Rule>, parentKey: string, list: seq<Yaml>, d: Yaml)
    requires ValidList(list) && LoadOne(TreeOf(limit, parentKey, list), parentKey, d).Err?
    ensures HasWrong(list + [d], LoadOne(TreeOf(limit, parentKey, list), parentKey, d).error)
    decreases d, 1
  {
    var longer, n, e := list + [d], |list|, LoadOne(TreeOf(limit, parentKey, list), parentKey, d).error;
    assert longer[n] == d;
    if d.key == "" {
      assert Wrong(longer, n, e);
    } else if Final(d) in Children(parentKey, list) {
      ChildKeys(parentKey, list, Final(d));
      var j :| 0 <= j < |list| && Final(list[j]) == Final(d);
      FinalSpells(list[j], Final(d));
      FinalSpells(d, Final(d));
      assert longer[j] == list[j];
      assert Wrong(longer, n, e);
    } else if d.rateLimit.Some? && LimitError(d.rateLimit.value).Some? {
      LimitErrorIsTrue(longer, n);
    } else {
      assert TreeOf(RuleOf(parentKey, d), parentKey + Final(d) + ".", []) == Node(map[], RuleOf(parentKey, d), []);
      LoadErrorsAreTrue(RuleOf(parentKey, d), parentKey + Final(d) + ".", [], d.descriptors);
      assert [] + d.descriptors == d.descriptors;
      assert HasWrong(longer[n].descriptors, e);
    }
  }

  /** Whatever a list of rules is refused for, some rule of it is wrong in this way. */
  lemma {:induction false} LoadErrorsAreTrue(limit: Option<Rule>, parentKey: string, a: seq<Yaml>, b: seq<Yaml>)
    requires ValidList(a) && LoadAll(TreeOf(limit, parentKey, a), parentKey, b).Err?
    ensures HasWrong(a + b, LoadAll(TreeOf(limit, parentKey, a), parentKey, b).error)
    decreases b, 0
  {
    var e := LoadAll(TreeOf(limit, parentKey, a), parentKey, b).error;
    LoadOneIsTree(limit, parentKey, a, b[0]);
    assert a + [b[0]] + b[1..] == a + b;
    if ValidList(a + [b[0]]) {
      LoadErrorsAreTrue(limit, parentKey, a + [b[0]], b[1..]);
    } else {
      OneErrorIsTrue(limit, parentKey, a, b[0]);
      WrongStays(a + [b[0]], b[1..], e);
    }
  }

  lemma WrongStays(a: seq<Yaml>, b: seq<Yaml>, e: LoadError)
    requires HasWrong(a, e)
    ensures HasWrong(a + b, e)
  {
    var i :| 0 <= i < |a| && (Wrong(a, i, e) || HasWrong(a[i].descriptors, e));
    assert (a + b)[i] == a[i];
    if Wrong(a, i, e) {
      assert forall j | 0 <= j < i :: (a + b)[j] == a[j];
      assert Wrong(a + b, i, e);
    }
  }
}
