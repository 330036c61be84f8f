/** Cache keys and windows: `src/limiter/cache_key.go` and `src/utils/utilities.go`. */
module CacheKeys {
  import opened Prelude
  import opened Limiter

  /** One entry of a request descriptor. */
  datatype Entry = Entry(key: string, value: string)

  datatype CacheKey = CacheKey(key: string, perSecond: bool)

  function Digit(d: nat): char
    requires d < 10
  {
    ('0' as int + d) as char
  }

  /** Decimal notation, as `strconv.FormatInt` writes a non-negative number. */
  function FormatInt(n: nat): string {
    if n < 10 then [Digit(n)] else FormatInt(n / 10) + [Digit(n % 10)]
  }

  function ParseInt(s: string): int {
    if s == "" then 0 else ParseInt(s[..|s| - 1]) * 10 + (s[|s| - 1] as int - '0' as int)
  }

  lemma {:induction false} ParseFormat(n: nat)
    ensures ParseInt(FormatInt(n)) == n && FormatInt(n) != "" && '_' !in FormatInt(n)
  {
    if n < 10 {
      assert FormatInt(n)[..0] == "";
    } else {
      ParseFormat(n / 10);
      var s := FormatInt(n);
      assert s[..|s| - 1] == FormatInt(n / 10);
    }
  }

  function WindowStart(unit: Unit, now: nat): nat { now / UnitToDivider(unit) * UnitToDivider(unit) }

  function EntriesText(entries: seq<Entry>): string {
    if entries == [] then "" else entries[0].key + "_" + entries[0].value + "_" + EntriesText(entries[1..])
  }

  function KeyText(prefix: string, domain: string, entries: seq<Entry>, window: nat): string {
    prefix + (domain + "_" + (EntriesText(entries) + FormatInt(window)))
  }

  lemma {:induction false} EntriesTextSnoc(entries: seq<Entry>, e: Entry)
    ensures EntriesText(entries + [e]) == EntriesText(entries) + (e.key + "_" + e.value + "_")
  {
    if entries == [] {
      assert entries + [e] == [e];
      assert [e][1..] == [];
    } else {
      assert (entries + [e])[1..] == entries[1..] + [e];
      EntriesTextSnoc(entries[1..], e);
    }
  }

  /** A checked descriptor gets a non-empty key for the window of `now`; a
      descriptor without a limit gets the empty key. */
  method GenerateCacheKey(prefix: string, domain: string, entries: seq<Entry>, limit: Option<Limit>, now: nat)
    returns (r: CacheKey)
    ensures limit.None? ==> r == CacheKey("", false)
    ensures limit.Some? ==>
              var unit := limit.value.quota.unit;
              r == CacheKey(KeyText(prefix, domain, entries, WindowStart(unit, now)), unit == Second) && r.key != ""
  {
    if limit.None? {
      return CacheKey("", false);
    }
    var b := "";
    b := b + prefix;
    b := b + domain;
    b := b + "_";
    for i := 0 to |entries|
      invariant b == prefix + domain + "_" + EntriesText(entries[..i])
    {
      EntriesTextSnoc(entries[..i], entries[i]);
      assert entries[..i + 1] == entries[..i] + [entries[i]];
      b := b + entries[i].key;
      b := b + "_";
      b := b + entries[i].value;
      b := b + "_";
    }
    assert entries[..|entries|] == entries;
    var divider := UnitToDivider(limit.value.quota.unit);
    b := b + FormatInt(now / divider * divider);
    r := CacheKey(b, limit.value.quota.unit == Second);
  }

  lemma PrefixCancels(p: string, a: string, b: string)
    requires p + a == p + b
    ensures a == b
  {
    assert a == (p + a)[|p|..] && b == (p + b)[|p|..];
  }

  /** Keys of one descriptor coincide exactly when their windows do. */
  lemma SameDescriptorKeys(prefix: string, domain: string, entries: seq<Entry>, w: nat, w': nat)
    ensures KeyText(prefix, domain, entries, w) == KeyText(prefix, domain, entries, w') <==> w == w'
  {
    if KeyText(prefix, domain, entries, w) == KeyText(prefix, domain, entries, w') {
      var head := prefix + domain + "_" + EntriesText(entries);
      assert KeyText(prefix, domain, entries, w) == head + FormatInt(w);
      assert KeyText(prefix, domain, entries, w') == head + FormatInt(w');
      PrefixCancels(head, FormatInt(w), FormatInt(w'));
      ParseFormat(w);
      ParseFormat(w');
    }
  }

  lemma MinuteWindow(now: nat, later: nat)
    ensures (now + later) / 60 * 60 == now / 60 * 60 <==> later < 60 - now % 60
  {
  }

  lemma HourWindow(now: nat, later: nat)
    ensures (now + later) / 3600 * 3600 == now / 3600 * 3600 <==> later < 3600 - now % 3600
  {
  }

  lemma DayWindow(now: nat, later: nat)
    ensures (now + later) / 86400 * 86400 == now / 86400 * 86400 <==> later < 86400 - now % 86400
  {
  }

  /** A window lasts until its reset. */
  lemma WindowOf(unit: Unit, now: nat, later: nat)
    ensures WindowStart(unit, now + later) == WindowStart(unit, now) <==> later < CalculateReset(unit, now)
  {
    match unit
    case Second =>
      assert WindowStart(unit, now) == now && WindowStart(unit, now + later) == now + later;
    case Minute => MinuteWindow(now, later);
    case Hour => HourWindow(now, later);
    case Day => DayWindow(now, later);
  }

  /** The key of a descriptor changes exactly when the advertised reset time has
      passed, neither earlier nor later. */
  lemma KeyChangesAtReset(prefix: string, domain: string, entries: seq<Entry>, unit: Unit, now: nat, later: nat)
    ensures KeyText(prefix, domain, entries, WindowStart(unit, now + later)) ==
            KeyText(prefix, domain, entries, WindowStart(unit, now))
            <==> later < CalculateReset(unit, now)
  {
    WindowOf(unit, now, later);
    SameDescriptorKeys(prefix, domain, entries, WindowStart(unit, now + later), WindowStart(unit, now));
  }

  lemma MinuteStart(now: nat)
    ensures now / 60 * 60 % 60 == 0 && now / 60 * 60 <= now < now / 60 * 60 + 60
  {
  }

  lemma HourStart(now: nat)
    ensures now / 3600 * 3600 % 3600 == 0 && now / 3600 * 3600 <= now < now / 3600 * 3600 + 3600
  {
  }

  lemma DayStart(now: nat)
    ensures now / 86400 * 86400 % 86400 == 0 && now / 86400 * 86400 <= now < now / 86400 * 86400 + 86400
  {
  }

  /** The window of a time is the last beginning of one that is not later. */
  lemma WindowStartBegins(unit: Unit, now: nat)
    ensures BeginsWindow(unit, WindowStart(unit, now))
    ensures WindowStart(unit, now) <= now < WindowStart(unit, now) + CalculateReset(unit, WindowStart(unit, now))
  {
    match unit
    case Second => assert WindowStart(unit, now) == now;
    case Minute => MinuteStart(now);
    case Hour => HourStart(now);
    case Day => DayStart(now);
  }

  /** The spelling of a key: the prefix, the domain, every key and value in order, and the
      window, with underscores in between. */
  lemma KeySpelling(prefix: string, domain: string, entries: seq<Entry>, e: Entry, window: nat)
    ensures KeyText(prefix, domain, [], window) == prefix + domain + "_" + FormatInt(window)
    ensures exists head ::
              && KeyText(prefix, domain, entries, window) == head + FormatInt(window)
              && KeyText(prefix, domain, entries + [e], window) ==
                 head + e.key + "_" + e.value + "_" + FormatInt(window)
  {
    var text, w := EntriesText(entries), FormatInt(window);
    var head := prefix + domain + "_" + text;
    Unnest(prefix, domain, "", w);
    Unnest(prefix, domain, text, w);
    EntriesTextSnoc(entries, e);
    Unnest(prefix, domain, text + (e.key + "_" + e.value + "_"), w);
    Flatten(prefix + domain + "_", text, e.key, e.value);
    assert KeyText(prefix, domain, entries, window) == head + w;
  }

  lemma Unnest(prefix: string, domain: string, text: string, window: string)
    ensures prefix + (domain + "_" + (text + window)) == prefix + domain + "_" + text + window
  {
  }

  lemma Flatten(head: string, text: string, key: string, value: string)
    ensures head + (text + (key + "_" + value + "_")) == head + text + key + "_" + value + "_"
  {
  }

  predicate Plain(s: string) { '_' !in s }

  predicate PlainEntries(entries: seq<Entry>) {
    forall e | e in entries :: Plain(e.key) && Plain(e.value)
  }

  /** Cutting at the first underscore is unambiguous. */
  lemma CutUnique(a: string, x: string, b: string, y: string)
    requires Plain(a) && Plain(b) && a + "_" + x == b + "_" + y
    ensures a == b && x == y
  {
    var s, t := a + "_" + x, b + "_" + y;
    assert s[|a|] == '_' && t[|b|] == '_';
    assert forall i | 0 <= i < |a| :: s[i] == a[i] && a[i] != '_';
    assert forall i | 0 <= i < |b| :: t[i] == b[i] && b[i] != '_';
    assert |a| == |b|;
    assert a == s[..|a|] && b == t[..|b|] && x == s[|a| + 1..] && y == t[|b| + 1..];
  }

  lemma TextHasUnderscore(es: seq<Entry>, x: string)
    requires es != []
    ensures '_' in EntriesText(es) + x
  {
    assert (EntriesText(es) + x)[|es[0].key|] == '_';
  }

  lemma {:induction false} EntriesUnique(a: seq<Entry>, x: string, b: seq<Entry>, y: string)
    requires PlainEntries(a) && PlainEntries(b) && Plain(x) && Plain(y)
    requires EntriesText(a) + x == EntriesText(b) + y
    ensures a == b && x == y
    decreases |a|
  {
    if a == [] && b == [] {
      assert "" + x == x && "" + y == y;
    } else if a == [] {
      TextHasUnderscore(b, y);
      assert false;
    } else if b == [] {
      TextHasUnderscore(a, x);
      assert false;
    } else {
      assert a[0] in a && b[0] in b;
      var a', b' := EntriesText(a[1..]) + x, EntriesText(b[1..]) + y;
      assert EntriesText(a) + x == a[0].key + "_" + (a[0].value + "_" + a');
      assert EntriesText(b) + y == b[0].key + "_" + (b[0].value + "_" + b');
      CutUnique(a[0].key, a[0].value + "_" + a', b[0].key, b[0].value + "_" + b');
      CutUnique(a[0].value, a', b[0].value, b');
      assert forall e | e in a[1..] :: e in a;
      assert forall e | e in b[1..] :: e in b;
      EntriesUnique(a[1..], x, b[1..], y);
      assert a == [a[0]] + a[1..] && b == [b[0]] + b[1..];
    }
  }

  /** Without underscores in domain, keys and values, a cache key determines the
      domain, the entries and the window: different lookups never share a counter. */
  lemma KeyDeterminesLookup(
    prefix: string, d: string, es: seq<Entry>, w: nat, d': string, es': seq<Entry>, w': nat)
    requires Plain(d) && Plain(d') && PlainEntries(es) && PlainEntries(es')
    ensures KeyText(prefix, d, es, w) == KeyText(prefix, d', es', w') <==> d == d' && es == es' && w == w'
  {
    if KeyText(prefix, d, es, w) == KeyText(prefix, d', es', w') {
      var x, y := EntriesText(es) + FormatInt(w), EntriesText(es') + FormatInt(w');
      PrefixCancels(prefix, d + "_" + x, d' + "_" + y);
      CutUnique(d, x, d', y);
      ParseFormat(w);
      ParseFormat(w');
      EntriesUnique(es, FormatInt(w), es', FormatInt(w'));
    }
  }

  /** With underscores it does not: two descriptors of one domain can share a counter. */
  lemma UnderscoresCollide(prefix: string, domain: string, w: nat)
    ensures KeyText(prefix, domain, [Entry("a", "b_c")], w) == KeyText(prefix, domain, [Entry("a_b", "c")], w)
  {
    assert EntriesText([Entry("a", "b_c")]) == "a" + "_" + "b_c" + "_" == "a_b" + "_" + "c" + "_" ==
           EntriesText([Entry("a_b", "c")]);
  }

  /** Windows of different units can share a key as well, at every common window start. */
  lemma UnitsCollide(prefix: string, domain: string, entries: seq<Entry>, hour: nat)
    ensures KeyText(prefix, domain, entries, WindowStart(Hour, 3600 * hour)) ==
            KeyText(prefix, domain, entries, WindowStart(Minute, 3600 * hour))
  {
    assert WindowStart(Hour, 3600 * hour) == 3600 * hour == WindowStart(Minute, 3600 * hour);
  }
}
