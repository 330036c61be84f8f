/** The memcached state machine against the code: a call that is not interrupted, with its
    increments flushed, is a run of `MemcachedProtocol`, and has the counters, verdicts and
    cache entries that the contract of `MemcachedCache.MemcachedLimiter.DoLimitAndFlush` states. */
module MemcachedSolo {
  import opened Prelude
  import opened Limiter
  import opened LimitCall
  import opened MemcachedProtocol
  import MemcachedCache

  type Lookups = seq<LimitCall.Lookup>

  ghost predicate Runs(t: State, es: seq<Event>, u: State) { Valid(t, es) && Run(t, es) == u }

  lemma OneMore(t: State, e: Event, es: seq<Event>, u: State)
    requires Enabled(t, e) && Runs(Apply(t, e), es, u)
    ensures Runs(t, [e] + es, u)
  {
    assert ([e] + es)[1..] == es;
  }

  lemma {:induction false} RunConcat(t: State, a: seq<Event>, u: State, b: seq<Event>, v: State)
    requires Runs(t, a, u) && Runs(u, b, v)
    ensures Runs(t, a + b, v)
    decreases |a|
  {
    if a == [] {
      assert a + b == b;
    } else {
      assert (a + b)[1..] == a[1..] + b;
      RunConcat(Apply(t, a[0]), a[1..], u, b, v);
    }
  }

  /** The slots from `first` on are those of `task`, and no others. */
  ghost predicate Owns(t: State, task: nat, first: nat) {
    && first <= |t.slots|
    && (forall j | 0 <= j < first :: t.slots[j].task != task)
    && (forall j | first <= j < |t.slots| :: t.slots[j].task == task)
  }

  lemma OwnReached(t: State, task: nat, first: nat, rank: nat)
    requires Owns(t, task, first) && forall j | first <= j < |t.slots| :: Rank(t.slots[j].stage) >= rank
    ensures Reached(t, task, rank)
  {
  }

  /** Only events of one request. */
  ghost predicate Own(e: Event, task: nat, first: nat) {
    match e
    case Check(j) => j >= first
    case Fetch(j) => j >= first
    case Answer(j) => j >= first
    case Increment(j) => j >= first
    case Skip(j) => j >= first
    case Add(j) => j >= first
    case Retry(j) => j >= first
    case Enqueue(t) => t == task
    case Spawn(t) => t == task
    case Finish(t) => t == task
    case _ => false
  }

  ghost predicate AllOwn(es: seq<Event>, task: nat, first: nat) { forall e | e in es :: Own(e, task, first) }

  // ------------------------------------------------------------ probing the cache

  function Probed(x: Slot, caches: set<(nat, string)>): Slot {
    var known := x.cached && (x.instance, x.key) in caches;
    x.(stage := if known then Got else Wanted, localHit := known)
  }

  lemma {:induction false} CheckFrom(t: State, task: nat, first: nat, k: nat) returns (es: seq<Event>, u: State)
    requires Owns(t, task, first) && first <= k <= |t.slots|
    requires forall j | k <= j < |t.slots| :: t.slots[j].stage == Fresh
    ensures Runs(t, es, u) && AllOwn(es, task, first)
    ensures |u.slots| == |t.slots| && u == t.(slots := u.slots)
    ensures forall j | 0 <= j < |t.slots| :: u.slots[j] == if j < k then t.slots[j] else Probed(t.slots[j], t.caches)
    decreases |t.slots| - k
  {
    if k == |t.slots| {
      es, u := [], t;
    } else {
      es, u := CheckFrom(Apply(t, Check(k)), task, first, k + 1);
      OneMore(t, Check(k), es, u);
      es := [Check(k)] + es;
    }
  }

  // ---------------------------------------------------------------------- reading

  function Read1(x: Slot, items: map<string, uint32>): Slot {
    if x.stage.Wanted? then x.(stage := Got, before := Count(items, x.key)) else x
  }

  /** What reading changes: the slots and the history of reads. */
  ghost predicate OnlyReads(t: State, u: State) { u == t.(slots := u.slots, log := u.log) && |u.slots| == |t.slots| }

  lemma {:induction false} FetchFrom(t: State, task: nat, first: nat, k: nat) returns (es: seq<Event>, u: State)
    requires Owns(t, task, first) && first <= k <= |t.slots|
    requires forall j | first <= j < |t.slots| :: t.slots[j].stage == Wanted || t.slots[j].stage == Got
    requires forall j | k <= j < |t.slots| && t.slots[j].stage == Wanted ::
               Count(t.items, t.slots[j].key) < TWO_31 && Fits(t, j)
    ensures Runs(t, es, u) && AllOwn(es, task, first) && OnlyReads(t, u)
    ensures forall j | 0 <= j < |t.slots| :: u.slots[j] == if j < k then t.slots[j] else Read1(t.slots[j], t.items)
    decreases |t.slots| - k
  {
    if k == |t.slots| {
      es, u := [], t;
    } else if t.slots[k].stage == Got {
      es, u := FetchFrom(t, task, first, k + 1);
    } else {
      OwnReached(t, task, first, 1);
      es, u := FetchFrom(Apply(t, Fetch(k)), task, first, k + 1);
      OneMore(t, Fetch(k), es, u);
      es := [Fetch(k)] + es;
    }
  }

  // --------------------------------------------------------------------- answering

  function Decided1(x: Slot): Slot
    requires x.before + x.hits < TWO_32
  {
    x.(stage := Decided, verdict := Some(VerdictOf(x)))
  }

  function EntryOf(x: Slot): set<(nat, string)>
    requires x.before + x.hits < TWO_32
  {
    if VerdictOf(x).caches && x.cached then {(x.instance, x.key)} else {}
  }

  ghost predicate Sane(slots: seq<Slot>, k: nat) {
    forall j | k <= j < |slots| :: slots[j].before + slots[j].hits < TWO_32
  }

  /** The cache entries that the answers to the slots from `k` on make. */
  ghost function EntriesFrom(slots: seq<Slot>, k: nat): set<(nat, string)>
    requires k <= |slots| && Sane(slots, k)
    decreases |slots| - k
  {
    if k == |slots| then {} else EntryOf(slots[k]) + EntriesFrom(slots, k + 1)
  }

  lemma {:induction false} EntriesAgree(a: seq<Slot>, b: seq<Slot>, k: nat)
    requires |a| == |b| && k <= |a| && Sane(a, k) && Sane(b, k) && forall j | k <= j < |a| :: a[j] == b[j]
    ensures EntriesFrom(a, k) == EntriesFrom(b, k)
    decreases |a| - k
  {
    if k < |a| {
      EntriesAgree(a, b, k + 1);
    }
  }

  /** The same, told from the verdicts on the lookups. */
  lemma {:induction false} EntriesAreCached(
    slots: seq<Slot>, first: nat, c: Lookups, v: seq<Verdict>, instance: nat, cached: bool, k: nat)
    requires |slots| == first + |c| && |c| == |v| && k <= |c| && Sane(slots, first)
    requires forall j | 0 <= j < |c| ::
               var x := slots[first + j];
               && c[j].Look? && x.key == c[j].key && x.instance == instance && x.cached == cached
               && VerdictOf(x) == v[j]
    ensures EntriesFrom(slots, first + k) ==
            if cached then set j | k <= j < |c| && v[j].caches :: (instance, c[j].key) else {}
    decreases |c| - k
  {
    if k < |c| {
      var x := slots[first + k];
      assert EntryOf(x) == if v[k].caches && cached then {(instance, c[k].key)} else {};
      EntriesAreCached(slots, first, c, v, instance, cached, k + 1);
      assert first + (k + 1) == first + k + 1;
    }
  }

  lemma {:induction false} AnswerFrom(t: State, task: nat, first: nat, k: nat) returns (es: seq<Event>, u: State)
    requires Owns(t, task, first) && first <= k <= |t.slots|
    requires forall j | first <= j < |t.slots| :: Rank(t.slots[j].stage) >= 2
    requires forall j | k <= j < |t.slots| :: t.slots[j].stage == Got && t.slots[j].before + t.slots[j].hits < TWO_32
    ensures Runs(t, es, u) && AllOwn(es, task, first)
    ensures |u.slots| == |t.slots| && u == t.(slots := u.slots, caches := u.caches)
    ensures forall j | 0 <= j < |t.slots| :: u.slots[j] == if j < k then t.slots[j] else Decided1(t.slots[j])
    ensures u.caches == t.caches + EntriesFrom(t.slots, k)
    decreases |t.slots| - k
  {
    if k == |t.slots| {
      es, u := [], t;
    } else {
      OwnReached(t, task, first, 2);
      var next := Apply(t, Answer(k));
      EntriesAgree(next.slots, t.slots, k + 1);
      es, u := AnswerFrom(next, task, first, k + 1);
      OneMore(t, Answer(k), es, u);
      es := [Answer(k)] + es;
    }
  }

  // --------------------------------------------------------------------- applying

  /** The hits that the slots from `k` on still have to apply to a key. */
  ghost function Left(slots: seq<Slot>, k: nat, key: string): nat
    requires k <= |slots|
    decreases |slots| - k
  {
    if k == |slots| then 0
    else Left(slots, k + 1, key) + if slots[k].key == key && !slots[k].localHit then slots[k].hits else 0
  }

  lemma {:induction false} LeftAgrees(a: seq<Slot>, b: seq<Slot>, k: nat, key: string)
    requires |a| == |b| && k <= |a|
    requires forall j | k <= j < |a| :: a[j].key == b[j].key && a[j].localHit == b[j].localHit && a[j].hits == b[j].hits
    ensures Left(a, k, key) == Left(b, k, key)
    decreases |a| - k
  {
    if k < |a| {
      LeftAgrees(a, b, k + 1, key);
    }
  }

  /** Increment, or Add where there is nothing to increment. */
  lemma ApplyOne(t: State, task: nat, first: nat, k: nat) returns (es: seq<Event>, u: State)
    requires Owns(t, task, first) && first <= k < |t.slots| && task < |t.tasks| && t.tasks[task].phase.Running?
    requires t.slots[k].stage == Decided && (!t.slots[k].localHit ==> Fits(t, k))
    ensures Runs(t, es, u) && AllOwn(es, task, first)
    ensures u == t.(slots := t.slots[k := t.slots[k].(stage := Applied)], items := u.items)
    ensures forall key :: Count(u.items, key) ==
              Count(t.items, key) + if t.slots[k].key == key && !t.slots[k].localHit then t.slots[k].hits else 0
  {
    if t.slots[k].localHit {
      u := Apply(t, Event.Skip(k));
      OneMore(t, Event.Skip(k), [], u);
      es := [Event.Skip(k)] + [];
    } else if t.slots[k].key in t.items {
      u := Apply(t, Increment(k));
      OneMore(t, Increment(k), [], u);
      es := [Increment(k)] + [];
    } else {
      var missed := Apply(t, Increment(k));
      u := Apply(missed, Add(k));
      OneMore(missed, Add(k), [], u);
      OneMore(t, Increment(k), [Add(k)] + [], u);
      es := [Increment(k)] + ([Add(k)] + []);
    }
  }

  lemma {:induction false} ApplyFrom(t: State, task: nat, first: nat, k: nat) returns (es: seq<Event>, u: State)
    requires Owns(t, task, first) && first <= k <= |t.slots| && task < |t.tasks| && t.tasks[task].phase.Running?
    requires forall j | k <= j < |t.slots| :: t.slots[j].stage == Decided
    requires forall key :: Left(t.slots, k, key) > 0 ==> Count(t.items, key) + Left(t.slots, k, key) < TWO_32
    ensures Runs(t, es, u) && AllOwn(es, task, first)
    ensures |u.slots| == |t.slots| && u == t.(slots := u.slots, items := u.items)
    ensures forall j | 0 <= j < |t.slots| :: u.slots[j] == if j < k then t.slots[j] else t.slots[j].(stage := Applied)
    ensures forall key :: Count(u.items, key) == Count(t.items, key) + Left(t.slots, k, key)
    decreases |t.slots| - k
  {
    if k == |t.slots| {
      es, u := [], t;
    } else {
      var x := t.slots[k];
      assert Left(t.slots, k, x.key) >= if x.localHit then 0 else x.hits;
      var one, next := ApplyOne(t, task, first, k);
      var m := k + 1;
      forall key ensures Left(next.slots, m, key) == Left(t.slots, m, key) {
        LeftAgrees(next.slots, t.slots, m, key);
      }
      var rest;
      rest, u := ApplyFrom(next, task, first, k + 1);
      RunConcat(t, one, next, rest, u);
      es := one + rest;
    }
  }

  // ------------------------------------------------------------- a whole request

  /** A request to one instance; its descriptors may be checked or not. */
  datatype Asked = Asked(instance: nat, cached: bool, hits: uint32, d: Lookups)

  ghost function KnownTo(s: State, r: Asked): set<string> {
    if r.cached then set p | p in s.caches && p.0 == r.instance :: p.1 else {}
  }

  ghost function ChargesAt(s: State, r: Asked): (c: seq<Option<uint32>>)
    ensures |c| == |r.d|
  {
    MemcachedCache.Charges(r.d, KnownTo(s, r), r.hits)
  }

  ghost function VerdictsAt(s: State, r: Asked): (v: seq<Verdict>)
    ensures |v| == |r.d|
  {
    var before := MemcachedCache.Befores(r.d, KnownTo(s, r), s.items);
    Verdicts(r.d, before, MemcachedCache.Afters(before, r.hits), KnownTo(s, r), r.hits)
  }

  /** The counters that the request reads are below 2^31 and stay below 2^32. */
  ghost predicate Ready(s: State, r: Asked) {
    && r.hits >= 1 && (forall x | x in s.slots :: x.task < |s.tasks|)
    && forall i | 0 <= i < |r.d| && r.d[i].Look? && r.d[i].key !in KnownTo(s, r) ::
         && Count(s.items, r.d[i].key) < TWO_31
         && Count(s.items, r.d[i].key) + Added(r.d, ChargesAt(s, r), r.d[i].key, |r.d|) < TWO_32
  }

  function TargetOf(look: LimitCall.Lookup): Target
    requires look.Look?
  {
    Target(look.key, look.limit)
  }

  ghost function Targets(r: Asked): (ts: seq<Target>)
    ensures |ts| == |CheckedOnly(r.d)|
  {
    var c := CheckedOnly(r.d);
    seq(|c|, k requires 0 <= k < |c| => TargetOf(c[k]))
  }

  ghost function NewFor(s: State, r: Asked, look: LimitCall.Lookup): Slot
    requires look.Look?
  {
    NewSlot(|s.tasks|, r.instance, r.cached, r.hits, TargetOf(look))
  }

  /** The slot of a lookup when it has read. */
  ghost function ReadSlot(s: State, r: Asked, look: LimitCall.Lookup): Slot
    requires look.Look?
  {
    Read1(Probed(NewFor(s, r, look), s.caches), s.items)
  }

  lemma ReadSlotFacts(s: State, r: Asked, i: nat)
    requires Ready(s, r) && i < |r.d| && r.d[i].Look?
    ensures var x := ReadSlot(s, r, r.d[i]);
            && x.stage == Got && x.before + x.hits < TWO_32 && x.hits == r.hits
            && x.key == r.d[i].key && x.instance == r.instance && x.cached == r.cached
            && (x.localHit <==> r.d[i].key in KnownTo(s, r))
            && (!x.localHit ==> Count(s.items, x.key) < TWO_31 && Count(s.items, x.key) + x.hits < TWO_32)
            && VerdictOf(x) == VerdictsAt(s, r)[i]
  {
    var key := r.d[i].key;
    if key !in KnownTo(s, r) {
      OwnCharge(r.d, ChargesAt(s, r), i);
    }
  }

  /** A lookup's own charge is among what its key receives. */
  lemma {:induction false} OwnCharge(d: Lookups, charges: seq<Option<uint32>>, i: nat)
    requires i < |d| == |charges| && d[i].Look? && charges[i].Some?
    ensures Added(d, charges, d[i].key, |d|) >= charges[i].value
  {
    AddedGrows(d, charges, d[i].key, i + 1, |d|);
  }

  lemma {:induction false} AddedGrows(d: Lookups, charges: seq<Option<uint32>>, key: string, m: nat, n: nat)
    requires m <= n <= |d| == |charges|
    ensures Added(d, charges, key, m) <= Added(d, charges, key, n)
  {
    if m < n {
      AddedGrows(d, charges, key, m, n - 1);
    }
  }

  lemma CheckedFacts(s: State, r: Asked, k: nat)
    requires Ready(s, r) && k < |CheckedOnly(r.d)|
    ensures var x := ReadSlot(s, r, CheckedOnly(r.d)[k]);
            && x.stage == Got && x.before + x.hits < TWO_32
            && (!x.localHit ==> Count(s.items, x.key) < TWO_31 && Count(s.items, x.key) + x.hits < TWO_32)
  {
    var i := Origin(r.d, k);
    ReadSlotFacts(s, r, i);
  }

  /** The earlier slots are as before; `t` has one more for each checked descriptor. */
  ghost predicate Extends(s: State, t: State, r: Asked) {
    && |t.slots| == |s.slots| + |CheckedOnly(r.d)|
    && (forall j | 0 <= j < |s.slots| :: t.slots[j] == s.slots[j])
    && (forall j | |s.slots| <= j < |t.slots| :: t.slots[j].task == |s.tasks|)
  }

  lemma ExtendsOwns(s: State, t: State, r: Asked)
    requires Ready(s, r) && Extends(s, t, r)
    ensures Owns(t, |s.tasks|, |s.slots|)
  {
    forall j | 0 <= j < |s.slots| ensures t.slots[j].task != |s.tasks| {
      assert s.slots[j] in s.slots;
    }
  }

  ghost function Begins(r: Asked): Event { Begin(r.instance, r.cached, r.hits, Targets(r)) }

  lemma BeginExtends(s: State, r: Asked)
    requires Ready(s, r)
    ensures var t, c := Apply(s, Begins(r)), CheckedOnly(r.d);
            && Extends(s, t, r) && t.caches == s.caches && t.items == s.items
            && forall k | 0 <= k < |c| :: t.slots[|s.slots| + k] == NewFor(s, r, c[k])
  {
  }

  /** The request begins and probes the local cache. */
  lemma ProbeRuns(s: State, r: Asked) returns (es: seq<Event>, u: State)
    requires Ready(s, r)
    ensures Runs(Apply(s, Begins(r)), es, u) && AllOwn(es, |s.tasks|, |s.slots|) && Extends(s, u, r)
    ensures u == Apply(s, Begins(r)).(slots := u.slots)
    ensures forall k | 0 <= k < |CheckedOnly(r.d)| ::
              u.slots[|s.slots| + k] == Probed(NewFor(s, r, CheckedOnly(r.d)[k]), s.caches)
  {
    var t := Apply(s, Begins(r));
    BeginExtends(s, r);
    ExtendsOwns(s, t, r);
    es, u := CheckFrom(t, |s.tasks|, |s.slots|, |s.slots|);
  }

  lemma CanFetch(s: State, r: Asked, t: State)
    requires Ready(s, r) && Extends(s, t, r) && t.items == s.items
    requires forall k | 0 <= k < |CheckedOnly(r.d)| ::
               t.slots[|s.slots| + k] == Probed(NewFor(s, r, CheckedOnly(r.d)[k]), s.caches)
    ensures forall j | |s.slots| <= j < |t.slots| :: t.slots[j].stage == Wanted || t.slots[j].stage == Got
    ensures forall j | |s.slots| <= j < |t.slots| && t.slots[j].stage == Wanted ::
              Count(t.items, t.slots[j].key) < TWO_31 && Fits(t, j)
  {
    forall j | |s.slots| <= j < |t.slots|
      ensures t.slots[j].stage == Wanted || t.slots[j].stage == Got
      ensures t.slots[j].stage == Wanted ==> Count(t.items, t.slots[j].key) < TWO_31 && Fits(t, j)
    {
      var k := j - |s.slots|;
      assert t.slots[|s.slots| + k] == Probed(NewFor(s, r, CheckedOnly(r.d)[k]), s.caches);
      CheckedFacts(s, r, k);
    }
  }

  /** The request begins, probes the local cache and reads. */
  lemma ReadRuns(s: State, r: Asked) returns (es: seq<Event>, u: State)
    requires Ready(s, r)
    ensures Runs(Apply(s, Begins(r)), es, u) && AllOwn(es, |s.tasks|, |s.slots|)
    ensures Extends(s, u, r) && OnlyReads(Apply(s, Begins(r)), u)
    ensures forall k | 0 <= k < |CheckedOnly(r.d)| :: u.slots[|s.slots| + k] == ReadSlot(s, r, CheckedOnly(r.d)[k])
  {
    var checks, probed := ProbeRuns(s, r);
    BeginExtends(s, r);
    CanFetch(s, r, probed);
    ExtendsOwns(s, probed, r);
    var fetches;
    fetches, u := FetchFrom(probed, |s.tasks|, |s.slots|, |s.slots|);
    RunConcat(Apply(s, Begins(r)), checks, probed, fetches, u);
    es := checks + fetches;
  }

  ghost function DecidedSlot(s: State, r: Asked, k: nat): Slot
    requires Ready(s, r) && k < |CheckedOnly(r.d)|
  {
    CheckedFacts(s, r, k);
    Decided1(ReadSlot(s, r, CheckedOnly(r.d)[k]))
  }

  /** The cache entries of the call. */
  ghost function EntriesAt(s: State, r: Asked): set<(nat, string)> {
    if r.cached then set key | key in CachedKeys(r.d, VerdictsAt(s, r)) :: (r.instance, key) else {}
  }

  ghost function CheckedVerdicts(s: State, r: Asked): (v: seq<Verdict>)
    requires Ready(s, r)
    ensures |v| == |CheckedOnly(r.d)|
  {
    var n := |CheckedOnly(r.d)|;
    seq(n, k requires 0 <= k < n =>
      CheckedFacts(s, r, k);
      VerdictOf(ReadSlot(s, r, CheckedOnly(r.d)[k])))
  }

  lemma VerdictsCarried(s: State, r: Asked)
    requires Ready(s, r)
    ensures Carried(r.d, VerdictsAt(s, r), CheckedVerdicts(s, r))
  {
    forall i | 0 <= i < |r.d| && r.d[i].Look?
      ensures Position(r.d, i) < |CheckedOnly(r.d)| && CheckedOnly(r.d)[Position(r.d, i)] == r.d[i]
      ensures CheckedVerdicts(s, r)[Position(r.d, i)] == VerdictsAt(s, r)[i]
    {
      CheckedAt(r.d, i);
      ReadSlotFacts(s, r, i);
    }
  }

  lemma CachedPairs(r: Asked, c: Lookups, v: seq<Verdict>)
    requires |c| == |v| && forall k | 0 <= k < |c| :: c[k].Look?
    ensures (set j | 0 <= j < |c| && v[j].caches :: (r.instance, c[j].key)) ==
            (set key | key in CachedKeys(c, v) :: (r.instance, key))
  {
    var a, b := set j | 0 <= j < |c| && v[j].caches :: (r.instance, c[j].key),
                set key | key in CachedKeys(c, v) :: (r.instance, key);
    forall p | p in a ensures p in b {
      var j :| 0 <= j < |c| && v[j].caches && p == (r.instance, c[j].key);
      assert c[j].key in CachedKeys(c, v);
    }
  }

  lemma EntriesCarry(s: State, r: Asked, t: State)
    requires Ready(s, r) && Extends(s, t, r) && Sane(t.slots, |s.slots|)
    requires forall k | 0 <= k < |CheckedOnly(r.d)| :: t.slots[|s.slots| + k] == ReadSlot(s, r, CheckedOnly(r.d)[k])
    ensures EntriesFrom(t.slots, |s.slots|) == EntriesAt(s, r)
  {
    var first, c, v := |s.slots|, CheckedOnly(r.d), CheckedVerdicts(s, r);
    forall k | 0 <= k < |c|
      ensures var x := t.slots[first + k];
              x.key == c[k].key && x.instance == r.instance && x.cached == r.cached && VerdictOf(x) == v[k]
    {
      var i := Origin(r.d, k);
      ReadSlotFacts(s, r, i);
      assert t.slots[first + k] == ReadSlot(s, r, c[k]);
    }
    EntriesAreCached(t.slots, first, c, v, r.instance, r.cached, 0);
    CachedPairs(r, c, v);
    VerdictsCarried(s, r);
    KeysCarry(r.d, VerdictsAt(s, r), v);
    assert first + 0 == first;
  }

  /** The request is answered; nothing is stored yet. */
  lemma AnswersRun(s: State, r: Asked) returns (es: seq<Event>, u: State)
    requires Ready(s, r)
    ensures Runs(Apply(s, Begins(r)), es, u) && AllOwn(es, |s.tasks|, |s.slots|) && Extends(s, u, r)
    ensures forall k | 0 <= k < |CheckedOnly(r.d)| :: u.slots[|s.slots| + k] == DecidedSlot(s, r, k)
    ensures u.items == s.items && u.tasks == s.tasks + [Task(r.instance, Deciding)]
    ensures u.workers == s.workers && u.waitGroups == s.waitGroups
    ensures u.caches == s.caches + EntriesAt(s, r)
  {
    var first, task, c := |s.slots|, |s.tasks|, CheckedOnly(r.d);
    var reading, t := ReadRuns(s, r);
    forall j | first <= j < |t.slots| ensures t.slots[j].stage == Got && t.slots[j].before + t.slots[j].hits < TWO_32 {
      assert t.slots[first + (j - first)] == ReadSlot(s, r, c[j - first]);
      CheckedFacts(s, r, j - first);
    }
    ExtendsOwns(s, t, r);
    var answers;
    answers, u := AnswerFrom(t, task, first, first);
    RunConcat(Apply(s, Begins(r)), reading, t, answers, u);
    es := reading + answers;
    forall k | 0 <= k < |c| ensures u.slots[first + k] == DecidedSlot(s, r, k) {
      assert t.slots[first + k] == ReadSlot(s, r, c[k]);
    }
    EntriesCarry(s, r, t);
  }

  // -------------------------------------------------------- flushing the request

  /** The slots from `first` on have the charges of `c` to apply. */
  ghost predicate Owe(slots: seq<Slot>, first: nat, c: Lookups, charges: seq<Option<uint32>>) {
    && |slots| == first + |c| && |charges| == |c|
    && forall j | 0 <= j < |c| ::
         && c[j].Look? && slots[first + j].key == c[j].key && slots[first + j].localHit == charges[j].None?
         && (charges[j].Some? ==> charges[j].value == slots[first + j].hits)
  }

  /** What is left to apply is what the lookups charge. */
  lemma {:induction false} LeftIsAdded(
    slots: seq<Slot>, first: nat, c: Lookups, charges: seq<Option<uint32>>, key: string, k: nat)
    requires Owe(slots, first, c, charges) && k <= |c|
    ensures Left(slots, first + k, key) + Added(c, charges, key, k) == Added(c, charges, key, |c|)
    decreases |c| - k
  {
    if k < |c| {
      LeftIsAdded(slots, first, c, charges, key, k + 1);
      assert first + (k + 1) == (first + k) + 1;
    }
  }

  lemma ChargesCarry(s: State, r: Asked, key: string)
    ensures var c := CheckedOnly(r.d);
            Added(c, MemcachedCache.Charges(c, KnownTo(s, r), r.hits), key, |c|) ==
            Added(r.d, ChargesAt(s, r), key, |r.d|)
  {
    var d, c := r.d, CheckedOnly(r.d);
    var checked := MemcachedCache.Charges(c, KnownTo(s, r), r.hits);
    forall i | 0 <= i < |d| && d[i].Look?
      ensures Position(d, i) < |checked| && checked[Position(d, i)] == ChargesAt(s, r)[i] && c[Position(d, i)] == d[i]
    {
      CheckedAt(d, i);
    }
    SumsCarry(d, ChargesAt(s, r), checked, key, |d|);
    assert d[..|d|] == d;
  }

  /** Only keys that some lookup charges receive anything. */
  lemma {:induction false} ChargedKeyIsLookedUp(d: Lookups, known: set<string>, hits: uint32, key: string, n: nat)
    requires n <= |d| && Added(d, MemcachedCache.Charges(d, known, hits), key, n) > 0
    ensures exists i | 0 <= i < |d| && d[i].Look? :: d[i].key == key && key !in known
  {
    if !(d[n - 1].Look? && d[n - 1].key == key && key !in known) {
      ChargedKeyIsLookedUp(d, known, hits, key, n - 1);
    }
  }

  lemma DecidedOwe(s: State, t: State, r: Asked)
    requires Ready(s, r) && Extends(s, t, r)
    requires forall k | 0 <= k < |CheckedOnly(r.d)| :: t.slots[|s.slots| + k] == DecidedSlot(s, r, k)
    ensures Owe(t.slots, |s.slots|, CheckedOnly(r.d), MemcachedCache.Charges(CheckedOnly(r.d), KnownTo(s, r), r.hits))
  {
    var first, c := |s.slots|, CheckedOnly(r.d);
    forall k | 0 <= k < |c|
      ensures t.slots[first + k].key == c[k].key && t.slots[first + k].hits == r.hits
      ensures t.slots[first + k].localHit == (c[k].key in KnownTo(s, r))
    {
      var i := Origin(r.d, k);
      ReadSlotFacts(s, r, i);
      assert t.slots[first + k] == DecidedSlot(s, r, k);
    }
  }

  lemma LeftFits(s: State, t: State, r: Asked)
    requires Ready(s, r) && Extends(s, t, r) && t.items == s.items
    requires forall k | 0 <= k < |CheckedOnly(r.d)| :: t.slots[|s.slots| + k] == DecidedSlot(s, r, k)
    ensures forall key :: Left(t.slots, |s.slots|, key) == Added(r.d, ChargesAt(s, r), key, |r.d|)
    ensures forall key :: Left(t.slots, |s.slots|, key) > 0 ==>
              Count(t.items, key) + Left(t.slots, |s.slots|, key) < TWO_32
  {
    var first, c := |s.slots|, CheckedOnly(r.d);
    var charges := MemcachedCache.Charges(c, KnownTo(s, r), r.hits);
    DecidedOwe(s, t, r);
    forall key
      ensures Left(t.slots, first, key) == Added(r.d, ChargesAt(s, r), key, |r.d|)
      ensures Left(t.slots, first, key) > 0 ==> Count(t.items, key) + Left(t.slots, first, key) < TWO_32
    {
      LeftIsAdded(t.slots, first, c, charges, key, 0);
      ChargesCarry(s, r, key);
      if Left(t.slots, first, key) > 0 {
        ChargedKeyIsLookedUp(r.d, KnownTo(s, r), r.hits, key, |r.d|);
      }
    }
  }

  /** A decided request is submitted, and a new worker takes it. */
  lemma SubmitRuns(t: State, task: nat) returns (u: State)
    requires task < |t.tasks| && t.tasks[task].phase == Deciding && Reached(t, task, 3)
    ensures Runs(t, [Enqueue(task), Spawn(task)], u)
    ensures u == t.(tasks := u.tasks, workers := u.workers, waitGroups := u.waitGroups, starts := u.starts)
    ensures u.tasks == t.tasks[task := Task(t.tasks[task].owner, Running(|t.workers|))]
    ensures u.workers == t.workers + [Busy(task, 0)]
    ensures u.waitGroups == AddTo(t.waitGroups, t.tasks[task].owner, 1)
  {
    var queued := Apply(t, Enqueue(task));
    u := Apply(queued, Spawn(task));
    OneMore(queued, Spawn(task), [], u);
    OneMore(t, Enqueue(task), [Spawn(task)] + [], u);
    assert [Enqueue(task)] + ([Spawn(task)] + []) == [Enqueue(task), Spawn(task)];
  }

  lemma FinishRuns(t: State, task: nat) returns (u: State)
    requires task < |t.tasks| && t.tasks[task].phase.Running? && Reached(t, task, 6)
    requires t.tasks[task].phase.worker < |t.workers| && t.workers[t.tasks[task].phase.worker].Busy?
    ensures Runs(t, [Finish(task)], u)
    ensures u.slots == t.slots && u.items == t.items && u.caches == t.caches
    ensures u.waitGroups == AddTo(t.waitGroups, t.tasks[task].owner, -1)
  {
    u := Apply(t, Finish(task));
    OneMore(t, Finish(task), [], u);
    assert [Finish(task)] + [] == [Finish(task)];
  }

  /** A running request is applied and finished. */
  lemma WorkRuns(t: State, task: nat, first: nat) returns (es: seq<Event>, u: State)
    requires Owns(t, task, first) && task < |t.tasks| && t.tasks[task].phase.Running?
    requires t.tasks[task].phase.worker < |t.workers| && t.workers[t.tasks[task].phase.worker].Busy?
    requires forall j | first <= j < |t.slots| :: t.slots[j].stage == Decided
    requires forall key :: Left(t.slots, first, key) > 0 ==> Count(t.items, key) + Left(t.slots, first, key) < TWO_32
    ensures Runs(t, es, u) && AllOwn(es, task, first) && |u.slots| == |t.slots| && u.caches == t.caches
    ensures forall j | first <= j < |t.slots| :: u.slots[j] == t.slots[j].(stage := Applied)
    ensures forall key :: Count(u.items, key) == Count(t.items, key) + Left(t.slots, first, key)
    ensures u.waitGroups == AddTo(t.waitGroups, t.tasks[task].owner, -1)
  {
    var applies, applied := ApplyFrom(t, task, first, first);
    OwnReached(applied, task, first, 6);
    u := FinishRuns(applied, task);
    RunConcat(t, applies, applied, [Finish(task)], u);
    es := applies + [Finish(task)];
  }

  /** The increments are submitted to a new worker, applied and finished. */
  lemma FlushRuns(s: State, r: Asked, t: State) returns (es: seq<Event>, u: State)
    requires Ready(s, r) && Extends(s, t, r) && t.items == s.items
    requires forall k | 0 <= k < |CheckedOnly(r.d)| :: t.slots[|s.slots| + k] == DecidedSlot(s, r, k)
    requires t.tasks == s.tasks + [Task(r.instance, Deciding)]
    ensures Runs(t, es, u) && AllOwn(es, |s.tasks|, |s.slots|) && |u.slots| == |t.slots| && u.caches == t.caches
    ensures forall j | |s.slots| <= j < |t.slots| :: u.slots[j] == t.slots[j].(stage := Applied)
    ensures forall key :: Count(u.items, key) == Count(s.items, key) + Added(r.d, ChargesAt(s, r), key, |r.d|)
    ensures forall instance :: WaitOf(u.waitGroups, instance) == WaitOf(t.waitGroups, instance)
  {
    var first, task := |s.slots|, |s.tasks|;
    AllDecided(s, r, t);
    ExtendsOwns(s, t, r);
    OwnReached(t, task, first, 3);
    LeftFits(s, t, r);
    var running := SubmitRuns(t, task);
    var work;
    work, u := WorkRuns(running, task, first);
    RunConcat(t, [Enqueue(task), Spawn(task)], running, work, u);
    es := [Enqueue(task), Spawn(task)] + work;
  }

  lemma AllDecided(s: State, r: Asked, t: State)
    requires Ready(s, r) && Extends(s, t, r)
    requires forall k | 0 <= k < |CheckedOnly(r.d)| :: t.slots[|s.slots| + k] == DecidedSlot(s, r, k)
    ensures forall j | |s.slots| <= j < |t.slots| :: t.slots[j].stage == Decided
  {
    forall j | |s.slots| <= j < |t.slots| ensures t.slots[j].stage == Decided {
      assert t.slots[|s.slots| + (j - |s.slots|)] == DecidedSlot(s, r, j - |s.slots|);
    }
  }

  lemma VerdictsCarry(s: State, r: Asked, t: State)
    requires Ready(s, r) && Extends(s, t, r)
    requires forall k | 0 <= k < |CheckedOnly(r.d)| :: t.slots[|s.slots| + k] == DecidedSlot(s, r, k)
    ensures forall i | 0 <= i < |r.d| && r.d[i].Look? ::
              && Position(r.d, i) < |CheckedOnly(r.d)|
              && t.slots[|s.slots| + Position(r.d, i)].verdict == Some(VerdictsAt(s, r)[i])
  {
    forall i | 0 <= i < |r.d| && r.d[i].Look?
      ensures Position(r.d, i) < |CheckedOnly(r.d)|
      ensures t.slots[|s.slots| + Position(r.d, i)].verdict == Some(VerdictsAt(s, r)[i])
    {
      CheckedAt(r.d, i);
      ReadSlotFacts(s, r, i);
      assert t.slots[|s.slots| + Position(r.d, i)] == DecidedSlot(s, r, Position(r.d, i));
    }
  }

  /** What the contract of `DoLimitAndFlush` says of a call, in a state of the machine. */
  ghost predicate Flushed(s: State, t: State, r: Asked) {
    && (forall key :: Count(t.items, key) == Count(s.items, key) + Added(r.d, ChargesAt(s, r), key, |r.d|))
    && t.caches == s.caches + EntriesAt(s, r)
    && |t.slots| == |s.slots| + |CheckedOnly(r.d)|
    && (forall i | 0 <= i < |r.d| && r.d[i].Look? ::
          && Position(r.d, i) < |CheckedOnly(r.d)|
          && t.slots[|s.slots| + Position(r.d, i)].verdict == Some(VerdictsAt(s, r)[i]))
    && forall instance :: WaitOf(t.waitGroups, instance) == WaitOf(s.waitGroups, instance)
  }

  /** For every request there is a run of its own events alone that takes the machine to
      the counters, cache entries and verdicts of the contract of `DoLimitAndFlush`, with
      every wait group where it was. */
  lemma SoloIsFlushedCall(s: State, r: Asked)
    requires Ready(s, r)
    ensures exists es ::
              && AllOwn(es, |s.tasks|, |s.slots|)
              && Valid(s, [Begins(r)] + es) && Flushed(s, Run(s, [Begins(r)] + es), r)
  {
    var answers, t := AnswersRun(s, r);
    var flush, u := FlushRuns(s, r, t);
    RunConcat(Apply(s, Begins(r)), answers, t, flush, u);
    OneMore(s, Begins(r), answers + flush, u);
    VerdictsCarry(s, r, t);
    assert Flushed(s, u, r);
    assert AllOwn(answers + flush, |s.tasks|, |s.slots|);
  }
}
