/** Lifetimes of the Redis counters. Each INCRBY is followed by an EXPIRE that
    refreshes the time to live with the divider of the unit plus jitter
    (`src/redis/fixed_cache_impl.go`). Under that discipline expiry is invisible
    while a window is open, so the other models may leave it out, and counters do
    not linger. */
module Expiry {
  import opened Prelude
  import opened Limiter

  datatype Entry = Entry(value: nat, deadline: Option<nat>)

  datatype State = State(now: nat, entries: map<string, Entry>)

  datatype Event = Tick(seconds: nat) | IncrBy(key: string, amount: nat) | Expire(key: string, seconds: nat)

  /** The window that a cache key belongs to. */
  datatype Window = Window(start: nat, unit: Unit)

  function End(w: Window): nat { w.start + UnitToDivider(w.unit) }

  predicate Live(s: State, key: string) {
    key in s.entries && (s.entries[key].deadline.Some? ==> s.now < s.entries[key].deadline.value)
  }

  /** What Redis answers about a key; an expired key is a missing key. */
  function ValueOf(s: State, key: string): nat {
    if Live(s, key) then s.entries[key].value else 0
  }

  function Apply(s: State, e: Event): State {
    match e
    case Tick(seconds) => s.(now := s.now + seconds)
    case IncrBy(key, amount) =>
      var deadline := if Live(s, key) then s.entries[key].deadline else None;
      s.(entries := s.entries[key := Entry(ValueOf(s, key) + amount, deadline)])
    case Expire(key, seconds) =>
      if Live(s, key) then s.(entries := s.entries[key := s.entries[key].(deadline := Some(s.now + seconds))]) else s
  }

  function Run(s: State, es: seq<Event>): State
    decreases |es|
  {
    if es == [] then s else Run(Apply(s, es[0]), es[1..])
  }

  /** The expiration that `DoLimit` computes from the unit and the drawn jitter. */
  function ExpirationSeconds(unit: Unit, jitter: nat): nat { UnitToDivider(unit) + jitter }

  /** The time to live is the length of a window and the drawn jitter on top. */
  lemma TtlIsWindowAndJitter(unit: Unit, start: nat, jitter: nat)
    requires BeginsWindow(unit, start)
    ensures ExpirationSeconds(unit, jitter) == CalculateReset(unit, start) + jitter
  {
  }

  /** Commands on a key run while its window is open; jitter is drawn below
      `maxJitter`, or is 0 when there is none. */
  predicate Disciplined(s: State, e: Event, windows: map<string, Window>, maxJitter: nat) {
    match e
    case Tick(_) => true
    case IncrBy(key, _) => key in windows && windows[key].start <= s.now < End(windows[key])
    case Expire(key, seconds) =>
      && key in windows && windows[key].start <= s.now < End(windows[key])
      && exists jitter: nat ::
           jitter <= Max(0, maxJitter - 1) && seconds == ExpirationSeconds(windows[key].unit, jitter)
  }

  ghost predicate DisciplinedRun(s: State, es: seq<Event>, windows: map<string, Window>, maxJitter: nat)
    decreases |es|
  {
    es != [] ==>
      && Disciplined(s, es[0], windows, maxJitter)
      && DisciplinedRun(Apply(s, es[0]), es[1..], windows, maxJitter)
  }

  ghost function AmountsOn(key: string): Event -> nat {
    (e: Event) => if e.IncrBy? && e.key == key then e.amount else 0
  }

  /** Deadlines of a key lie after its window and before the bound. */
  predicate DeadlineOk(s: State, key: string, w: Window, maxJitter: nat) {
    key in s.entries && s.entries[key].deadline.Some? ==>
      End(w) <= s.entries[key].deadline.value < End(w) + UnitToDivider(w.unit) + Max(1, maxJitter)
  }

  ghost predicate Faithful(s: State, key: string, w: Window, total: nat) {
    s.now < End(w) ==> ValueOf(s, key) == total
  }

  lemma StepKeepsFaithful(s: State, e: Event, windows: map<string, Window>, maxJitter: nat, key: string, total: nat)
    requires key in windows && Disciplined(s, e, windows, maxJitter)
    requires DeadlineOk(s, key, windows[key], maxJitter) && Faithful(s, key, windows[key], total)
    ensures DeadlineOk(Apply(s, e), key, windows[key], maxJitter)
    ensures Faithful(Apply(s, e), key, windows[key], total + AmountsOn(key)(e))
  {
  }

  /** While the window of a key is open, its counter is the sum of all amounts added
      to it: whatever the jitter, nothing expires early, across every sequence of
      refreshes and any interleaving of calls. */
  lemma {:induction false} NothingExpiresEarly(
    s: State, es: seq<Event>, windows: map<string, Window>, maxJitter: nat, key: string, total: nat)
    requires key in windows && DisciplinedRun(s, es, windows, maxJitter)
    requires DeadlineOk(s, key, windows[key], maxJitter) && Faithful(s, key, windows[key], total)
    ensures DeadlineOk(Run(s, es), key, windows[key], maxJitter)
    ensures Run(s, es).now < End(windows[key]) ==> ValueOf(Run(s, es), key) == total + Sum(es, AmountsOn(key))
    decreases |es|
  {
    if es != [] {
      StepKeepsFaithful(s, es[0], windows, maxJitter, key, total);
      var before := total + AmountsOn(key)(es[0]);
      NothingExpiresEarly(Apply(s, es[0]), es[1..], windows, maxJitter, key, before);
      assert es == [es[0]] + es[1..];
      SumConcat([es[0]], es[1..], AmountsOn(key));
      assert [es[0]][..0] == [];
    }
  }

  ghost predicate Settled(s: State, key: string) {
    key in s.entries && s.entries[key].deadline.Some?
  }

  /** Once a counter has a deadline it keeps one. */
  lemma {:induction false} SettledStays(
    s: State, es: seq<Event>, windows: map<string, Window>, maxJitter: nat, key: string)
    requires key in windows && DisciplinedRun(s, es, windows, maxJitter)
    requires DeadlineOk(s, key, windows[key], maxJitter) && Settled(s, key)
    ensures Settled(Run(s, es), key) && DeadlineOk(Run(s, es), key, windows[key], maxJitter)
    decreases |es|
  {
    if es != [] {
      SettledStays(Apply(s, es[0]), es[1..], windows, maxJitter, key);
    }
  }

  lemma {:induction false} RunConcat(s: State, a: seq<Event>, b: seq<Event>)
    ensures Run(s, a + b) == Run(Run(s, a), b)
    decreases |a|
  {
    if a == [] {
      assert a + b == b;
    } else {
      assert (a + b)[1..] == a[1..] + b;
      RunConcat(Apply(s, a[0]), a[1..], b);
    }
  }

  lemma {:induction false} DisciplinedConcat(
    s: State, a: seq<Event>, b: seq<Event>, windows: map<string, Window>, maxJitter: nat)
    requires DisciplinedRun(s, a + b, windows, maxJitter)
    ensures DisciplinedRun(s, a, windows, maxJitter) && DisciplinedRun(Run(s, a), b, windows, maxJitter)
    decreases |a|
  {
    if a == [] {
      assert a + b == b;
    } else {
      assert (a + b)[1..] == a[1..] + b;
      DisciplinedConcat(Apply(s, a[0]), a[1..], b, windows, maxJitter);
    }
  }

  lemma {:induction false} PresentStays(s: State, es: seq<Event>, key: string)
    requires key in s.entries || exists e | e in es :: e.IncrBy? && e.key == key
    ensures key in Run(s, es).entries
    decreases |es|
  {
    if es != [] {
      PresentStays(Apply(s, es[0]), es[1..], key);
    }
  }

  const START := State(0, map[])

  /** No counter lingers: after a run in which some INCRBY on the key was followed,
      at any distance, by an EXPIRE on it, the key is gone once two dividers and
      the largest jitter have passed since its window began, no matter how many
      refreshes came later. */
  lemma CounterIsGoneAfterwards(
    a: seq<Event>, refresh: Event, b: seq<Event>, windows: map<string, Window>, maxJitter: nat)
    requires refresh.Expire? && refresh.key in windows
    requires exists e | e in a :: e.IncrBy? && e.key == refresh.key
    requires DisciplinedRun(START, a + [refresh] + b, windows, maxJitter)
    ensures var s, w := Run(START, a + [refresh] + b), windows[refresh.key];
            s.now >= w.start + 2 * UnitToDivider(w.unit) + maxJitter ==> !Live(s, refresh.key)
  {
    var key := refresh.key;
    var w := windows[key];
    assert a + [refresh] + b == a + ([refresh] + b);
    RunConcat(START, a, [refresh] + b);
    DisciplinedConcat(START, a, [refresh] + b, windows, maxJitter);
    var s := Run(START, a);
    assert ([refresh] + b)[1..] == b && ([refresh] + b)[0] == refresh;
    NothingExpiresEarly(START, a, windows, maxJitter, key, 0);
    PresentStays(START, a, key);
    StepKeepsFaithful(s, refresh, windows, maxJitter, key, Sum(a, AmountsOn(key)));
    assert Settled(Apply(s, refresh), key);
    SettledStays(Apply(s, refresh), b, windows, maxJitter, key);
  }
}
