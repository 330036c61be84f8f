/** How far the memcached limiter can over-admit. */
module MemcachedAdmission {
  import opened Prelude
  import opened Limiter
  import opened MemcachedProtocol
  import opened MemcachedExactlyOnce

  predicate WasRead(x: Slot, key: string) {
    x.key == key && Rank(x.stage) >= 2 && !x.localHit
  }

  /** The hits of all lookups that have read the counter of `key`. */
  ghost function ReadOn(key: string): Slot -> nat {
    (x: Slot) => if WasRead(x, key) then x.hits else 0
  }

  ghost function LoggedOn(key: string): Read -> nat {
    (r: Read) => if r.key == key then r.hits else 0
  }

  predicate ReadsWithin(r: Read, key: string, max: nat) {
    r.key == key && r.limit.quota.perUnit <= max && r.value + r.hits <= r.limit.quota.perUnit
  }

  /** The hits whose read left them within a quota of at most `max`. */
  ghost function LoggedWithin(key: string, max: nat): Read -> nat {
    (r: Read) => if ReadsWithin(r, key, max) then r.hits else 0
  }

  ghost function ReadWithin(key: string, max: nat): Slot -> nat {
    (x: Slot) =>
      if WasRead(x, key) && x.limit.quota.perUnit <= max && x.before + x.hits <= x.limit.quota.perUnit
      then x.hits else 0
  }

  /** Each read returned everything read before it that was no longer pending. */
  ghost predicate LogOk(log: seq<Read>) {
    forall n | 0 <= n < |log| ::
      log[n].value + log[n].pending == Sum(log[..n], LoggedOn(log[n].key))
  }

  ghost predicate LogMatches(s: State, key: string) {
    Sum(s.slots, ReadOn(key)) == Sum(s.log, LoggedOn(key))
  }

  ghost predicate WithinMatches(s: State, key: string, max: nat) {
    Sum(s.slots, ReadWithin(key, max)) == Sum(s.log, LoggedWithin(key, max))
  }

  /** Only a Fetch makes a lookup one that has read. */
  lemma OnlyFetchReads(s: State, e: Event, key: string)
    requires Inv(s) && Enabled(s, e) && Touches(e)
    ensures |Apply(s, e).slots| == |s.slots|
    ensures var x, y := s.slots[e.slot], Apply(s, e).slots[e.slot];
            && y.hits == x.hits && y.limit == x.limit && y.key == x.key
            && (!e.Fetch? ==> y.before == x.before && WasRead(x, key) == WasRead(y, key))
            && (e.Fetch? ==>
                  !WasRead(x, key) && (WasRead(y, key) <==> x.key == key) && y.before == Count(s.items, x.key))
  {
    assert SlotOk(s, s.slots[e.slot]);
  }

  lemma LogAfterStep(s: State, e: Event, f: Read -> nat)
    requires Enabled(s, e)
    ensures !e.Fetch? ==> Apply(s, e).log == s.log
    ensures e.Fetch? ==>
              && |Apply(s, e).log| == |s.log| + 1 && Apply(s, e).log[..|s.log|] == s.log
              && Sum(Apply(s, e).log, f) == Sum(s.log, f) + f(Apply(s, e).log[|s.log|])
  {
  }

  lemma StepKeepsLogMatches(s: State, e: Event, key: string)
    requires Inv(s) && Enabled(s, e) && LogMatches(s, key)
    ensures LogMatches(Apply(s, e), key)
  {
    SumAfterStep(s, e, ReadOn(key));
    LogAfterStep(s, e, LoggedOn(key));
    if Touches(e) {
      OnlyFetchReads(s, e, key);
    }
  }

  lemma StepKeepsWithinMatches(s: State, e: Event, key: string, max: nat)
    requires Inv(s) && Enabled(s, e) && WithinMatches(s, key, max)
    ensures WithinMatches(Apply(s, e), key, max)
  {
    SumAfterStep(s, e, ReadWithin(key, max));
    LogAfterStep(s, e, LoggedWithin(key, max));
    if Touches(e) {
      WithinAfterTouch(s, e, key, max);
    }
  }

  lemma WithinAfterTouch(s: State, e: Event, key: string, max: nat)
    requires Inv(s) && Enabled(s, e) && Touches(e)
    ensures |Apply(s, e).slots| == |s.slots|
    ensures var f, x, y := ReadWithin(key, max), s.slots[e.slot], Apply(s, e).slots[e.slot];
            if e.Fetch? then
              |Apply(s, e).log| == |s.log| + 1 && f(y) == f(x) + LoggedWithin(key, max)(Apply(s, e).log[|s.log|])
            else f(y) == f(x)
  {
    OnlyFetchReads(s, e, key);
  }

  /** Stored plus pending is everything read. */
  lemma ReadsSplit(s: State, key: string)
    requires Inv(s) && Balanced(s, key)
    ensures Sum(s.slots, ReadOn(key)) == Count(s.items, key) + Sum(s.slots, UnappliedOn(key))
  {
    SumPlus(s.slots, AppliedOn(key), UnappliedOn(key), ReadOn(key));
  }

  lemma StepKeepsLogOk(s: State, e: Event)
    requires Inv(s) && Enabled(s, e) && LogOk(s.log)
    requires e.Fetch? ==> Balanced(s, s.slots[e.slot].key) && LogMatches(s, s.slots[e.slot].key)
    ensures LogOk(Apply(s, e).log)
  {
    if e.Fetch? {
      ReadsSplit(s, s.slots[e.slot].key);
      var log := Apply(s, e).log;
      assert log[..|s.log|] == s.log;
      forall n | 0 <= n < |s.log|
        ensures log[n].value + log[n].pending == Sum(log[..n], LoggedOn(log[n].key))
      {
        assert log[..n] == s.log[..n];
      }
    }
  }

  ghost predicate Admissible(s: State) {
    && Good(s) && LogOk(s.log)
    && (forall k :: LogMatches(s, k))
    && (forall k, max: nat :: WithinMatches(s, k, max))
  }

  lemma StepKeepsAdmissible(s: State, e: Event)
    requires Admissible(s) && Enabled(s, e)
    ensures LogOk(Apply(s, e).log)
    ensures forall k :: LogMatches(Apply(s, e), k)
    ensures forall k, max: nat :: WithinMatches(Apply(s, e), k, max)
  {
    forall k ensures LogMatches(Apply(s, e), k) {
      StepKeepsLogMatches(s, e, k);
    }
    forall k, max: nat ensures WithinMatches(Apply(s, e), k, max) {
      StepKeepsWithinMatches(s, e, k, max);
    }
    StepKeepsLogOk(s, e);
  }

  lemma {:induction false} RunKeepsAdmissible(s: State, es: seq<Event>)
    requires Admissible(s) && Valid(s, es)
    ensures Admissible(Run(s, es))
    decreases |es|
  {
    if es != [] {
      RunKeepsGood(s, [es[0]]);
      assert Run(s, [es[0]]) == Apply(s, es[0]);
      StepKeepsAdmissible(s, es[0]);
      RunKeepsAdmissible(Apply(s, es[0]), es[1..]);
    }
  }

  lemma InitIsAdmissible()
    ensures Admissible(INIT)
  {
    InitIsGood();
  }

  /** The position of the last read within the quota; `|log|` if there is none. */
  ghost function LastWithin(log: seq<Read>, key: string, max: nat): (n: nat)
    ensures n <= |log|
    ensures n < |log| ==> ReadsWithin(log[n], key, max)
    ensures forall i | 0 <= i < |log| && (n == |log| || n < i) :: !ReadsWithin(log[i], key, max)
  {
    if log == [] then 0
    else
      var m := |log| - 1;
      if ReadsWithin(log[m], key, max) then m
      else
        var n := LastWithin(log[..m], key, max);
        if n == m then |log| else n
  }

  lemma LogBoundsAdmission(log: seq<Read>, key: string, max: nat)
    requires LogOk(log)
    ensures var n := LastWithin(log, key, max);
            Sum(log, LoggedWithin(key, max)) <= if n < |log| then max + log[n].pending else 0
  {
    var n := LastWithin(log, key, max);
    if n == |log| {
      SumZero(log, LoggedWithin(key, max));
    } else {
      var head, r, rest := log[..n], log[n], log[n + 1..];
      assert log == head + [r] + rest;
      SumConcat(head + [r], rest, LoggedWithin(key, max));
      SumConcat(head, [r], LoggedWithin(key, max));
      SumOfOne(r, LoggedWithin(key, max));
      SumZero(rest, LoggedWithin(key, max));
      SumMonotone(head, LoggedWithin(key, max), LoggedOn(key));
    }
  }

  /** The within-limit statistic of the answers on `key` whose quota is at most `max`. */
  ghost function WithinOn(key: string, max: nat): Slot -> nat {
    (x: Slot) =>
      if x.key == key && x.limit.quota.perUnit <= max && x.verdict.Some?
      then x.verdict.value.delta.withinLimit else 0
  }

  /** Over-admission bound: in every run the hits judged within a quota of at most
      `max` exceed `max` by no more than the hits that had been read but not yet
      applied when the last such lookup read the counter. */
  lemma OverAdmissionBound(es: seq<Event>, key: string, max: nat)
    requires Valid(INIT, es)
    ensures var s := Run(INIT, es);
            var n := LastWithin(s.log, key, max);
            Sum(s.slots, WithinOn(key, max)) <= if n < |s.log| then max + s.log[n].pending else 0
  {
    var s := Run(INIT, es);
    InitIsAdmissible();
    RunKeepsAdmissible(INIT, es);
    assert WithinMatches(s, key, max);
    forall x | x in s.slots ensures WithinOn(key, max)(x) <= ReadWithin(key, max)(x) {
      assert SlotOk(s, x);
    }
    SumMonotone(s.slots, WithinOn(key, max), ReadWithin(key, max));
    LogBoundsAdmission(s.log, key, max);
  }

  /** When nothing is pending at the last read within the quota, the quota holds. */
  lemma NothingPendingNothingOver(es: seq<Event>, key: string, max: nat)
    requires Valid(INIT, es)
    requires var log := Run(INIT, es).log; var n := LastWithin(log, key, max); n < |log| ==> log[n].pending == 0
    ensures Sum(Run(INIT, es).slots, WithinOn(key, max)) <= max
  {
    OverAdmissionBound(es, key, max);
  }
}
