/** Runs of the memcached limiter that show its limits: the over-admission bound is
    attained, and a local cache can reject early. */
module MemcachedWitnesses {
  import opened Prelude
  import opened Limiter
  import opened MemcachedProtocol
  import opened MemcachedExactlyOnce
  import opened MemcachedAdmission
  import opened MemcachedRejection

  ghost predicate Leads(t: State, e: Event, u: State) { Enabled(t, e) && Apply(t, e) == u }

  ghost predicate Runs(t: State, es: seq<Event>, u: State) { Valid(t, es) && Run(t, es) == u }

  lemma {:induction false} RunConcat(t: State, a: seq<Event>, u: State, b: seq<Event>, v: State)
    requires Runs(t, a, u) && Runs(u, b, v)
    ensures Runs(t, a + b, v)
    decreases |a|
  {
    if a == [] {
      assert a + b == b;
    } else {
      assert (a + b)[1..] == a[1..] + b;
      RunConcat(Apply(t, a[0]), a[1..], u, b, v);
    }
  }

  lemma OneStep(t: State, e: Event, u: State)
    requires Leads(t, e, u)
    ensures Runs(t, [e], u)
  {
    assert [e][1..] == [];
    assert Valid(u, []) && Run(u, []) == u;
  }

  /** A request with one lookup. */
  datatype Single = Single(instance: nat, cached: bool, hits: uint32, target: Target)

  function Started(s: State, r: Single): State {
    s.(tasks := s.tasks + [Task(r.instance, Deciding)],
       slots := s.slots + [NewSlot(|s.tasks|, r.instance, r.cached, r.hits, r.target)])
  }

  function Last(s: State, x: Slot): State
    requires s.slots != []
  {
    s.(slots := s.slots[|s.slots| - 1 := x])
  }

  lemma Starts(s: State, r: Single)
    requires r.hits >= 1
    ensures Leads(s, Begin(r.instance, r.cached, r.hits, [r.target]), Started(s, r))
  {
    assert NewSlots(|s.tasks|, r.instance, r.cached, r.hits, [r.target]) ==
           [NewSlot(|s.tasks|, r.instance, r.cached, r.hits, r.target)];
  }

  /** Only its own lookup belongs to a request that has just begun. */
  lemma OwnIsLast(s: State, r: Single, x: Slot, rank: nat)
    requires Inv(s) && x.task == |s.tasks| && Rank(x.stage) >= rank
    ensures Reached(Last(Started(s, r), x), |s.tasks|, rank)
  {
    var t := Last(Started(s, r), x);
    assert t.slots == s.slots + [x];
    forall y | y in s.slots ensures y.task < |s.tasks| {
      assert SlotOk(s, y);
    }
  }

  // ------------------------------------------------------------ reading requests

  predicate CanRead(s: State, r: Single) {
    && r.hits >= 1 && !(r.cached && (r.instance, r.target.key) in s.caches)
    && Count(s.items, r.target.key) < TWO_31 && Count(s.items, r.target.key) + r.hits < TWO_32
  }

  ghost function Fresh0(s: State, r: Single): Slot { NewSlot(|s.tasks|, r.instance, r.cached, r.hits, r.target) }

  ghost function Got2(s: State, r: Single): Slot { Fresh0(s, r).(stage := Got, before := Count(s.items, r.target.key)) }

  ghost function Decided3(s: State, r: Single): Slot
    requires CanRead(s, r)
  {
    Got2(s, r).(stage := Decided, verdict := Some(VerdictOf(Got2(s, r))))
  }

  ghost function Fetched(s: State, r: Single): State {
    Last(Started(s, r), Got2(s, r)).(
      log := s.log + [Read(r.target.key, r.target.limit, r.hits, Count(s.items, r.target.key),
                           Sum(s.slots, UnappliedOn(r.target.key)))])
  }

  /** The state after a request has read and was answered. */
  ghost function Answered(s: State, r: Single): State
    requires CanRead(s, r)
  {
    var t := Last(Fetched(s, r), Decided3(s, r));
    t.(caches := s.caches + if VerdictOf(Got2(s, r)).caches && r.cached then {(r.instance, r.target.key)} else {})
  }

  function ReadEvents(n: nat, r: Single): seq<Event> {
    [Begin(r.instance, r.cached, r.hits, [r.target])] + ([Check(n)] + ([Fetch(n)] + [Answer(n)]))
  }

  lemma FetchLeads(s: State, r: Single)
    requires Inv(s) && CanRead(s, r)
    ensures var wanted := Fresh0(s, r).(stage := Wanted);
            Leads(Last(Started(s, r), wanted), Fetch(|s.slots|), Fetched(s, r))
  {
    var key := r.target.key;
    var wanted := Fresh0(s, r).(stage := Wanted);
    var t := Last(Started(s, r), wanted);
    OwnIsLast(s, r, wanted, 1);
    assert t.slots == s.slots + [wanted];
    SumConcat(s.slots, [wanted], UnappliedOn(key));
    SumOfOne(wanted, UnappliedOn(key));
    assert Apply(t, Fetch(|s.slots|)).slots == Last(Started(s, r), Got2(s, r)).slots;
  }

  lemma AnswerLeads(s: State, r: Single)
    requires Inv(s) && CanRead(s, r)
    ensures Leads(Fetched(s, r), Answer(|s.slots|), Answered(s, r))
  {
    OwnIsLast(s, r, Got2(s, r), 2);
    assert Reached(Fetched(s, r), |s.tasks|, 2);
    assert Fetched(s, r).slots[|s.slots|] == Got2(s, r);
  }

  lemma ReadRuns(s: State, r: Single)
    requires Inv(s) && CanRead(s, r)
    ensures Runs(s, ReadEvents(|s.slots|, r), Answered(s, r))
  {
    var n, wanted := |s.slots|, Fresh0(s, r).(stage := Wanted);
    var t := Last(Started(s, r), wanted);
    AnswerLeads(s, r);
    OneStep(Fetched(s, r), Answer(n), Answered(s, r));
    FetchLeads(s, r);
    OneStep(t, Fetch(n), Fetched(s, r));
    RunConcat(t, [Fetch(n)], Fetched(s, r), [Answer(n)], Answered(s, r));
    assert Leads(Started(s, r), Check(n), t);
    OneStep(Started(s, r), Check(n), t);
    RunConcat(Started(s, r), [Check(n)], t, [Fetch(n)] + [Answer(n)], Answered(s, r));
    Starts(s, r);
    OneStep(s, Begin(r.instance, r.cached, r.hits, [r.target]), Started(s, r));
    RunConcat(s, [Begin(r.instance, r.cached, r.hits, [r.target])], Started(s, r),
              [Check(n)] + ([Fetch(n)] + [Answer(n)]), Answered(s, r));
  }

  lemma AnsweredSlots(s: State, r: Single)
    requires CanRead(s, r)
    ensures Answered(s, r).slots == s.slots + [Decided3(s, r)]
  {
  }

  // -------------------------------------------------- the bound is attained

  /** A request of `hits` hits on an instance without a local cache. */
  function Plain(target: Target, hits: uint32): Single { Single(0, false, hits, target) }

  /** `pending` requests of one hit, then one that uses up the whole limit; all have
      read before any increment is applied. */
  function Overrun(target: Target, pending: nat): seq<Event> {
    Ones(target, pending) + ReadEvents(pending, Plain(target, target.limit.quota.perUnit))
  }

  function Ones(target: Target, n: nat): seq<Event> {
    if n == 0 then [] else Ones(target, n - 1) + ReadEvents(n - 1, Plain(target, 1))
  }

  /** `n` hits have been admitted and none is applied. */
  ghost predicate Waiting(s: State, target: Target, n: nat) {
    && Inv(s) && s.items == map[]
    && Sum(s.slots, UnappliedOn(target.key)) == n
    && Sum(s.slots, WithinOn(target.key, target.limit.quota.perUnit)) == n
  }

  lemma AdmitOne(s: State, target: Target, hits: uint32, n: nat)
    requires Waiting(s, target, n) && 1 <= hits <= target.limit.quota.perUnit
    ensures CanRead(s, Plain(target, hits))
    ensures var t := Answered(s, Plain(target, hits));
            && Runs(s, ReadEvents(|s.slots|, Plain(target, hits)), t)
            && Waiting(t, target, n + hits) && |t.slots| == |s.slots| + 1
            && t.log == s.log + [Read(target.key, target.limit, hits, 0, n)]
  {
    var r, max := Plain(target, hits), target.limit.quota.perUnit;
    ReadRuns(s, r);
    RunKeepsInv(s, ReadEvents(|s.slots|, r));
    AnsweredSlots(s, r);
    var x := Decided3(s, r);
    SumConcat(s.slots, [x], UnappliedOn(target.key));
    SumOfOne(x, UnappliedOn(target.key));
    SumConcat(s.slots, [x], WithinOn(target.key, max));
    SumOfOne(x, WithinOn(target.key, max));
  }

  lemma {:induction false} OnesWait(target: Target, n: nat)
    requires target.limit.quota.perUnit >= 1
    ensures Valid(INIT, Ones(target, n))
    ensures Waiting(Run(INIT, Ones(target, n)), target, n) && |Run(INIT, Ones(target, n)).slots| == n
  {
    if n > 0 {
      OnesWait(target, n - 1);
      var s := Run(INIT, Ones(target, n - 1));
      AdmitOne(s, target, 1, n - 1);
      RunConcat(INIT, Ones(target, n - 1), s, ReadEvents(n - 1, Plain(target, 1)), Answered(s, Plain(target, 1)));
    }
  }

  /** For every limit and every amount pending at the last read within it, there is a run
      that admits the limit and the pending amount on top. */
  lemma BoundIsAttained(target: Target, pending: nat)
    requires target.limit.quota.perUnit >= 1
    ensures Valid(INIT, Overrun(target, pending))
    ensures var s, max := Run(INIT, Overrun(target, pending)), target.limit.quota.perUnit;
            var n := LastWithin(s.log, target.key, max);
            && n < |s.log| && s.log[n].pending == pending
            && Sum(s.slots, WithinOn(target.key, max)) == max + pending
  {
    var max := target.limit.quota.perUnit;
    OnesWait(target, pending);
    var s := Run(INIT, Ones(target, pending));
    AdmitOne(s, target, max, pending);
    var t := Answered(s, Plain(target, max));
    RunConcat(INIT, Ones(target, pending), s, ReadEvents(pending, Plain(target, max)), t);
    assert t.log[|t.log| - 1] == Read(target.key, target.limit, max, 0, pending);
  }

  // -------------------------------------------------- an early local rejection

  function KnownEvents(n: nat, r: Single): seq<Event> {
    [Begin(r.instance, r.cached, r.hits, [r.target])] + ([Check(n)] + [Answer(n)])
  }

  ghost function KnownSlot(s: State, r: Single): Slot { Fresh0(s, r).(stage := Got, localHit := true) }

  /** The state after a request that the local cache rejects. */
  ghost function Turned(s: State, r: Single): State {
    Last(Started(s, r), KnownSlot(s, r).(stage := Decided, verdict := Some(VerdictOf(KnownSlot(s, r)))))
  }

  lemma KnownRuns(s: State, r: Single)
    requires Inv(s) && r.hits >= 1 && r.cached && (r.instance, r.target.key) in s.caches
    ensures Runs(s, KnownEvents(|s.slots|, r), Turned(s, r))
  {
    var n := |s.slots|;
    var t := Last(Started(s, r), KnownSlot(s, r));
    OwnIsLast(s, r, KnownSlot(s, r), 2);
    assert Leads(t, Answer(n), Turned(s, r)) by {
      assert t.slots[n] == KnownSlot(s, r);
      assert !VerdictOf(KnownSlot(s, r)).caches;
    }
    OneStep(t, Answer(n), Turned(s, r));
    assert Leads(Started(s, r), Check(n), t);
    OneStep(Started(s, r), Check(n), t);
    RunConcat(Started(s, r), [Check(n)], t, [Answer(n)], Turned(s, r));
    Starts(s, r);
    OneStep(s, Begin(r.instance, r.cached, r.hits, [r.target]), Started(s, r));
    RunConcat(s, [Begin(r.instance, r.cached, r.hits, [r.target])], Started(s, r), [Check(n)] + [Answer(n)],
              Turned(s, r));
  }

  /** One request reads and is rejected; before its hits are submitted a second one of
      the same instance arrives. */
  function Early(target: Target, many: uint32, few: uint32): seq<Event> {
    ReadEvents(0, Single(0, true, many, target)) + KnownEvents(1, Single(0, true, few, target))
  }

  /** A local cache can reject early: for every limit, a lookup with no more hits than
      the limit is answered OVER_LIMIT although nothing is stored or submitted. */
  lemma LocalRejectionCanBeEarly(target: Target, many: uint32, few: uint32)
    requires many > target.limit.quota.perUnit >= few >= 1 && !target.limit.shadowMode
    ensures Valid(INIT, Early(target, many, few))
    ensures var s := Run(INIT, Early(target, many, few));
            && |s.slots| == 2 && s.slots[1].localHit && s.slots[1].hits == few && s.slots[1].limit == target.limit
            && s.slots[1].verdict.Some? && s.slots[1].verdict.value.code == OverLimit
            && s.items == map[] && Sum(s.slots, SubmittedOn(s, target.key)) == 0
  {
    var r, q := Single(0, true, many, target), Single(0, true, few, target);
    ReadRuns(INIT, r);
    var s := Answered(INIT, r);
    AnsweredSlots(INIT, r);
    RunKeepsInv(INIT, ReadEvents(0, r));
    KnownRuns(s, q);
    RunConcat(INIT, ReadEvents(0, r), s, KnownEvents(1, q), Turned(s, q));
    var t := Turned(s, q);
    assert t.tasks == [Task(0, Deciding), Task(0, Deciding)];
    SumZero(t.slots, SubmittedOn(t, target.key));
  }
}
