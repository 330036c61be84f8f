/** The Redis limiter of `src/redis/fixed_cache_impl.go` as a state machine.
    Any number of `DoLimit` calls, on any number of service instances, run
    against one store; every local cache probe, GET, INCRBY and status is a step
    of its own, so all interleavings at command granularity are runs. */
module RedisProtocol {
  import opened Prelude
  import opened Limiter

  /** One `DoLimit` call. `stop` and `cached` are the settings of its instance;
      `width` counts all descriptors of the request, checked or not. */
  datatype Call = Call(id: nat, instance: nat, stop: bool, cached: bool, hits: uint32, width: nat)

  datatype Stage = Fresh | Checked | Seen | Charged | Judged(verdict: Verdict)

  /** The progress of one lookup of one call: whether the local cache knew the
      key, the count a GET returned, the amount its INCRBY added and the result. */
  datatype Slot = Slot(
    call: Call, key: string, limit: Limit, stage: Stage,
    localHit: bool, current: uint32, amount: uint32, result: uint32)

  datatype State = State(
    store: map<string, uint32>, caches: set<(nat, string)>, slots: seq<Slot>, next: nat)

  datatype Event =
    | Start(call: Call, lookups: seq<Target>)
    | Check(slot: nat)
    | Get(slot: nat)
    | Charge(slot: nat)
    | Answer(slot: nat)
    | Evict(instance: nat, key: string)

  const INIT := State(map[], {}, [], 0)

  function Rank(stage: Stage): nat {
    match stage
    case Fresh => 0
    case Checked => 1
    case Seen => 2
    case Charged => 3
    case Judged(_) => 4
  }

  ghost predicate Reached(s: State, id: nat, rank: nat) {
    forall j | 0 <= j < |s.slots| && s.slots[j].call.id == id :: Rank(s.slots[j].stage) >= rank
  }

  ghost predicate AnyLocal(s: State, id: nat) {
    exists j | 0 <= j < |s.slots| && s.slots[j].call.id == id :: s.slots[j].localHit
  }

  /** Whether the call reads the counters before it charges them. */
  ghost predicate Looks(s: State, call: Call) {
    call.stop && call.width > 1 && !AnyLocal(s, call.id)
  }

  predicate IsNear(x: Slot) {
    Add32(x.current, x.call.hits) > x.limit.quota.perUnit
  }

  ghost predicate AnyNear(s: State, id: nat) {
    exists j | 0 <= j < |s.slots| && s.slots[j].call.id == id :: IsNear(s.slots[j])
  }

  /** The amount of the INCRBY for a key that the local cache does not know. */
  ghost function Amount(s: State, x: Slot): uint32 {
    if !x.call.stop then x.call.hits
    else if Looks(s, x.call) then (if IsNear(x) || !AnyNear(s, x.call.id) then x.call.hits else 0)
    else if AnyLocal(s, x.call.id) then 0
    else x.call.hits
  }

  function NewSlot(call: Call, look: Target): Slot {
    Slot(call, look.key, look.limit, Fresh, false, 0, 0, 0)
  }

  function NewSlots(call: Call, lookups: seq<Target>): seq<Slot> {
    seq(|lookups|, i requires 0 <= i < |lookups| => NewSlot(call, lookups[i]))
  }

  function VerdictOf(x: Slot): Verdict {
    Judge(x.limit, Sub32(x.result, x.call.hits), x.result, x.localHit, x.call.hits)
  }

  /** When a step can be taken. Counters are assumed to stay below 2^32. */
  ghost predicate Enabled(s: State, e: Event) {
    match e
    case Start(call, lookups) => call.id == s.next && call.hits >= 1 && |lookups| <= call.width
    case Check(j) => j < |s.slots| && s.slots[j].stage.Fresh?
    case Get(j) =>
      && j < |s.slots| && s.slots[j].stage.Checked?
      && Looks(s, s.slots[j].call) && Reached(s, s.slots[j].call.id, 1)
    case Charge(j) =>
      && j < |s.slots|
      && var x := s.slots[j];
      && (if Looks(s, x.call) then x.stage.Seen? && Reached(s, x.call.id, 2)
          else x.stage.Checked? && Reached(s, x.call.id, 1))
      && (!x.localHit ==> Count(s.store, x.key) + Amount(s, x) < TWO_32)
    case Answer(j) => j < |s.slots| && s.slots[j].stage.Charged? && Reached(s, s.slots[j].call.id, 3)
    case Evict(_, _) => true
  }

  ghost function Apply(s: State, e: Event): State
    requires Enabled(s, e)
  {
    match e
    case Start(call, lookups) => s.(slots := s.slots + NewSlots(call, lookups), next := s.next + 1)
    case Check(j) =>
      var x := s.slots[j];
      s.(slots := s.slots[j := x.(stage := Checked, localHit := x.call.cached && (x.call.instance, x.key) in s.caches)])
    case Get(j) =>
      var x := s.slots[j];
      s.(slots := s.slots[j := x.(stage := Seen, current := Count(s.store, x.key))])
    case Charge(j) =>
      var x := s.slots[j];
      if x.localHit then s.(slots := s.slots[j := x.(stage := Charged)])
      else
        var after := Count(s.store, x.key) + Amount(s, x);
        s.(store := s.store[x.key := after],
           slots := s.slots[j := x.(stage := Charged, amount := Amount(s, x), result := after)])
    case Answer(j) =>
      var x := s.slots[j];
      var v := VerdictOf(x);
      s.(caches := s.caches + (if v.caches && x.call.cached then {(x.call.instance, x.key)} else {}),
         slots := s.slots[j := x.(stage := Judged(v))])
    case Evict(instance, key) => s.(caches := s.caches - {(instance, key)})
  }

  ghost predicate Valid(s: State, es: seq<Event>)
    decreases |es|
  {
    es != [] ==> Enabled(s, es[0]) && Valid(Apply(s, es[0]), es[1..])
  }

  ghost function Run(s: State, es: seq<Event>): State
    requires Valid(s, es)
    decreases |es|
  {
    if es == [] then s else Run(Apply(s, es[0]), es[1..])
  }

  /** What a single slot satisfies in every reachable state. */
  ghost predicate SlotOk(s: State, x: Slot) {
    && x.call.id < s.next
    && x.call.hits >= 1
    && (x.localHit ==> Rank(x.stage) >= 1)
    && (Rank(x.stage) < 2 ==> x.current == 0)
    && (Rank(x.stage) < 3 ==> x.amount == 0 && x.current <= Count(s.store, x.key))
    && (Rank(x.stage) >= 3 ==>
          && Reached(s, x.call.id, if Looks(s, x.call) then 2 else 1)
          && (x.localHit ==> x.amount == 0)
          && (!x.localHit ==>
                && x.amount == Amount(s, x)
                && x.current + x.amount <= x.result <= Count(s.store, x.key)))
    && (x.stage.Judged? ==> x.stage.verdict == VerdictOf(x))
  }

  ghost predicate Inv(s: State) {
    && (forall j | 0 <= j < |s.slots| :: SlotOk(s, s.slots[j]))
    && (forall i, j | 0 <= i < |s.slots| && 0 <= j < |s.slots| && s.slots[i].call.id == s.slots[j].call.id ::
          s.slots[i].call == s.slots[j].call)
  }

  /** A step leaves everything that a charged slot of call `id` depends on. */
  ghost predicate Frozen(s: State, t: State, id: nat) {
    && |s.slots| <= |t.slots|
    && (forall j | 0 <= j < |s.slots| ::
          var x, y := s.slots[j], t.slots[j];
          && y.call == x.call && y.limit == x.limit && Rank(y.stage) >= Rank(x.stage)
          && (x.call.id == id ==> y.localHit == x.localHit && y.current == x.current))
    && (forall j | |s.slots| <= j < |t.slots| :: t.slots[j].call.id != id)
  }

  lemma FrozenKeepsDecisions(s: State, t: State, id: nat)
    requires Frozen(s, t, id)
    ensures AnyLocal(t, id) == AnyLocal(s, id) && AnyNear(t, id) == AnyNear(s, id)
    ensures forall rank :: Reached(s, id, rank) ==> Reached(t, id, rank)
  {
    if AnyLocal(s, id) {
      var j :| 0 <= j < |s.slots| && s.slots[j].call.id == id && s.slots[j].localHit;
      assert t.slots[j].localHit;
    }
    if AnyNear(s, id) {
      var j :| 0 <= j < |s.slots| && s.slots[j].call.id == id && IsNear(s.slots[j]);
      assert IsNear(t.slots[j]);
    }
  }

  /** No step changes the decisions of a call that has begun to charge. */
  lemma ChargingIsFrozen(s: State, e: Event, x: Slot)
    requires Inv(s) && Enabled(s, e) && x in s.slots && Rank(x.stage) >= 3
    ensures Frozen(s, Apply(s, e), x.call.id)
  {
    assert SlotOk(s, x);
    if Touches(e) {
      TouchIsUpdate(s, e);
      TouchKeepsSlot(s, e);
    }
  }

  ghost predicate Touches(e: Event) { e.Check? || e.Get? || e.Charge? || e.Answer? }

  lemma TouchIsUpdate(s: State, e: Event)
    requires Enabled(s, e) && Touches(e)
    ensures var t := Apply(s, e).slots; |t| == |s.slots| && t == s.slots[e.slot := t[e.slot]]
  {
  }

  /** What a step keeps of the slot it touches. */
  lemma TouchKeepsSlot(s: State, e: Event)
    requires Enabled(s, e) && Touches(e)
    ensures |Apply(s, e).slots| == |s.slots|
    ensures var x, y := s.slots[e.slot], Apply(s, e).slots[e.slot];
            && y.call == x.call && y.key == x.key && y.limit == x.limit && Rank(y.stage) >= Rank(x.stage)
            && (e.Charge? || e.Answer? ==> y.localHit == x.localHit && y.current == x.current)
            && (e.Check? ==> Rank(x.stage) < 1) && (e.Get? ==> Looks(s, x.call) && Rank(x.stage) < 2)
  {
  }

  lemma CountsGrow(s: State, e: Event, key: string)
    requires Enabled(s, e)
    ensures Count(s.store, key) <= Count(Apply(s, e).store, key)
  {
  }

  /** A slot that the step does not touch stays well-formed. */
  lemma UntouchedSlotOk(s: State, e: Event, x: Slot)
    requires Inv(s) && Enabled(s, e) && x in s.slots
    ensures SlotOk(Apply(s, e), x)
  {
    var t := Apply(s, e);
    assert SlotOk(s, x);
    CountsGrow(s, e, x.key);
    if Rank(x.stage) >= 3 {
      ChargingIsFrozen(s, e, x);
      FrozenKeepsDecisions(s, t, x.call.id);
    }
  }

  /** The slot that a Charge step touches is charged what its call decided. */
  lemma ChargedSlotOk(s: State, j: nat)
    requires Inv(s) && Enabled(s, Charge(j))
    ensures SlotOk(Apply(s, Charge(j)), Apply(s, Charge(j)).slots[j])
  {
    var t := Apply(s, Charge(j));
    var x := s.slots[j];
    assert SlotOk(s, x);
    assert Frozen(s, t, x.call.id);
    FrozenKeepsDecisions(s, t, x.call.id);
    assert Looks(t, x.call) == Looks(s, x.call);
    assert Amount(t, t.slots[j]) == Amount(s, x);
  }

  lemma TouchedSlotOk(s: State, e: Event, j: nat)
    requires Inv(s) && Enabled(s, e)
    requires e == Check(j) || e == Get(j) || e == Charge(j) || e == Answer(j)
    ensures SlotOk(Apply(s, e), Apply(s, e).slots[j])
  {
    assert SlotOk(s, s.slots[j]);
    if e.Charge? {
      ChargedSlotOk(s, j);
    } else if e.Answer? {
      var t := Apply(s, e);
      ChargingIsFrozen(s, e, s.slots[j]);
      FrozenKeepsDecisions(s, t, s.slots[j].call.id);
    }
  }

  lemma StepKeepsInv(s: State, e: Event)
    requires Inv(s) && Enabled(s, e)
    ensures Inv(Apply(s, e))
  {
    var t := Apply(s, e);
    forall j | 0 <= j < |t.slots| ensures SlotOk(t, t.slots[j]) {
      if e.Start? && j >= |s.slots| {
      } else if (e.Check? || e.Get? || e.Charge? || e.Answer?) && j == e.slot {
        TouchedSlotOk(s, e, j);
      } else {
        UntouchedSlotOk(s, e, s.slots[j]);
      }
    }
  }

  lemma {:induction false} RunKeepsInv(s: State, es: seq<Event>)
    requires Inv(s) && Valid(s, es)
    ensures Inv(Run(s, es))
    decreases |es|
  {
    if es != [] {
      StepKeepsInv(s, es[0]);
      RunKeepsInv(Apply(s, es[0]), es[1..]);
    }
  }

  lemma SumOfNewSlots(call: Call, lookups: seq<Target>, f: Slot -> nat)
    requires forall l | l in lookups :: f(NewSlot(call, l)) == 0
    ensures Sum(NewSlots(call, lookups), f) == 0
  {
    var added := NewSlots(call, lookups);
    forall x | x in added ensures f(x) == 0 {
      var i :| 0 <= i < |added| && added[i] == x;
      assert lookups[i] in lookups;
    }
    SumZero(added, f);
  }

  /** What a step does to the sum of any measure that is zero on new slots. */
  lemma SumAfterStep(s: State, e: Event, f: Slot -> nat)
    requires Enabled(s, e)
    requires e.Start? ==> forall l | l in e.lookups :: f(NewSlot(e.call, l)) == 0
    ensures !Touches(e) ==> Sum(Apply(s, e).slots, f) == Sum(s.slots, f)
    ensures Touches(e) ==>
              |Apply(s, e).slots| == |s.slots| &&
              Sum(Apply(s, e).slots, f) + f(s.slots[e.slot]) == Sum(s.slots, f) + f(Apply(s, e).slots[e.slot])
  {
    if e.Start? {
      SumOfNewSlots(e.call, e.lookups, f);
      SumConcat(s.slots, NewSlots(e.call, e.lookups), f);
    } else if Touches(e) {
      TouchIsUpdate(s, e);
      SumUpdate(s.slots, e.slot, Apply(s, e).slots[e.slot], f);
    }
  }

  /** The amount a slot has added to key `key`. */
  ghost function AmountOn(key: string): Slot -> nat {
    (x: Slot) => if x.key == key then x.amount else 0
  }

  ghost predicate Balanced(s: State, key: string) {
    Count(s.store, key) == Sum(s.slots, AmountOn(key))
  }

  /** Conservation: a counter holds exactly what the calls have added to it. */
  lemma {:induction false} CounterIsSumOfCharges(s: State, es: seq<Event>, key: string)
    requires Inv(s) && Valid(s, es) && Balanced(s, key)
    ensures Balanced(Run(s, es), key)
    decreases |es|
  {
    if es != [] {
      StepKeepsInv(s, es[0]);
      StepKeepsBalance(s, es[0], key);
      CounterIsSumOfCharges(Apply(s, es[0]), es[1..], key);
    }
  }

  lemma StepKeepsBalance(s: State, e: Event, key: string)
    requires Inv(s) && Enabled(s, e) && Balanced(s, key)
    ensures Balanced(Apply(s, e), key)
  {
    SumAfterStep(s, e, AmountOn(key));
    if e.Charge? {
      assert SlotOk(s, s.slots[e.slot]);
    }
  }
}
