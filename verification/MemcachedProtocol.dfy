/** The memcached limiter of `src/memcached/cache_impl.go` as a state machine:
    requests read counters, are judged, and hand their increments to background
    workers that run Increment, then Add on a miss, then Increment on a lost
    race. Every backend command and every hand-off is a step of its own. */
module MemcachedProtocol {
  import opened Prelude
  import opened Limiter

  /** A request's increments: still being decided, waiting for a worker after
      `waitGroup.Add`, run by a worker, or finished. */
  datatype Phase = Deciding | Queued | Running(worker: nat) | Done

  /** The increments of one request, and the instance whose wait group counts them. */
  datatype Task = Task(owner: nat, phase: Phase)

  /** The goroutine loop of `runAsync`; `processed` counts tasks received in the
      current tick period, `after` is that count when it is idle again. */
  datatype Worker = Idle(processed: nat) | Busy(task: nat, after: nat) | Exited

  datatype Stage = Fresh | Wanted | Got | Decided | Missed | Raced | Applied

  datatype Slot = Slot(
    task: nat, instance: nat, cached: bool, hits: uint32, key: string, limit: Limit,
    stage: Stage, localHit: bool, before: uint32, verdict: Option<Verdict>)

  /** History of one successful read: what it returned, and how many hits on the
      key had been read but not yet applied at that moment. */
  datatype Read = Read(key: string, limit: Limit, hits: uint32, value: uint32, pending: nat)

  datatype State = State(
    items: map<string, uint32>, caches: set<(nat, string)>, tasks: seq<Task>, slots: seq<Slot>,
    workers: seq<Worker>, waitGroups: map<nat, int>, log: seq<Read>, starts: seq<nat>)

  datatype Event =
    | Begin(instance: nat, cached: bool, hits: uint32, lookups: seq<Target>)
    | Check(slot: nat) | Fetch(slot: nat) | Answer(slot: nat)
    | Enqueue(task: nat) | Hand(task: nat, worker: nat) | Spawn(task: nat)
    | Increment(slot: nat) | Skip(slot: nat) | Add(slot: nat) | Retry(slot: nat)
    | Finish(task: nat) | Tick(worker: nat)
    | Evict(instance: nat, key: string)

  const INIT := State(map[], {}, [], [], [], map[], [], [])

  function Rank(stage: Stage): nat {
    match stage
    case Fresh => 0
    case Wanted => 1
    case Got => 2
    case Decided => 3
    case Missed => 4
    case Raced => 5
    case Applied => 6
  }

  ghost predicate Reached(s: State, task: nat, rank: nat) {
    forall x | x in s.slots && x.task == task :: Rank(x.stage) >= rank
  }

  function NewSlot(task: nat, instance: nat, cached: bool, hits: uint32, look: Target): Slot {
    Slot(task, instance, cached, hits, look.key, look.limit, Fresh, false, 0, None)
  }

  function NewSlots(task: nat, instance: nat, cached: bool, hits: uint32, lookups: seq<Target>): seq<Slot> {
    seq(|lookups|, i requires 0 <= i < |lookups| => NewSlot(task, instance, cached, hits, lookups[i]))
  }

  function VerdictOf(x: Slot): Verdict
    requires x.before + x.hits < TWO_32
  {
    Judge(x.limit, x.before, x.before + x.hits, x.localHit, x.hits)
  }

  /** Hits on `key` that were read and are not applied yet. */
  ghost function UnappliedOn(key: string): Slot -> nat {
    (x: Slot) => if x.key == key && Rank(x.stage) >= 2 && !x.localHit && !x.stage.Applied? then x.hits else 0
  }

  ghost predicate OnSlot(s: State, j: nat, stage: Stage) { j < |s.slots| && s.slots[j].stage == stage }

  ghost predicate OnRunningSlot(s: State, j: nat, stage: Stage) {
    OnSlot(s, j, stage) && s.slots[j].task < |s.tasks| && s.tasks[s.slots[j].task].phase.Running?
  }

  ghost predicate Fits(s: State, j: nat)
    requires j < |s.slots|
  {
    Count(s.items, s.slots[j].key) + s.slots[j].hits < TWO_32
  }

  /** When a step can be taken. Stored values are assumed below 2^31 when read,
      because they are parsed as signed 32-bit integers, and sums below 2^32. */
  ghost predicate Enabled(s: State, e: Event) {
    match e
    case Begin(_, _, hits, _) => hits >= 1
    case Check(j) => OnSlot(s, j, Fresh)
    case Fetch(j) =>
      && OnSlot(s, j, Wanted) && Reached(s, s.slots[j].task, 1)
      && Count(s.items, s.slots[j].key) < TWO_31 && Fits(s, j)
    case Answer(j) =>
      OnSlot(s, j, Got) && Reached(s, s.slots[j].task, 2) && s.slots[j].before + s.slots[j].hits < TWO_32
    case Enqueue(t) => t < |s.tasks| && s.tasks[t].phase.Deciding? && Reached(s, t, 3)
    case Hand(t, w) => t < |s.tasks| && s.tasks[t].phase.Queued? && w < |s.workers| && s.workers[w].Idle?
    case Spawn(t) => t < |s.tasks| && s.tasks[t].phase.Queued?
    case Increment(j) => OnRunningSlot(s, j, Decided) && !s.slots[j].localHit && Fits(s, j)
    case Skip(j) => OnRunningSlot(s, j, Decided) && s.slots[j].localHit
    case Add(j) => OnRunningSlot(s, j, Missed)
    case Retry(j) => OnRunningSlot(s, j, Raced) && Fits(s, j)
    case Finish(t) =>
      && t < |s.tasks| && s.tasks[t].phase.Running? && Reached(s, t, 6)
      && s.tasks[t].phase.worker < |s.workers| && s.workers[s.tasks[t].phase.worker].Busy?
    case Tick(w) => w < |s.workers| && s.workers[w].Idle?
    case Evict(_, _) => true
  }

  /** The counter of the wait group of an instance. */
  function WaitOf(groups: map<nat, int>, instance: nat): int { if instance in groups then groups[instance] else 0 }

  function AddTo(groups: map<nat, int>, instance: nat, delta: int): map<nat, int> {
    groups[instance := WaitOf(groups, instance) + delta]
  }

  function Bump(items: map<string, uint32>, x: Slot): map<string, uint32>
    requires Count(items, x.key) + x.hits < TWO_32
  {
    items[x.key := Count(items, x.key) + x.hits]
  }

  ghost function Apply(s: State, e: Event): State
    requires Enabled(s, e)
  {
    match e
    case Begin(instance, cached, hits, lookups) =>
      s.(tasks := s.tasks + [Task(instance, Deciding)],
         slots := s.slots + NewSlots(|s.tasks|, instance, cached, hits, lookups))
    case Check(j) =>
      var x := s.slots[j];
      var known := x.cached && (x.instance, x.key) in s.caches;
      s.(slots := s.slots[j := x.(stage := if known then Got else Wanted, localHit := known)])
    case Fetch(j) =>
      var x := s.slots[j];
      var value := Count(s.items, x.key);
      s.(slots := s.slots[j := x.(stage := Got, before := value)],
         log := s.log + [Read(x.key, x.limit, x.hits, value, Sum(s.slots, UnappliedOn(x.key)))])
    case Answer(j) =>
      var x := s.slots[j];
      var v := VerdictOf(x);
      s.(caches := s.caches + (if v.caches && x.cached then {(x.instance, x.key)} else {}),
         slots := s.slots[j := x.(stage := Decided, verdict := Some(v))])
    case Enqueue(t) =>
      s.(tasks := s.tasks[t := s.tasks[t].(phase := Queued)],
         waitGroups := AddTo(s.waitGroups, s.tasks[t].owner, 1))
    case Hand(t, w) =>
      s.(tasks := s.tasks[t := s.tasks[t].(phase := Running(w))],
         workers := s.workers[w := Busy(t, s.workers[w].processed + 1)],
         starts := s.starts + [t])
    case Spawn(t) =>
      s.(tasks := s.tasks[t := s.tasks[t].(phase := Running(|s.workers|))],
         workers := s.workers + [Busy(t, 0)], starts := s.starts + [t])
    case Increment(j) =>
      var x := s.slots[j];
      if x.key in s.items then s.(items := Bump(s.items, x), slots := s.slots[j := x.(stage := Applied)])
      else s.(slots := s.slots[j := x.(stage := Missed)])
    case Skip(j) => s.(slots := s.slots[j := s.slots[j].(stage := Applied)])
    case Add(j) =>
      var x := s.slots[j];
      if x.key in s.items then s.(slots := s.slots[j := x.(stage := Raced)])
      else s.(items := s.items[x.key := x.hits], slots := s.slots[j := x.(stage := Applied)])
    case Retry(j) =>
      var x := s.slots[j];
      // A miss here would lose the hits; the invariant shows that it cannot happen.
      s.(items := if x.key in s.items then Bump(s.items, x) else s.items,
         slots := s.slots[j := x.(stage := Applied)])
    case Finish(t) =>
      var w := s.tasks[t].phase.worker;
      s.(tasks := s.tasks[t := s.tasks[t].(phase := Done)], waitGroups := AddTo(s.waitGroups, s.tasks[t].owner, -1),
         workers := s.workers[w := Idle(s.workers[w].after)])
    case Tick(w) => s.(workers := s.workers[w := if s.workers[w].processed > 0 then Idle(0) else Exited])
    case Evict(instance, key) => s.(caches := s.caches - {(instance, key)})
  }

  ghost predicate Valid(s: State, es: seq<Event>)
    decreases |es|
  {
    es != [] ==> Enabled(s, es[0]) && Valid(Apply(s, es[0]), es[1..])
  }

  ghost function Run(s: State, es: seq<Event>): State
    requires Valid(s, es)
    decreases |es|
  {
    if es == [] then s else Run(Apply(s, es[0]), es[1..])
  }

  ghost predicate Touches(e: Event) {
    e.Check? || e.Fetch? || e.Answer? || e.Increment? || e.Skip? || e.Add? || e.Retry?
  }

  // ---------------------------------------------------------------- invariant

  ghost predicate SlotOk(s: State, x: Slot) {
    && x.task < |s.tasks| && x.hits >= 1 && s.tasks[x.task].owner == x.instance
    && (x.localHit ==> Rank(x.stage) >= 2 && !x.stage.Missed? && !x.stage.Raced?)
    && (x.verdict.Some? <==> Rank(x.stage) >= 3)
    && (x.verdict.Some? ==> x.before + x.hits < TWO_32 && x.verdict.value == VerdictOf(x))
    && (Rank(x.stage) >= 4 ==> s.tasks[x.task].phase.Running? || s.tasks[x.task].phase.Done?)
    && (!s.tasks[x.task].phase.Deciding? ==> Rank(x.stage) >= 3)
    && (s.tasks[x.task].phase.Done? ==> x.stage.Applied?)
    && (x.stage.Raced? ==> x.key in s.items)
  }

  ghost predicate Inv(s: State) {
    (forall x | x in s.slots :: SlotOk(s, x)) && WorkersOk(s)
  }

  lemma UntouchedSlotOk(s: State, e: Event, x: Slot)
    requires Inv(s) && Enabled(s, e) && x in s.slots
    ensures SlotOk(Apply(s, e), x)
  {
    assert SlotOk(s, x);
  }

  lemma TouchIsUpdate(s: State, e: Event)
    requires Enabled(s, e) && Touches(e)
    ensures var t := Apply(s, e); |t.slots| == |s.slots| && t.slots == s.slots[e.slot := t.slots[e.slot]]
  {
  }

  lemma TouchedSlotOk(s: State, e: Event)
    requires Inv(s) && Enabled(s, e) && Touches(e)
    ensures |Apply(s, e).slots| == |s.slots|
    ensures SlotOk(Apply(s, e), Apply(s, e).slots[e.slot])
  {
    assert SlotOk(s, s.slots[e.slot]);
  }

  ghost predicate WorkersOk(s: State) {
    && (forall t | 0 <= t < |s.tasks| && s.tasks[t].phase.Running? ::
          var w := s.tasks[t].phase.worker; w < |s.workers| && s.workers[w].Busy? && s.workers[w].task == t)
    && (forall w | 0 <= w < |s.workers| && s.workers[w].Busy? ::
          s.workers[w].task < |s.tasks| && s.tasks[s.workers[w].task].phase == Running(w))
  }

  lemma StepKeepsWorkers(s: State, e: Event)
    requires WorkersOk(s) && Enabled(s, e)
    ensures WorkersOk(Apply(s, e))
  {
    var t := Apply(s, e);
    if Touches(e) || e.Evict? {
      assert t.tasks == s.tasks && t.workers == s.workers;
    } else if e.Hand? || e.Spawn? || e.Finish? {
      TaskMoves(s, e);
    }
  }

  /** A hand-off or a finish moves one task and one worker, and no other. */
  lemma TaskMoves(s: State, e: Event)
    requires WorkersOk(s) && Enabled(s, e) && (e.Hand? || e.Spawn? || e.Finish?)
    ensures WorkersOk(Apply(s, e))
  {
  }

  lemma StepKeepsInv(s: State, e: Event)
    requires Inv(s) && Enabled(s, e)
    ensures Inv(Apply(s, e))
  {
    var t := Apply(s, e);
    StepKeepsWorkers(s, e);
    forall x | x in t.slots ensures SlotOk(t, x) {
      var j :| 0 <= j < |t.slots| && t.slots[j] == x;
      if Touches(e) && j == e.slot {
        TouchedSlotOk(s, e);
      } else if j < |s.slots| {
        UntouchedSlotOk(s, e, s.slots[j]);
      }
    }
  }

  lemma {:induction false} RunKeepsInv(s: State, es: seq<Event>)
    requires Inv(s) && Valid(s, es)
    ensures Inv(Run(s, es))
    decreases |es|
  {
    if es != [] {
      StepKeepsInv(s, es[0]);
      RunKeepsInv(Apply(s, es[0]), es[1..]);
    }
  }

  lemma SumOfNewSlots(s: State, e: Event, f: Slot -> nat)
    requires e.Begin?
    requires forall l | l in e.lookups :: f(NewSlot(|s.tasks|, e.instance, e.cached, e.hits, l)) == 0
    ensures Sum(NewSlots(|s.tasks|, e.instance, e.cached, e.hits, e.lookups), f) == 0
  {
    var added := NewSlots(|s.tasks|, e.instance, e.cached, e.hits, e.lookups);
    forall x | x in added ensures f(x) == 0 {
      var i :| 0 <= i < |added| && added[i] == x;
      assert e.lookups[i] in e.lookups;
    }
    SumZero(added, f);
  }

  lemma SumAfterStep(s: State, e: Event, f: Slot -> nat)
    requires Enabled(s, e)
    requires e.Begin? ==> forall l | l in e.lookups :: f(NewSlot(|s.tasks|, e.instance, e.cached, e.hits, l)) == 0
    ensures !Touches(e) ==> Sum(Apply(s, e).slots, f) == Sum(s.slots, f)
    ensures Touches(e) ==>
              |Apply(s, e).slots| == |s.slots| &&
              Sum(Apply(s, e).slots, f) + f(s.slots[e.slot]) == Sum(s.slots, f) + f(Apply(s, e).slots[e.slot])
  {
    if e.Begin? {
      SumOfNewSlots(s, e, f);
      SumConcat(s.slots, NewSlots(|s.tasks|, e.instance, e.cached, e.hits, e.lookups), f);
    } else if Touches(e) {
      TouchIsUpdate(s, e);
      SumUpdate(s.slots, e.slot, Apply(s, e).slots[e.slot], f);
    }
  }
}
