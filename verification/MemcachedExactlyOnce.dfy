/** Every submitted increment of the memcached limiter reaches the backend exactly
    once, through all races of its three-command dance and of its worker pool. */
module MemcachedExactlyOnce {
  import opened Prelude
  import opened Limiter
  import opened MemcachedProtocol

  ghost function AppliedOn(key: string): Slot -> nat {
    (x: Slot) => if x.key == key && x.stage.Applied? && !x.localHit then x.hits else 0
  }

  ghost predicate Balanced(s: State, key: string) {
    Count(s.items, key) == Sum(s.slots, AppliedOn(key))
  }

  lemma StepKeepsBalance(s: State, e: Event, key: string)
    requires Inv(s) && Enabled(s, e) && Balanced(s, key)
    ensures Balanced(Apply(s, e), key)
  {
    SumAfterStep(s, e, AppliedOn(key));
    if Touches(e) {
      TouchMovesCounter(s, e, key);
    }
  }

  /** A step moves the counter by what it makes its slot apply. */
  lemma TouchMovesCounter(s: State, e: Event, key: string)
    requires Inv(s) && Enabled(s, e) && Touches(e)
    ensures |Apply(s, e).slots| == |s.slots|
    ensures Count(Apply(s, e).items, key) + AppliedOn(key)(s.slots[e.slot]) ==
            Count(s.items, key) + AppliedOn(key)(Apply(s, e).slots[e.slot])
  {
    assert SlotOk(s, s.slots[e.slot]);
  }

  predicate IsOutstanding(p: Phase) { p.Queued? || p.Running? }

  /** Counts the outstanding tasks of one instance. */
  ghost function Outstanding(instance: nat): Task -> nat {
    (t: Task) => if t.owner == instance && IsOutstanding(t.phase) then 1 else 0
  }

  /** Counts the hand-offs of one task. */
  ghost function IsTask(task: nat): nat -> nat {
    (t: nat) => if t == task then 1 else 0
  }

  ghost predicate Started(t: Task) { t.phase.Running? || t.phase.Done? }

  /** The wait group of an instance counts its outstanding tasks. */
  ghost predicate Waits(s: State, instance: nat) {
    WaitOf(s.waitGroups, instance) == Sum(s.tasks, Outstanding(instance))
  }

  ghost predicate TasksInv(s: State) {
    && (forall instance :: Waits(s, instance))
    && (forall t | t in s.starts :: t < |s.tasks|)
    && (forall t | 0 <= t < |s.tasks| :: Sum(s.starts, IsTask(t)) == if Started(s.tasks[t]) then 1 else 0)
  }

  lemma TaskStepKeepsWaitGroup(s: State, e: Event, instance: nat)
    requires Inv(s) && Enabled(s, e) && Waits(s, instance)
    ensures Waits(Apply(s, e), instance)
  {
    var t, f := Apply(s, e), Outstanding(instance);
    if e.Begin? {
      SumConcat(s.tasks, [Task(e.instance, Deciding)], f);
      SumOfOne(Task(e.instance, Deciding), f);
    } else if e.Enqueue? || e.Hand? || e.Spawn? || e.Finish? {
      assert t.tasks == s.tasks[e.task := t.tasks[e.task]];
      SumUpdate(s.tasks, e.task, t.tasks[e.task], f);
    } else {
      assert t.tasks == s.tasks && t.waitGroups == s.waitGroups;
    }
  }

  lemma TaskStepKeepsStarts(s: State, e: Event, task: nat)
    requires Inv(s) && Enabled(s, e) && TasksInv(s) && task < |Apply(s, e).tasks|
    ensures Sum(Apply(s, e).starts, IsTask(task)) == if Started(Apply(s, e).tasks[task]) then 1 else 0
  {
    if e.Hand? || e.Spawn? {
      SumConcat(s.starts, [e.task], IsTask(task));
      assert Sum([e.task], IsTask(task)) == IsTask(task)(e.task) by {
        assert [e.task][..0] == [];
      }
    }
    if task == |s.tasks| {
      SumZero(s.starts, IsTask(task));
    }
  }

  lemma StepKeepsTasksInv(s: State, e: Event)
    requires Inv(s) && Enabled(s, e) && TasksInv(s)
    ensures TasksInv(Apply(s, e))
  {
    var t := Apply(s, e);
    forall instance ensures Waits(t, instance) {
      TaskStepKeepsWaitGroup(s, e, instance);
    }
    forall task | 0 <= task < |t.tasks|
      ensures Sum(t.starts, IsTask(task)) == if Started(t.tasks[task]) then 1 else 0
    {
      TaskStepKeepsStarts(s, e, task);
    }
  }

  ghost predicate Good(s: State) {
    Inv(s) && TasksInv(s) && forall k :: Balanced(s, k)
  }

  lemma {:induction false} RunKeepsGood(s: State, es: seq<Event>)
    requires Good(s) && Valid(s, es)
    ensures Good(Run(s, es))
    decreases |es|
  {
    if es != [] {
      StepKeepsInv(s, es[0]);
      StepKeepsTasksInv(s, es[0]);
      forall k ensures Balanced(Apply(s, es[0]), k) {
        StepKeepsBalance(s, es[0], k);
      }
      RunKeepsGood(Apply(s, es[0]), es[1..]);
    }
  }

  lemma InitIsGood()
    ensures Good(INIT)
  {
  }

  ghost predicate Submitted(s: State, x: Slot) {
    x.task < |s.tasks| && !s.tasks[x.task].phase.Deciding? && !x.localHit
  }

  /** The hits on `key` that requests have handed to the background. */
  ghost function SubmittedOn(s: State, key: string): Slot -> nat {
    (x: Slot) => if x.key == key && Submitted(s, x) then x.hits else 0
  }

  ghost function PendingOn(s: State, key: string): Slot -> nat {
    (x: Slot) => if x.key == key && Submitted(s, x) && !x.stage.Applied? then x.hits else 0
  }

  /** Exactly once: in every reachable state the stored counter plus the
      submitted hits not applied yet equals all submitted hits, and every task
      was handed to a worker exactly once if it has left the queue and not
      before; a running task is held by exactly the worker it was given to. */
  lemma ExactlyOnce(es: seq<Event>, key: string)
    requires Valid(INIT, es)
    ensures var s := Run(INIT, es);
            && Count(s.items, key) + Sum(s.slots, PendingOn(s, key)) == Sum(s.slots, SubmittedOn(s, key))
            && (forall t | 0 <= t < |s.tasks| ::
                  Sum(s.starts, IsTask(t)) == if s.tasks[t].phase.Running? || s.tasks[t].phase.Done? then 1 else 0)
            && (forall t, w | 0 <= t < |s.tasks| && 0 <= w < |s.workers| ::
                  s.tasks[t].phase == Running(w) <==> s.workers[w].Busy? && s.workers[w].task == t)
  {
    var s := Run(INIT, es);
    InitIsGood();
    RunKeepsGood(INIT, es);
    assert Balanced(s, key);
    forall x | x in s.slots
      ensures SubmittedOn(s, key)(x) == AppliedOn(key)(x) + PendingOn(s, key)(x)
    {
      assert SlotOk(s, x);
    }
    SumPlus(s.slots, AppliedOn(key), PendingOn(s, key), SubmittedOn(s, key));
  }

  /** The hits on `key` that requests of one instance have handed to the background. */
  ghost function SubmittedBy(s: State, instance: nat, key: string): Slot -> nat {
    (x: Slot) => if x.instance == instance && x.key == key && Submitted(s, x) then x.hits else 0
  }

  ghost function AppliedBy(instance: nat, key: string): Slot -> nat {
    (x: Slot) => if x.instance == instance && x.key == key && x.stage.Applied? && !x.localHit then x.hits else 0
  }

  lemma NothingOutstanding(s: State, x: Slot)
    requires Good(s) && x in s.slots && Submitted(s, x) && WaitOf(s.waitGroups, x.instance) == 0
    ensures x.stage.Applied?
  {
    assert SlotOk(s, x) && Waits(s, x.instance);
    SumZero(s.tasks, Outstanding(x.instance));
    assert Outstanding(x.instance)(s.tasks[x.task]) == 0;
  }

  /** `Flush` of an instance returns when its wait group is zero; then all hits that the
      instance submitted are applied, each exactly once. A wait group is never negative. */
  lemma FlushMeansApplied(es: seq<Event>, instance: nat, key: string)
    requires Valid(INIT, es)
    ensures var s := Run(INIT, es);
            && WaitOf(s.waitGroups, instance) >= 0
            && (WaitOf(s.waitGroups, instance) == 0 ==>
                  && (forall x | x in s.slots && x.instance == instance && Submitted(s, x) :: x.stage.Applied?)
                  && Sum(s.slots, SubmittedBy(s, instance, key)) == Sum(s.slots, AppliedBy(instance, key)))
  {
    var s := Run(INIT, es);
    InitIsGood();
    RunKeepsGood(INIT, es);
    assert Waits(s, instance);
    if WaitOf(s.waitGroups, instance) == 0 {
      forall x | x in s.slots && x.instance == instance && Submitted(s, x) ensures x.stage.Applied? {
        NothingOutstanding(s, x);
      }
      forall x | x in s.slots ensures SubmittedBy(s, instance, key)(x) == AppliedBy(instance, key)(x) {
        assert SlotOk(s, x);
      }
      SumEqual(s.slots, SubmittedBy(s, instance, key), AppliedBy(instance, key));
    }
  }

  /** When all instances have flushed, every counter equals the hits submitted on it. */
  lemma AllFlushedMeansStored(es: seq<Event>, key: string)
    requires Valid(INIT, es)
    requires forall instance :: WaitOf(Run(INIT, es).waitGroups, instance) == 0
    ensures var s := Run(INIT, es); Count(s.items, key) == Sum(s.slots, SubmittedOn(s, key))
  {
    var s := Run(INIT, es);
    InitIsGood();
    RunKeepsGood(INIT, es);
    assert Balanced(s, key);
    forall x | x in s.slots ensures SubmittedOn(s, key)(x) == AppliedOn(key)(x) {
      assert SlotOk(s, x);
      if Submitted(s, x) {
        NothingOutstanding(s, x);
      }
    }
    SumEqual(s.slots, SubmittedOn(s, key), AppliedOn(key));
  }
}
