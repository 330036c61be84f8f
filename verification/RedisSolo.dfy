/** The state machine against the code: a `DoLimit` call whose commands run without
    interruption is a run of `RedisProtocol`, and gives each lookup the charge, the
    result and the verdict that the contract of `RedisCache.FixedCache.DoLimit` states. */
module RedisSolo {
  import opened Prelude
  import opened Limiter
  import opened LimitCall
  import opened RedisProtocol
  import opened RedisRuns
  import RedisCache

  type Lookups = seq<LimitCall.Lookup>

  ghost predicate AllLook(l: Lookups) { forall i | 0 <= i < |l| :: l[i].Look? }

  /** The checked lookups of a request, in any state in which no result reaches 2^32. */
  ghost predicate Ready(s: State, call: Call, l: Lookups) {
    && AllLook(l)
    && (forall j | 0 <= j < |s.slots| :: s.slots[j].call.id != call.id)
    && call.id == s.next && call.hits >= 1 && call.width >= |l|
    && forall i | 0 <= i < |l| :: ResultOf(s, call, l, i) < TWO_32
  }

  ghost function KnownTo(s: State, call: Call): set<string> {
    if call.cached then set p | p in s.caches && p.0 == call.instance :: p.1 else {}
  }

  ghost function CountsAt(s: State, l: Lookups): (r: seq<nat>)
    requires AllLook(l)
    ensures |r| == |l|
  {
    seq(|l|, i requires 0 <= i < |l| => Count(s.store, l[i].key))
  }

  ghost function ChargesAt(s: State, call: Call, l: Lookups): (r: seq<Option<uint32>>)
    requires AllLook(l)
    ensures |r| == |l|
  {
    RedisCache.ChargesFor(call.stop, call.width, l, KnownTo(s, call), CountsAt(s, l), call.hits)
  }

  ghost function ResultOf(s: State, call: Call, l: Lookups, i: nat): nat
    requires AllLook(l) && i < |l|
  {
    RedisCache.ResultAt(l, ChargesAt(s, call, l), CountsAt(s, l), i)
  }

  /** Whether the call reads before it charges, told from the request. */
  ghost predicate Reads(s: State, call: Call, l: Lookups) {
    call.stop && call.width > 1 && !RedisCache.AnyKnown(l, KnownTo(s, call))
  }

  // ------------------------------------------ the slots of the call, phase by phase

  function Protocol(look: LimitCall.Lookup): Target
    requires look.Look?
  {
    Target(look.key, look.limit)
  }

  ghost function Slot0(call: Call, l: Lookups, i: nat): Slot
    requires AllLook(l) && i < |l|
  {
    NewSlot(call, Protocol(l[i]))
  }

  ghost function Slot1(s: State, call: Call, l: Lookups, i: nat): Slot
    requires AllLook(l) && i < |l|
  {
    Slot0(call, l, i).(stage := Checked, localHit := l[i].key in KnownTo(s, call))
  }

  ghost function Slot2(s: State, call: Call, l: Lookups, i: nat): Slot
    requires AllLook(l) && i < |l|
  {
    if Reads(s, call, l) then Slot1(s, call, l, i).(stage := Seen, current := Count(s.store, l[i].key))
    else Slot1(s, call, l, i)
  }

  ghost function Slot3(s: State, call: Call, l: Lookups, i: nat): Slot
    requires Ready(s, call, l) && i < |l|
  {
    var x := Slot2(s, call, l, i).(stage := Charged);
    if ChargesAt(s, call, l)[i].None? then x
    else
      x.(amount := ChargesAt(s, call, l)[i].value, result := ResultOf(s, call, l, i))
  }

  /** Slot `i` after `p` phases. */
  ghost function SlotAfter(s: State, call: Call, l: Lookups, p: nat, i: nat): Slot
    requires Ready(s, call, l) && i < |l| && p <= 3
  {
    if p == 0 then Slot0(call, l, i)
    else if p == 1 then Slot1(s, call, l, i)
    else if p == 2 then Slot2(s, call, l, i)
    else Slot3(s, call, l, i)
  }

  /** Slot `i` when the first `k` slots have finished phase `phase` and the others the one before. */
  ghost function SlotIn(s: State, call: Call, l: Lookups, phase: nat, k: nat, i: nat): Slot
    requires Ready(s, call, l) && i < |l| && 1 <= phase <= 3
  {
    SlotAfter(s, call, l, if i < k then phase else phase - 1, i)
  }

  ghost function Tail(s: State, call: Call, l: Lookups, phase: nat, k: nat): (r: seq<Slot>)
    requires Ready(s, call, l) && 1 <= phase <= 3
    ensures |r| == |l|
  {
    seq(|l|, i requires 0 <= i < |l| => SlotIn(s, call, l, phase, k, i))
  }

  /** The store after the first `k` charges. */
  ghost function StoreAt(s: State, call: Call, l: Lookups, k: nat): map<string, uint32>
    requires Ready(s, call, l) && k <= |l|
  {
    if k == 0 then s.store
    else
      var earlier := StoreAt(s, call, l, k - 1);
      if ChargesAt(s, call, l)[k - 1].None? then earlier
      else
        earlier[l[k - 1].key := ResultOf(s, call, l, k - 1)]
  }

  lemma {:induction false} StoreCounts(s: State, call: Call, l: Lookups, k: nat, key: string)
    requires Ready(s, call, l) && k <= |l|
    ensures Count(StoreAt(s, call, l, k), key) == Count(s.store, key) + Added(l, ChargesAt(s, call, l), key, k)
  {
    if k > 0 {
      StoreCounts(s, call, l, k - 1, key);
    }
  }

  /** The machine when the first `k` slots of the call have finished a phase. */
  ghost function At(s: State, call: Call, l: Lookups, phase: nat, k: nat): State
    requires Ready(s, call, l) && 1 <= phase <= 3 && k <= |l|
  {
    State(StoreAt(s, call, l, if phase < 3 then 0 else k), s.caches, s.slots + Tail(s, call, l, phase, k), s.next + 1)
  }

  // ------------------------------------------------------- decisions of the call

  /** The slots of the call in a state are exactly those of `tail`. */
  ghost predicate Owns(t: State, id: nat, first: nat, tail: seq<Slot>) {
    && |t.slots| == first + |tail|
    && (forall j | 0 <= j < first :: t.slots[j].call.id != id)
    && (forall i | 0 <= i < |tail| :: t.slots[first + i] == tail[i] && tail[i].call.id == id)
  }

  lemma OwnsTail(s: State, call: Call, l: Lookups, phase: nat, k: nat)
    requires Ready(s, call, l) && 1 <= phase <= 3 && k <= |l|
    ensures Owns(At(s, call, l, phase, k), call.id, |s.slots|, Tail(s, call, l, phase, k))
  {
    var t, tail := At(s, call, l, phase, k), Tail(s, call, l, phase, k);
    forall i | 0 <= i < |tail| ensures t.slots[|s.slots| + i] == tail[i] && tail[i].call.id == call.id {
      SlotFacts(s, call, l, phase, k, i);
      assert tail[i] == SlotIn(s, call, l, phase, k, i);
    }
  }

  lemma OwnReached(t: State, id: nat, first: nat, tail: seq<Slot>, rank: nat)
    requires Owns(t, id, first, tail) && forall i | 0 <= i < |tail| :: Rank(tail[i].stage) >= rank
    ensures Reached(t, id, rank)
  {
    forall j | 0 <= j < |t.slots| && t.slots[j].call.id == id ensures Rank(t.slots[j].stage) >= rank {
      assert t.slots[first + (j - first)] == tail[j - first];
    }
  }

  lemma OwnLocal(t: State, id: nat, first: nat, tail: seq<Slot>)
    requires Owns(t, id, first, tail)
    ensures AnyLocal(t, id) <==> exists i | 0 <= i < |tail| :: tail[i].localHit
  {
    if AnyLocal(t, id) {
      var j :| 0 <= j < |t.slots| && t.slots[j].call.id == id && t.slots[j].localHit;
      assert t.slots[first + (j - first)] == tail[j - first];
    }
    if i :| 0 <= i < |tail| && tail[i].localHit {
      assert t.slots[first + i].localHit;
    }
  }

  lemma OwnNear(t: State, id: nat, first: nat, tail: seq<Slot>)
    requires Owns(t, id, first, tail)
    ensures AnyNear(t, id) <==> exists i | 0 <= i < |tail| :: RedisProtocol.IsNear(tail[i])
  {
    if AnyNear(t, id) {
      var j :| 0 <= j < |t.slots| && t.slots[j].call.id == id && RedisProtocol.IsNear(t.slots[j]);
      assert t.slots[first + (j - first)] == tail[j - first];
    }
    if i :| 0 <= i < |tail| && RedisProtocol.IsNear(tail[i]) {
      assert RedisProtocol.IsNear(t.slots[first + i]);
    }
  }

  /** What a slot holds after `p` phases. */
  ghost predicate Facts(s: State, call: Call, l: Lookups, p: nat, i: nat, x: Slot)
    requires AllLook(l) && i < |l|
  {
    && x.call == call && x.key == l[i].key && x.limit == l[i].limit
    && (p >= 1 ==> x.localHit == (l[i].key in KnownTo(s, call)) && Rank(x.stage) >= 1)
    && (p >= 2 && Reads(s, call, l) ==> x.current == Count(s.store, l[i].key) && Rank(x.stage) >= 2)
    && (p >= 3 ==> Rank(x.stage) >= 3)
  }

  lemma FactsAfter(s: State, call: Call, l: Lookups, p: nat, i: nat)
    requires Ready(s, call, l) && i < |l| && p <= 3
    ensures Facts(s, call, l, p, i, SlotAfter(s, call, l, p, i))
  {
  }

  lemma SlotFacts(s: State, call: Call, l: Lookups, phase: nat, k: nat, i: nat)
    requires Ready(s, call, l) && 1 <= phase <= 3 && k <= |l| && i < |l|
    ensures var x := SlotIn(s, call, l, phase, k, i);
            && x.call == call && x.key == l[i].key && x.limit == l[i].limit
            && (phase >= 2 ==> x.localHit == (l[i].key in KnownTo(s, call)) && Rank(x.stage) >= 1)
            && (phase >= 3 && Reads(s, call, l) ==> x.current == Count(s.store, l[i].key) && Rank(x.stage) >= 2)
  {
    FactsAfter(s, call, l, if i < k then phase else phase - 1, i);
  }

  /** From the second phase on, the machine decides about reading like the request says. */
  lemma LooksAgree(s: State, call: Call, l: Lookups, phase: nat, k: nat)
    requires Ready(s, call, l) && 2 <= phase <= 3 && k <= |l|
    ensures AnyLocal(At(s, call, l, phase, k), call.id) <==> RedisCache.AnyKnown(l, KnownTo(s, call))
  {
    var tail := Tail(s, call, l, phase, k);
    OwnsTail(s, call, l, phase, k);
    OwnLocal(At(s, call, l, phase, k), call.id, |s.slots|, tail);
    forall i | 0 <= i < |l| ensures tail[i].localHit == IsKnown(l[i], KnownTo(s, call)) {
      SlotFacts(s, call, l, phase, k, i);
    }
  }

  lemma NearSlot(s: State, call: Call, l: Lookups, k: nat, i: nat)
    requires Ready(s, call, l) && k <= |l| && Reads(s, call, l) && i < |l|
    ensures RedisProtocol.IsNear(SlotIn(s, call, l, 3, k, i)) <==>
            RedisCache.IsNear(l[i], CountsAt(s, l)[i], call.hits)
  {
    SlotFacts(s, call, l, 3, k, i);
  }

  lemma NearAgrees(s: State, call: Call, l: Lookups, k: nat)
    requires Ready(s, call, l) && k <= |l| && Reads(s, call, l)
    ensures AnyNear(At(s, call, l, 3, k), call.id) <==> RedisCache.AnyNear(l, CountsAt(s, l), call.hits)
  {
    var tail, counts := Tail(s, call, l, 3, k), CountsAt(s, l);
    assert AnyNear(At(s, call, l, 3, k), call.id) <==>
           exists i | 0 <= i < |tail| :: RedisProtocol.IsNear(tail[i]) by {
      OwnsTail(s, call, l, 3, k);
      OwnNear(At(s, call, l, 3, k), call.id, |s.slots|, tail);
    }
    if i :| 0 <= i < |l| && RedisProtocol.IsNear(tail[i]) {
      NearSlot(s, call, l, k, i);
      assert RedisCache.IsNear(l[i], counts[i], call.hits);
    }
    if i :| 0 <= i < |l| && RedisCache.IsNear(l[i], counts[i], call.hits) {
      NearSlot(s, call, l, k, i);
      assert RedisProtocol.IsNear(tail[i]);
    }
  }

  /** All slots of the call have come as far as the next step needs. */
  lemma ReachedIn(s: State, call: Call, l: Lookups, phase: nat, k: nat)
    requires Ready(s, call, l) && 2 <= phase <= 3 && k <= |l|
    ensures Reached(At(s, call, l, phase, k), call.id, if phase == 3 && Reads(s, call, l) then 2 else 1)
  {
    var tail := Tail(s, call, l, phase, k);
    var rank := if phase == 3 && Reads(s, call, l) then 2 else 1;
    OwnsTail(s, call, l, phase, k);
    forall i | 0 <= i < |l| ensures Rank(tail[i].stage) >= rank {
      SlotFacts(s, call, l, phase, k, i);
    }
    OwnReached(At(s, call, l, phase, k), call.id, |s.slots|, tail, rank);
  }

  /** The machine charges what the contract charges. */
  lemma AmountAgrees(s: State, call: Call, l: Lookups, k: nat)
    requires Ready(s, call, l) && k < |l|
    ensures ChargesAt(s, call, l)[k].None? <==> l[k].key in KnownTo(s, call)
    ensures ChargesAt(s, call, l)[k].Some? ==>
              Amount(At(s, call, l, 3, k), Slot2(s, call, l, k)) == ChargesAt(s, call, l)[k].value
  {
    LooksAgree(s, call, l, 3, k);
    if Reads(s, call, l) {
      NearAgrees(s, call, l, k);
    }
  }

  // ------------------------------------------------------------------- the steps

  lemma TailStep(s: State, call: Call, l: Lookups, phase: nat, k: nat)
    requires Ready(s, call, l) && 1 <= phase <= 3 && k < |l|
    ensures (s.slots + Tail(s, call, l, phase, k))[|s.slots| + k := SlotIn(s, call, l, phase, k + 1, k)] ==
            s.slots + Tail(s, call, l, phase, k + 1)
  {
  }

  lemma CheckStep(s: State, call: Call, l: Lookups, k: nat)
    requires Ready(s, call, l) && k < |l|
    ensures Leads(At(s, call, l, 1, k), Check(|s.slots| + k), At(s, call, l, 1, k + 1))
  {
    TailStep(s, call, l, 1, k);
  }

  lemma GetStep(s: State, call: Call, l: Lookups, k: nat)
    requires Ready(s, call, l) && k < |l| && Reads(s, call, l)
    ensures Leads(At(s, call, l, 2, k), Get(|s.slots| + k), At(s, call, l, 2, k + 1))
  {
    LooksAgree(s, call, l, 2, k);
    ReachedIn(s, call, l, 2, k);
    TailStep(s, call, l, 2, k);
  }

  /** The running count of a key when its turn comes. */
  lemma ChargeContinues(s: State, call: Call, l: Lookups, k: nat)
    requires Ready(s, call, l) && k < |l| && ChargesAt(s, call, l)[k].Some?
    ensures Count(StoreAt(s, call, l, k), l[k].key) + ChargesAt(s, call, l)[k].value == ResultOf(s, call, l, k) < TWO_32
  {
    StoreCounts(s, call, l, k, l[k].key);
  }

  lemma ChargeSlot(s: State, call: Call, l: Lookups, k: nat)
    requires Ready(s, call, l) && k < |l|
    ensures At(s, call, l, 3, k).slots[|s.slots| + k] == Slot2(s, call, l, k)
  {
    assert Tail(s, call, l, 3, k)[k] == SlotIn(s, call, l, 3, k, k);
  }

  lemma CanCharge(t: State, j: nat, x: Slot)
    requires j < |t.slots| && t.slots[j] == x
    requires if Looks(t, x.call) then x.stage == Seen && Reached(t, x.call.id, 2)
             else x.stage == Checked && Reached(t, x.call.id, 1)
    requires !x.localHit ==> Count(t.store, x.key) + Amount(t, x) < TWO_32
    ensures Enabled(t, RedisProtocol.Charge(j))
  {
  }

  /** The INCRBY of the machine has the amount and the result of the contract. */
  lemma ChargeAgrees(s: State, call: Call, l: Lookups, k: nat)
    requires Ready(s, call, l) && k < |l|
    ensures var t, x, charge := At(s, call, l, 3, k), Slot2(s, call, l, k), ChargesAt(s, call, l)[k];
            && (x.localHit <==> charge.None?)
            && (!x.localHit ==>
                  && Amount(t, x) == charge.value
                  && Count(t.store, x.key) + Amount(t, x) == ResultOf(s, call, l, k) < TWO_32)
  {
    AmountAgrees(s, call, l, k);
    FactsAfter(s, call, l, 2, k);
    if ChargesAt(s, call, l)[k].Some? {
      ChargeContinues(s, call, l, k);
    }
  }

  lemma ChargeEnabled(s: State, call: Call, l: Lookups, k: nat)
    requires Ready(s, call, l) && k < |l|
    ensures At(s, call, l, 3, k).slots[|s.slots| + k] == Slot2(s, call, l, k)
    ensures Enabled(At(s, call, l, 3, k), RedisProtocol.Charge(|s.slots| + k))
  {
    ChargeSlot(s, call, l, k);
    LooksAgree(s, call, l, 3, k);
    ReachedIn(s, call, l, 3, k);
    ChargeAgrees(s, call, l, k);
    CanCharge(At(s, call, l, 3, k), |s.slots| + k, Slot2(s, call, l, k));
  }

  lemma ChargeApplies(t: State, j: nat)
    requires Enabled(t, RedisProtocol.Charge(j))
    ensures var u, x := Apply(t, RedisProtocol.Charge(j)), t.slots[j];
            if x.localHit then u == t.(slots := t.slots[j := x.(stage := Charged)])
            else
              var after := Count(t.store, x.key) + Amount(t, x);
              u == t.(store := t.store[x.key := after],
                      slots := t.slots[j := x.(stage := Charged, amount := Amount(t, x), result := after)])
  {
  }

  /** What the charge step does to the slot and to the store. */
  lemma ChargeEffect(s: State, call: Call, l: Lookups, k: nat)
    requires Ready(s, call, l) && k < |l|
    requires Enabled(At(s, call, l, 3, k), RedisProtocol.Charge(|s.slots| + k))
    ensures var t := At(s, call, l, 3, k);
            var u := Apply(t, RedisProtocol.Charge(|s.slots| + k));
            && u.slots == t.slots[|s.slots| + k := Slot3(s, call, l, k)]
            && u.store == StoreAt(s, call, l, k + 1)
  {
    var x := Slot2(s, call, l, k);
    ChargeSlot(s, call, l, k);
    ChargeAgrees(s, call, l, k);
    ChargeApplies(At(s, call, l, 3, k), |s.slots| + k);
    if x.localHit {
      assert Slot3(s, call, l, k) == x.(stage := Charged);
    } else {
      assert Slot3(s, call, l, k) ==
             x.(stage := Charged, amount := ChargesAt(s, call, l)[k].value, result := ResultOf(s, call, l, k));
    }
  }

  lemma ChargeStep(s: State, call: Call, l: Lookups, k: nat)
    requires Ready(s, call, l) && k < |l|
    ensures Leads(At(s, call, l, 3, k), RedisProtocol.Charge(|s.slots| + k), At(s, call, l, 3, k + 1))
  {
    ChargeEnabled(s, call, l, k);
    ChargeEffect(s, call, l, k);
    TailStep(s, call, l, 3, k);
  }

  // -------------------------------------------------------------------- the runs

  // The events of each phase, slot by slot.

  ghost function Checks(first: nat, n: nat): (r: seq<Event>)
    ensures |r| == n
  {
    seq(n, k requires 0 <= k < n => Check(first + k))
  }

  ghost function Gets(first: nat, n: nat): (r: seq<Event>)
    ensures |r| == n
  {
    seq(n, k requires 0 <= k < n => Get(first + k))
  }

  ghost function ChargeEvents(first: nat, n: nat): (r: seq<Event>)
    ensures |r| == n
  {
    seq(n, k requires 0 <= k < n => RedisProtocol.Charge(first + k))
  }

  /** The states of one phase, before the first event and after each. */
  ghost function States(s: State, call: Call, l: Lookups, phase: nat): (r: seq<State>)
    requires Ready(s, call, l) && 1 <= phase <= 3
    ensures |r| == |l| + 1
  {
    seq(|l| + 1, k requires 0 <= k <= |l| => At(s, call, l, phase, k))
  }

  lemma ChecksRun(s: State, call: Call, l: Lookups)
    requires Ready(s, call, l)
    ensures Runs(At(s, call, l, 1, 0), Checks(|s.slots|, |l|), At(s, call, l, 1, |l|))
  {
    var states, es := States(s, call, l, 1), Checks(|s.slots|, |l|);
    forall k | 0 <= k < |es| ensures Leads(states[k], es[k], states[k + 1]) {
      CheckStep(s, call, l, k);
    }
    Chain(states, es);
  }

  lemma GetsRun(s: State, call: Call, l: Lookups)
    requires Ready(s, call, l) && Reads(s, call, l)
    ensures Runs(At(s, call, l, 2, 0), Gets(|s.slots|, |l|), At(s, call, l, 2, |l|))
  {
    var states, es := States(s, call, l, 2), Gets(|s.slots|, |l|);
    forall k | 0 <= k < |es| ensures Leads(states[k], es[k], states[k + 1]) {
      GetStep(s, call, l, k);
    }
    Chain(states, es);
  }

  lemma ChargesRun(s: State, call: Call, l: Lookups)
    requires Ready(s, call, l)
    ensures Runs(At(s, call, l, 3, 0), ChargeEvents(|s.slots|, |l|), At(s, call, l, 3, |l|))
  {
    var states, es := States(s, call, l, 3), ChargeEvents(|s.slots|, |l|);
    forall k | 0 <= k < |es| ensures Leads(states[k], es[k], states[k + 1]) {
      ChargeStep(s, call, l, k);
    }
    Chain(states, es);
  }

  /** A finished phase is the next one not begun; without reading the second phase is empty. */
  lemma PhaseEnds(s: State, call: Call, l: Lookups, phase: nat)
    requires Ready(s, call, l) && 1 <= phase <= 2
    ensures At(s, call, l, phase, |l|) == At(s, call, l, phase + 1, 0)
    ensures phase == 2 && !Reads(s, call, l) ==> At(s, call, l, 2, 0) == At(s, call, l, 2, |l|)
  {
    assert Tail(s, call, l, phase, |l|) == Tail(s, call, l, phase + 1, 0);
    if phase == 2 && !Reads(s, call, l) {
      assert Tail(s, call, l, 2, 0) == Tail(s, call, l, 2, |l|);
    }
  }

  lemma StartRuns(s: State, call: Call, l: Lookups)
    requires Ready(s, call, l)
    ensures Runs(s, [Start(call, seq(|l|, i requires 0 <= i < |l| => Protocol(l[i])))], At(s, call, l, 1, 0))
  {
    var looks := seq(|l|, i requires 0 <= i < |l| => Protocol(l[i]));
    assert NewSlots(call, looks) == Tail(s, call, l, 1, 0);
    Chain([s, At(s, call, l, 1, 0)], [Start(call, looks)]);
  }

  /** All events of the call, in the order of the code. */
  ghost function Solo(s: State, call: Call, l: Lookups): seq<Event>
    requires AllLook(l)
  {
    [Start(call, seq(|l|, i requires 0 <= i < |l| => Protocol(l[i])))] +
    (Checks(|s.slots|, |l|) +
     ((if Reads(s, call, l) then Gets(|s.slots|, |l|) else []) + Charging(|s.slots|, |l|)))
  }

  /** The phases after the reading one. */
  ghost function Charging(first: nat, n: nat): seq<Event> { ChargeEvents(first, n) + Answers(first, n) }

  /** The slots of the call when all are charged. */
  ghost function Own(s: State, call: Call, l: Lookups): (r: seq<Slot>)
    requires Ready(s, call, l)
    ensures |r| == |l|
  {
    Tail(s, call, l, 3, |l|)
  }

  /** The machine when the call is over. */
  ghost function End(s: State, call: Call, l: Lookups): State
    requires Ready(s, call, l)
  {
    State(StoreAt(s, call, l, |l|), s.caches + EntriesOf(Own(s, call, l)), s.slots + AllJudged(Own(s, call, l)),
          s.next + 1)
  }

  lemma OwnAreCharged(s: State, call: Call, l: Lookups)
    requires Ready(s, call, l)
    ensures ReadyToAnswer(s.slots, Own(s, call, l), call.id)
  {
    var own := Own(s, call, l);
    forall x | x in own ensures x.call.id == call.id && x.stage == Charged {
      var i :| 0 <= i < |own| && own[i] == x;
      assert own[i] == SlotIn(s, call, l, 3, |l|, i) == Slot3(s, call, l, i);
    }
  }

  lemma LaterPhases(s: State, call: Call, l: Lookups)
    requires Ready(s, call, l)
    ensures Runs(At(s, call, l, 2, |l|), Charging(|s.slots|, |l|), End(s, call, l))
  {
    var first, n := |s.slots|, |l|;
    PhaseEnds(s, call, l, 2);
    ChargesRun(s, call, l);
    OwnAreCharged(s, call, l);
    AllAnswersRun(At(s, call, l, 3, n), s.slots, Own(s, call, l), call.id);
    RunConcat(At(s, call, l, 3, 0), ChargeEvents(first, n), At(s, call, l, 3, n), Answers(first, n), End(s, call, l));
  }

  lemma ReadingRuns(s: State, call: Call, l: Lookups)
    requires Ready(s, call, l)
    ensures Runs(At(s, call, l, 1, |l|), if Reads(s, call, l) then Gets(|s.slots|, |l|) else [], At(s, call, l, 2, |l|))
  {
    PhaseEnds(s, call, l, 1);
    PhaseEnds(s, call, l, 2);
    if Reads(s, call, l) {
      GetsRun(s, call, l);
    }
  }

  lemma SoloEnds(s: State, call: Call, l: Lookups)
    requires Ready(s, call, l)
    ensures Runs(s, Solo(s, call, l), End(s, call, l))
  {
    var first, n := |s.slots|, |l|;
    var start := [Start(call, seq(|l|, i requires 0 <= i < |l| => Protocol(l[i])))];
    var reading := if Reads(s, call, l) then Gets(first, n) else [];
    var end := End(s, call, l);
    LaterPhases(s, call, l);
    ReadingRuns(s, call, l);
    RunConcat(At(s, call, l, 1, n), reading, At(s, call, l, 2, n), Charging(first, n), end);
    ChecksRun(s, call, l);
    RunConcat(At(s, call, l, 1, 0), Checks(first, n), At(s, call, l, 1, n), reading + Charging(first, n), end);
    StartRuns(s, call, l);
    RunConcat(s, start, At(s, call, l, 1, 0), Checks(first, n) + (reading + Charging(first, n)), end);
  }

  /** The counts after each charge of an uninterrupted call. */
  ghost function AfterAt(s: State, call: Call, l: Lookups): (r: seq<nat>)
    requires AllLook(l)
    ensures |r| == |l|
  {
    seq(|l|, i requires 0 <= i < |l| => ResultOf(s, call, l, i))
  }

  lemma AftersFit(s: State, call: Call, l: Lookups)
    requires Ready(s, call, l)
    ensures forall i | 0 <= i < |l| :: AfterAt(s, call, l)[i] < TWO_32
  {
    forall i | 0 <= i < |l| ensures AfterAt(s, call, l)[i] < TWO_32 {
    }
  }

  lemma VerdictAgrees(s: State, call: Call, l: Lookups, i: nat)
    requires Ready(s, call, l) && i < |l|
    requires forall j | 0 <= j < |l| :: AfterAt(s, call, l)[j] < TWO_32
    ensures VerdictOf(Slot3(s, call, l, i)) ==
            Verdicts(l, RedisCache.Befores(AfterAt(s, call, l), call.hits), AfterAt(s, call, l),
                     KnownTo(s, call), call.hits)[i]
  {
    AmountAgrees(s, call, l, i);
    var x := Slot3(s, call, l, i);
    assert x.result == AfterAt(s, call, l)[i];
    assert x.localHit == (l[i].key in KnownTo(s, call));
  }

  /** The verdicts that the contract of `DoLimit` computes. */
  ghost function VerdictsAt(s: State, call: Call, l: Lookups): (v: seq<Verdict>)
    requires Ready(s, call, l) && forall j | 0 <= j < |l| :: AfterAt(s, call, l)[j] < TWO_32
    ensures |v| == |l|
  {
    Verdicts(l, RedisCache.Befores(AfterAt(s, call, l), call.hits), AfterAt(s, call, l), KnownTo(s, call), call.hits)
  }

  lemma SlotAnswered(s: State, call: Call, l: Lookups, i: nat)
    requires Ready(s, call, l) && i < |l| && forall j | 0 <= j < |l| :: AfterAt(s, call, l)[j] < TWO_32
    ensures var x := Own(s, call, l)[i];
            VerdictOf(x) == VerdictsAt(s, call, l)[i] && x.call == call && x.key == l[i].key
  {
    assert Own(s, call, l)[i] == SlotIn(s, call, l, 3, |l|, i) == Slot3(s, call, l, i);
    VerdictAgrees(s, call, l, i);
  }

  /** The cache entries that the verdicts on the first `k` lookups make. */
  ghost function Entered(call: Call, l: Lookups, v: seq<Verdict>, k: nat): set<(nat, string)>
    requires k <= |l| == |v|
  {
    if call.cached then set i | 0 <= i < k && l[i].Look? && v[i].caches :: (call.instance, l[i].key) else {}
  }

  lemma {:induction false} EntriesAreEntered(call: Call, l: Lookups, v: seq<Verdict>, own: seq<Slot>, k: nat)
    requires AllLook(l) && k <= |l| == |v| == |own|
    requires forall i | 0 <= i < |l| :: VerdictOf(own[i]) == v[i] && own[i].call == call && own[i].key == l[i].key
    ensures EntriesOf(own[..k]) == Entered(call, l, v, k)
  {
    if k > 0 {
      EntriesAreEntered(call, l, v, own, k - 1);
      assert own[..k][..k - 1] == own[..k - 1];
    }
  }

  lemma SoloAnswers(s: State, call: Call, l: Lookups)
    requires Ready(s, call, l) && forall j | 0 <= j < |l| :: AfterAt(s, call, l)[j] < TWO_32
    ensures var t, v := End(s, call, l), VerdictsAt(s, call, l);
            && |t.slots| == |s.slots| + |l|
            && (forall i | 0 <= i < |l| :: t.slots[|s.slots| + i].stage == Judged(v[i]))
            && t.caches == s.caches + Entered(call, l, v, |l|)
  {
    var own, v := Own(s, call, l), VerdictsAt(s, call, l);
    forall i | 0 <= i < |l| ensures VerdictOf(own[i]) == v[i] && own[i].call == call && own[i].key == l[i].key {
      SlotAnswered(s, call, l, i);
    }
    EntriesAreEntered(call, l, v, own, |l|);
    assert own[..|l|] == own;
  }

  lemma SoloCounters(s: State, call: Call, l: Lookups)
    requires Ready(s, call, l)
    ensures forall key :: Count(End(s, call, l).store, key) ==
              Count(s.store, key) + Added(l, ChargesAt(s, call, l), key, |l|)
  {
    forall key
      ensures Count(End(s, call, l).store, key) == Count(s.store, key) + Added(l, ChargesAt(s, call, l), key, |l|)
    {
      StoreCounts(s, call, l, |l|, key);
    }
  }

  /** In every mode, the checked lookups of an uninterrupted call take the machine to the
      counters and cache entries, and get the verdicts, that the contract of `DoLimit` computes. */
  lemma SoloRuns(s: State, call: Call, l: Lookups)
    requires Ready(s, call, l)
    ensures Valid(s, Solo(s, call, l))
    ensures forall key :: Count(Run(s, Solo(s, call, l)).store, key) ==
              Count(s.store, key) + Added(l, ChargesAt(s, call, l), key, |l|)
    ensures forall i | 0 <= i < |l| :: AfterAt(s, call, l)[i] < TWO_32
    ensures var t, v := Run(s, Solo(s, call, l)), VerdictsAt(s, call, l);
            && |t.slots| == |s.slots| + |l|
            && (forall i | 0 <= i < |l| :: t.slots[|s.slots| + i].stage == Judged(v[i]))
            && t.caches == s.caches + Entered(call, l, v, |l|)
  {
    SoloEnds(s, call, l);
    SoloCounters(s, call, l);
    AftersFit(s, call, l);
    SoloAnswers(s, call, l);
  }
}
