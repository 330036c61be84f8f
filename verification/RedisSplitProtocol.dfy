/** The state machine with two stores. Every command goes to the client that the unit of
    its limit selects; in all interleavings, the two stores together are the one store of
    `RedisProtocol`, so that every law proved there holds here. */
module RedisSplitProtocol {
  import opened Prelude
  import opened Limiter
  import opened RedisProtocol
  import RedisQuota

  datatype TwoState = TwoState(
    main: map<string, uint32>, second: map<string, uint32>, caches: set<(nat, string)>, slots: seq<Slot>, next: nat)

  const TWO_INIT := TwoState(map[], map[], {}, [], 0)

  predicate ToSecond(split: bool, limit: Limit) { split && limit.quota.unit == Second }

  /** The machine as one of the two clients sees it. */
  function Facing(t: TwoState, second: bool): State {
    State(if second then t.second else t.main, t.caches, t.slots, t.next)
  }

  /** Whether an event goes to the per-second client. */
  predicate Side(split: bool, t: TwoState, e: Event) {
    (e.Get? || e.Charge?) && e.slot < |t.slots| && ToSecond(split, t.slots[e.slot].limit)
  }

  /** Both stores after an effect on one of them. */
  function Put(t: TwoState, side: bool, r: State): TwoState {
    TwoState(if side then t.main else r.store, if side then r.store else t.second, r.caches, r.slots, r.next)
  }

  ghost predicate EnabledTwo(split: bool, t: TwoState, e: Event) { Enabled(Facing(t, Side(split, t, e)), e) }

  ghost function ApplyTwo(split: bool, t: TwoState, e: Event): TwoState
    requires EnabledTwo(split, t, e)
  {
    var side := Side(split, t, e);
    Put(t, side, Apply(Facing(t, side), e))
  }

  ghost predicate ValidTwo(split: bool, t: TwoState, es: seq<Event>)
    decreases |es|
  {
    es != [] ==> EnabledTwo(split, t, es[0]) && ValidTwo(split, ApplyTwo(split, t, es[0]), es[1..])
  }

  ghost function RunTwo(split: bool, t: TwoState, es: seq<Event>): TwoState
    requires ValidTwo(split, t, es)
    decreases |es|
  {
    if es == [] then t else RunTwo(split, ApplyTwo(split, t, es[0]), es[1..])
  }

  // ---------------------------------------------------------------- one store

  /** Both stores as one: the keys in `perSecond` are read from the second. */
  function Merged(main: map<string, uint32>, second: map<string, uint32>, perSecond: set<string>): map<string, uint32> {
    map key | key in main.Keys + second.Keys && (if key in perSecond then key in second else key in main) ::
      if key in perSecond then second[key] else main[key]
  }

  function Merge(t: TwoState, perSecond: set<string>): State {
    State(Merged(t.main, t.second, perSecond), t.caches, t.slots, t.next)
  }

  /** No key is used both with SECOND and with another unit. */
  ghost predicate Separated(split: bool, slots: seq<Slot>, perSecond: set<string>) {
    forall x | x in slots :: ToSecond(split, x.limit) <==> x.key in perSecond
  }

  ghost predicate StartsSeparated(split: bool, e: Event, perSecond: set<string>) {
    e.Start? ==> forall l | l in e.lookups :: ToSecond(split, l.limit) <==> l.key in perSecond
  }

  ghost predicate AllSeparated(split: bool, es: seq<Event>, perSecond: set<string>) {
    forall e | e in es :: StartsSeparated(split, e, perSecond)
  }

  /** What a call decides depends on the slots alone. */
  lemma SlotsDecide(a: State, b: State, id: nat)
    requires a.slots == b.slots
    ensures AnyLocal(a, id) == AnyLocal(b, id) && AnyNear(a, id) == AnyNear(b, id)
    ensures forall rank :: Reached(a, id, rank) == Reached(b, id, rank)
  {
  }

  lemma MergedCount(t: TwoState, perSecond: set<string>, key: string)
    ensures Count(Merge(t, perSecond).store, key) == Count(Facing(t, key in perSecond).store, key)
  {
  }

  lemma MergedUpdate(
    main: map<string, uint32>, second: map<string, uint32>, perSecond: set<string>, key: string, value: uint32)
    ensures Merged(main, second, perSecond)[key := value] ==
            if key in perSecond then Merged(main, second[key := value], perSecond)
            else Merged(main[key := value], second, perSecond)
  {
  }

  lemma EnabledAlike(split: bool, t: TwoState, e: Event, perSecond: set<string>)
    requires Separated(split, t.slots, perSecond)
    ensures EnabledTwo(split, t, e) <==> Enabled(Merge(t, perSecond), e)
  {
    var a, b := Facing(t, Side(split, t, e)), Merge(t, perSecond);
    if Touches(e) && e.slot < |t.slots| {
      var x := t.slots[e.slot];
      assert x in t.slots;
      SlotsDecide(a, b, x.call.id);
      MergedCount(t, perSecond, x.key);
    }
  }

  /** The effect of an INCRBY, given its amount. */
  function Charged(s: State, j: nat, amount: uint32): State
    requires j < |s.slots| && Count(s.store, s.slots[j].key) + amount < TWO_32
  {
    var x := s.slots[j];
    var after := Count(s.store, x.key) + amount;
    s.(store := s.store[x.key := after],
       slots := s.slots[j := x.(stage := RedisProtocol.Charged, amount := amount, result := after)])
  }

  lemma MergedCharge(split: bool, t: TwoState, j: nat, amount: uint32, perSecond: set<string>)
    requires j < |t.slots| && (ToSecond(split, t.slots[j].limit) <==> t.slots[j].key in perSecond)
    requires Count(Merge(t, perSecond).store, t.slots[j].key) + amount < TWO_32
    requires Count(Facing(t, t.slots[j].key in perSecond).store, t.slots[j].key) + amount < TWO_32
    ensures var side := t.slots[j].key in perSecond;
            Merge(Put(t, side, Charged(Facing(t, side), j, amount)), perSecond) ==
              Charged(Merge(t, perSecond), j, amount)
  {
    var x := t.slots[j];
    MergedCount(t, perSecond, x.key);
    MergedUpdate(t.main, t.second, perSecond, x.key, Count(Merge(t, perSecond).store, x.key) + amount);
  }

  lemma AmountAlike(a: State, b: State, x: Slot)
    requires a.slots == b.slots
    ensures Amount(a, x) == Amount(b, x)
  {
    SlotsDecide(a, b, x.call.id);
  }

  lemma ChargeApplies(s: State, j: nat)
    requires Enabled(s, Charge(j))
    ensures j < |s.slots| && (!s.slots[j].localHit ==> Count(s.store, s.slots[j].key) + Amount(s, s.slots[j]) < TWO_32)
    ensures Apply(s, Charge(j)) ==
            if s.slots[j].localHit then s.(slots := s.slots[j := s.slots[j].(stage := RedisProtocol.Charged)])
            else Charged(s, j, Amount(s, s.slots[j]))
  {
  }

  lemma ChargesAgree(split: bool, t: TwoState, j: nat, perSecond: set<string>)
    requires Separated(split, t.slots, perSecond)
    requires EnabledTwo(split, t, Charge(j)) && Enabled(Merge(t, perSecond), Charge(j))
    ensures Merge(ApplyTwo(split, t, Charge(j)), perSecond) == Apply(Merge(t, perSecond), Charge(j))
  {
    var side := Side(split, t, Charge(j));
    var a, b := Facing(t, side), Merge(t, perSecond);
    ChargeApplies(a, j);
    ChargeApplies(b, j);
    var x := t.slots[j];
    assert x in t.slots && side == (x.key in perSecond);
    if !x.localHit {
      AmountAlike(a, b, x);
      MergedCharge(split, t, j, Amount(b, x), perSecond);
    }
  }

  /** One step: the same slots, and stores that still make up the one store. */
  lemma StepsAgree(split: bool, t: TwoState, e: Event, perSecond: set<string>)
    requires Separated(split, t.slots, perSecond) && EnabledTwo(split, t, e) && Enabled(Merge(t, perSecond), e)
    ensures Merge(ApplyTwo(split, t, e), perSecond) == Apply(Merge(t, perSecond), e)
  {
    if e.Charge? {
      ChargesAgree(split, t, e.slot, perSecond);
    } else if e.Get? {
      assert t.slots[e.slot] in t.slots;
      MergedCount(t, perSecond, t.slots[e.slot].key);
    }
  }

  lemma StaysSeparated(split: bool, t: TwoState, e: Event, perSecond: set<string>)
    requires Separated(split, t.slots, perSecond) && StartsSeparated(split, e, perSecond) && EnabledTwo(split, t, e)
    ensures Separated(split, ApplyTwo(split, t, e).slots, perSecond)
  {
    var u := ApplyTwo(split, t, e);
    forall x | x in u.slots ensures ToSecond(split, x.limit) <==> x.key in perSecond {
      var j :| 0 <= j < |u.slots| && u.slots[j] == x;
      if j < |t.slots| {
        assert t.slots[j] in t.slots;
      } else {
        assert e.lookups[j - |t.slots|] in e.lookups;
      }
    }
  }

  /** Two stores equal one in every interleaving: a sequence of commands can be executed
      on two stores exactly when it can on one, and then every lookup makes the same
      progress with the same results, and the two stores make up the one. */
  lemma {:induction false} SplitRunsAgree(split: bool, t: TwoState, es: seq<Event>, perSecond: set<string>)
    requires Separated(split, t.slots, perSecond) && AllSeparated(split, es, perSecond)
    ensures ValidTwo(split, t, es) <==> Valid(Merge(t, perSecond), es)
    ensures ValidTwo(split, t, es) ==> Merge(RunTwo(split, t, es), perSecond) == Run(Merge(t, perSecond), es)
    decreases |es|
  {
    if es != [] {
      assert es[0] in es;
      EnabledAlike(split, t, es[0], perSecond);
      if EnabledTwo(split, t, es[0]) {
        StepsAgree(split, t, es[0], perSecond);
        StaysSeparated(split, t, es[0], perSecond);
        SplitRunsAgree(split, ApplyTwo(split, t, es[0]), es[1..], perSecond);
      }
    }
  }

  /** So the quota laws hold with two stores: fully admitted requests without shadow
      limits never total more than `max` hits on a key. */
  lemma SplitRequestsKeepQuota(split: bool, es: seq<Event>, perSecond: set<string>, key: string, max: nat)
    requires AllSeparated(split, es, perSecond) && ValidTwo(split, TWO_INIT, es)
    ensures var s := Merge(RunTwo(split, TWO_INIT, es), perSecond);
            Sum(s.slots, RedisQuota.AdmittedOn(s, key, max)) <= max
  {
    assert Merge(TWO_INIT, perSecond) == INIT;
    SplitRunsAgree(split, TWO_INIT, es, perSecond);
    RedisQuota.AdmittedRequestsKeepQuota(es, key, max);
  }
}
