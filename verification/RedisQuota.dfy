/** Safety of the Redis limiter over all interleavings: quotas hold per key, and
    the stop mode charges a request completely or rejects it. */
module RedisQuota {
  import opened Prelude
  import opened Limiter
  import opened RedisProtocol

  /** The amounts whose INCRBY on `key` returned at most `max`. */
  ghost function ChargedUpTo(key: string, max: nat): Slot -> nat {
    (x: Slot) => if x.key == key && Rank(x.stage) >= 3 && x.result <= max then x.amount else 0
  }

  ghost predicate Capped(s: State, key: string, max: nat) {
    Sum(s.slots, ChargedUpTo(key, max)) <= Min(max, Count(s.store, key))
  }

  lemma StepKeepsCap(s: State, e: Event, key: string, max: nat)
    requires Inv(s) && Enabled(s, e) && Capped(s, key, max)
    ensures Capped(Apply(s, e), key, max)
  {
    SumAfterStep(s, e, ChargedUpTo(key, max));
    CountsGrow(s, e, key);
    if Touches(e) {
      assert SlotOk(s, s.slots[e.slot]);
    }
  }

  lemma {:induction false} RunKeepsCap(s: State, es: seq<Event>, key: string, max: nat)
    requires Inv(s) && Valid(s, es) && Capped(s, key, max)
    ensures Capped(Run(s, es), key, max)
    decreases |es|
  {
    if es != [] {
      StepKeepsInv(s, es[0]);
      StepKeepsCap(s, es[0], key, max);
      RunKeepsCap(Apply(s, es[0]), es[1..], key, max);
    }
  }

  /** The within-limit statistic of the answers on `key` whose quota is at most `max`. */
  ghost function WithinOn(key: string, max: nat): Slot -> nat {
    (x: Slot) =>
      if x.key == key && x.limit.quota.perUnit <= max && x.stage.Judged?
      then x.stage.verdict.delta.withinLimit else 0
  }

  ghost predicate NeverStops(s: State) {
    forall x | x in s.slots :: !x.call.stop
  }

  /** Quota safety: in every run without the stop mode, the hits judged within a
      quota of at most `max` on one key total at most `max`. */
  lemma QuotaSafety(es: seq<Event>, key: string, max: nat)
    requires Valid(INIT, es) && NeverStops(Run(INIT, es))
    ensures Sum(Run(INIT, es).slots, WithinOn(key, max)) <= max
  {
    var s := Run(INIT, es);
    RunKeepsInv(INIT, es);
    RunKeepsCap(INIT, es, key, max);
    forall x | x in s.slots ensures WithinOn(key, max)(x) <= ChargedUpTo(key, max)(x) {
      assert SlotOk(s, x);
    }
    SumMonotone(s.slots, WithinOn(key, max), ChargedUpTo(key, max));
  }

  ghost predicate NoShadow(s: State, id: nat) {
    forall x | x in s.slots && x.call.id == id :: !x.limit.shadowMode
  }

  ghost predicate AllAnswered(s: State, id: nat) {
    forall x | x in s.slots && x.call.id == id :: x.stage.Judged?
  }

  ghost predicate SomeOverLimit(s: State, id: nat)
    requires AllAnswered(s, id)
  {
    exists x | x in s.slots && x.call.id == id :: x.stage.verdict.code == OverLimit
  }

  lemma LocalHitIsOverLimit(s: State, x: Slot)
    requires Inv(s) && x in s.slots && x.localHit && x.stage.Judged? && !x.limit.shadowMode
    ensures x.stage.verdict.code == OverLimit
  {
    assert SlotOk(s, x);
  }

  /** A key that looked near its limit is over it once charged, whatever other
      calls did to the counter since the GET. */
  lemma NearKeyIsOverLimit(s: State, x: Slot)
    requires Inv(s) && x in s.slots && x.stage.Judged? && !x.limit.shadowMode
    requires Looks(s, x.call) && IsNear(x)
    ensures x.stage.verdict.code == OverLimit
  {
    assert SlotOk(s, x);
  }

  /** All or nothing: when a request without shadow limits leaves any of its
      keys without the full charge, one of its statuses is OVER_LIMIT. */
  lemma UnchargedKeyMeansOverLimit(s: State, x: Slot)
    requires Inv(s) && x in s.slots
    requires AllAnswered(s, x.call.id) && NoShadow(s, x.call.id)
    requires x.amount != x.call.hits
    ensures SomeOverLimit(s, x.call.id)
  {
    assert SlotOk(s, x);
    if x.localHit {
      LocalHitIsOverLimit(s, x);
    } else if Looks(s, x.call) {
      var j :| 0 <= j < |s.slots| && s.slots[j].call.id == x.call.id && IsNear(s.slots[j]);
      assert s.slots[j].call == x.call;
      NearKeyIsOverLimit(s, s.slots[j]);
    } else {
      var j :| 0 <= j < |s.slots| && s.slots[j].call.id == x.call.id && s.slots[j].localHit;
      LocalHitIsOverLimit(s, s.slots[j]);
    }
  }

  /** A request all of whose statuses are OK. */
  ghost predicate Admitted(s: State, id: nat) {
    && AllAnswered(s, id) && !SomeOverLimit(s, id) && NoShadow(s, id)
  }

  /** The hits of admitted requests on `key` under a quota of at most `max`. */
  ghost function AdmittedOn(s: State, key: string, max: nat): Slot -> nat {
    (x: Slot) =>
      if x.key == key && x.limit.quota.perUnit <= max && Admitted(s, x.call.id) then x.call.hits else 0
  }

  lemma AdmittedIsCharged(s: State, x: Slot)
    requires Inv(s) && x in s.slots && Admitted(s, x.call.id)
    ensures x.amount == x.call.hits && x.result <= x.limit.quota.perUnit
  {
    assert SlotOk(s, x);
    if x.amount != x.call.hits {
      UnchargedKeyMeansOverLimit(s, x);
    }
  }

  /** Request-level quota safety in every mode, with and without local caches:
      fully admitted requests never total more than `max` hits on a key. */
  lemma AdmittedRequestsKeepQuota(es: seq<Event>, key: string, max: nat)
    requires Valid(INIT, es)
    ensures var s := Run(INIT, es); Sum(s.slots, AdmittedOn(s, key, max)) <= max
  {
    var s := Run(INIT, es);
    RunKeepsInv(INIT, es);
    RunKeepsCap(INIT, es, key, max);
    forall x | x in s.slots ensures AdmittedOn(s, key, max)(x) <= ChargedUpTo(key, max)(x) {
      assert SlotOk(s, x);
      if Admitted(s, x.call.id) {
        AdmittedIsCharged(s, x);
      }
    }
    SumMonotone(s.slots, AdmittedOn(s, key, max), ChargedUpTo(key, max));
  }
}
