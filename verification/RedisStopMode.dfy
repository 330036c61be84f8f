/** The mode that stops incrementing when a key is over its limit: exactly when one
    `DoLimit` call of `src/redis/fixed_cache_impl.go` either charges all its keys or
    rejects the request. */
module RedisStopMode {
  import opened Prelude
  import opened Limiter
  import opened LimitCall
  import RedisCache

  /** Where the stop mode is not all or nothing: a shadow rule that looks near its
      limit stops the charge of the other key, while both statuses stay OK. */
  lemma ShadowRuleStopsCharges(a: Lookup, b: Lookup, countA: uint32, countB: uint32, hits: uint32)
    requires a.Look? && b.Look? && a.key != b.key
    requires countA + hits < TWO_32 && countB + hits < TWO_32
    requires a.limit.shadowMode && countA + hits > a.limit.quota.perUnit && countB + hits <= b.limit.quota.perUnit
    ensures var lookups, counts := [a, b], [countA, countB];
            var charges := RedisCache.Charges(true, lookups, {}, counts, hits);
            var afterA, afterB :=
              RedisCache.ResultAt(lookups, charges, counts, 0), RedisCache.ResultAt(lookups, charges, counts, 1);
            && charges == [Some(hits), Some(0)]
            && afterA == countA + hits && afterB == countB
            && Judge(a.limit, countA, countA + hits, false, hits).code == OK
            && Judge(b.limit, Sub32(countB, hits), countB, false, hits).code == OK
  {
    var lookups, counts := [a, b], [countA, countB];
    var charges := RedisCache.Charges(true, lookups, {}, counts, hits);
    assert RedisCache.IsNear(lookups[0], counts[0], hits) && !RedisCache.IsNear(lookups[1], counts[1], hits);
    assert charges[0] == Some(hits) && charges[1] == Some(0);
    assert Added(lookups, charges, a.key, 1) == Added(lookups, charges, a.key, 0) + hits;
    assert Added(lookups, charges, b.key, 2) == Added(lookups, charges, b.key, 1) == Added(lookups, charges, b.key, 0);
  }

  /** A call in stop mode, with what is known before it: the keys in the local cache
      and the counts in the store. */
  datatype Situation = Situation(lookups: seq<Lookup>, known: set<string>, counts: seq<nat>, hits: uint32)

  /** No result reaches 2^32. Keys may repeat, under the same limit or another. */
  ghost predicate Sensible(c: Situation) {
    |c.counts| == |c.lookups| && c.hits >= 1 && RedisCache.Fits(true, c.lookups, c.known, c.counts, c.hits)
  }

  /** The hits would take the counter, in 32 bits, beyond the limit. */
  predicate NearAt(c: Situation, i: nat)
    requires i < |c.lookups| == |c.counts|
  {
    RedisCache.IsNear(c.lookups[i], c.counts[i], c.hits)
  }

  /** How many of the first `n` lookups are near their limits under `key`. */
  function NearOn(c: Situation, key: string, n: nat): nat
    requires n <= |c.lookups| == |c.counts|
  {
    if n == 0 then 0
    else NearOn(c, key, n - 1) + if NearAt(c, n - 1) && c.lookups[n - 1].key == key then 1 else 0
  }

  /** A lookup that speaks for a rejection, told from the situation alone: it is known
      locally; or another one is and its counter is already beyond the limit; or the
      hits of the near lookups on its key so far take the counter beyond its limit. */
  ghost predicate Decisive(c: Situation, i: nat)
    requires Sensible(c) && i < |c.lookups|
  {
    var look := c.lookups[i];
    && look.Look?
    && (IsKnown(look, c.known) ||
        c.counts[i] + (if RedisCache.AnyKnown(c.lookups, c.known) then 0 else c.hits * NearOn(c, look.key, i + 1))
        > look.limit.quota.perUnit)
  }

  /** Whether some key is held back: one is known locally, or, when counters are read
      first, some would go beyond their limits and some would not. */
  ghost predicate HoldsBack(c: Situation)
    requires Sensible(c)
  {
    || RedisCache.AnyKnown(c.lookups, c.known)
    || (&& |c.lookups| > 1
        && (exists i | 0 <= i < |c.lookups| :: NearAt(c, i))
        && (exists i | 0 <= i < |c.lookups| && c.lookups[i].Look? :: !NearAt(c, i)))
  }

  ghost function ChargeAt(c: Situation, i: nat): Option<uint32>
    requires Sensible(c) && i < |c.lookups|
  {
    RedisCache.Charge(true, |c.lookups|, c.lookups, c.known, c.counts, c.hits, i)
  }

  ghost function ResultOf(c: Situation, i: nat): uint32
    requires Sensible(c) && i < |c.lookups|
  {
    RedisCache.Afters(true, c.lookups, c.known, c.counts, c.hits)[i]
  }

  /** The lookup's status is OVER_LIMIT. */
  ghost predicate Rejects(c: Situation, i: nat)
    requires Sensible(c) && i < |c.lookups|
  {
    && c.lookups[i].Look?
    && var after := ResultOf(c, i);
    Judge(c.lookups[i].limit, Sub32(after, c.hits), after, c.lookups[i].key in c.known, c.hits).code == OverLimit
  }

  /** Every looked-up key is charged in full, or some status is OVER_LIMIT. */
  ghost predicate AllOrNothing(c: Situation)
    requires Sensible(c)
  {
    || (forall i | 0 <= i < |c.lookups| && c.lookups[i].Look? :: ChargeAt(c, i) == Some(c.hits))
    || (exists i | 0 <= i < |c.lookups| :: Rejects(c, i))
  }

  lemma AnyNearAgrees(c: Situation)
    requires Sensible(c)
    ensures RedisCache.AnyNear(c.lookups, c.counts, c.hits) <==> exists i | 0 <= i < |c.lookups| :: NearAt(c, i)
  {
    if i :| 0 <= i < |c.lookups| && RedisCache.IsNear(c.lookups[i], c.counts[i], c.hits) {
      assert NearAt(c, i);
    }
  }

  /** Some key is left without its full charge exactly when the situation holds keys back. */
  lemma ChargedUnlessHeldBack(c: Situation)
    requires Sensible(c)
    ensures HoldsBack(c) <==> exists i | 0 <= i < |c.lookups| && c.lookups[i].Look? :: ChargeAt(c, i) != Some(c.hits)
  {
    if RedisCache.AnyKnown(c.lookups, c.known) {
      var i :| 0 <= i < |c.lookups| && IsKnown(c.lookups[i], c.known);
      assert c.lookups[i].Look? && ChargeAt(c, i) == None;
    } else {
      AnyNearAgrees(c);
      forall i | 0 <= i < |c.lookups| && c.lookups[i].Look?
        ensures ChargeAt(c, i) != Some(c.hits) <==>
                |c.lookups| > 1 && RedisCache.AnyNear(c.lookups, c.counts, c.hits) && !NearAt(c, i)
      {
        assert !IsKnown(c.lookups[i], c.known);
      }
    }
  }

  /** When keys are held back, a key receives the hits of its near lookups and no others. */
  lemma {:induction false} HeldBackAdds(c: Situation, key: string, n: nat)
    requires Sensible(c) && HoldsBack(c) && n <= |c.lookups|
    ensures Added(c.lookups, RedisCache.Charges(true, c.lookups, c.known, c.counts, c.hits), key, n) ==
            if RedisCache.AnyKnown(c.lookups, c.known) then 0 else c.hits * NearOn(c, key, n)
  {
    if n > 0 {
      HeldBackAdds(c, key, n - 1);
      ChargeWhenHeldBack(c, n - 1);
      OneMoreBatch(c.hits, NearOn(c, key, n - 1));
    }
  }

  lemma ChargeWhenHeldBack(c: Situation, i: nat)
    requires Sensible(c) && HoldsBack(c) && i < |c.lookups|
    ensures ChargeAt(c, i) ==
            if c.lookups[i].Skip? || IsKnown(c.lookups[i], c.known) then None
            else if !RedisCache.AnyKnown(c.lookups, c.known) && NearAt(c, i) then Some(c.hits) else Some(0)
  {
    AnyNearAgrees(c);
  }

  /** When keys are held back, the decisive lookups outside shadow mode are those rejected. */
  lemma RejectsIfDecisive(c: Situation, i: nat)
    requires Sensible(c) && HoldsBack(c) && i < |c.lookups|
    ensures Rejects(c, i) <==> Decisive(c, i) && !c.lookups[i].limit.shadowMode
  {
    if c.lookups[i].Look? {
      HeldBackAdds(c, c.lookups[i].key, i + 1);
      ChargeWhenHeldBack(c, i);
    }
  }

  /** The stop mode is all or nothing exactly when it holds nothing back or some
      decisive lookup is not in shadow mode. */
  lemma StopModeExactly(c: Situation)
    requires Sensible(c)
    ensures AllOrNothing(c) <==>
            !HoldsBack(c) ||
            exists i | 0 <= i < |c.lookups| :: Decisive(c, i) && !c.lookups[i].limit.shadowMode
  {
    ChargedUnlessHeldBack(c);
    if HoldsBack(c) {
      forall i | 0 <= i < |c.lookups|
        ensures Rejects(c, i) <==> Decisive(c, i) && !c.lookups[i].limit.shadowMode
      {
        RejectsIfDecisive(c, i);
      }
    }
  }

  /** Where equal keys have equal limits, as repeated descriptors have, no key is known
      locally and no sum wraps around, the decisive lookups are the near ones. */
  lemma NearIsDecisive(c: Situation, i: nat)
    requires Sensible(c) && i < |c.lookups| && !RedisCache.AnyKnown(c.lookups, c.known)
    requires c.counts[i] + c.hits < TWO_32
    requires forall j, k | 0 <= j < |c.lookups| && 0 <= k < |c.lookups| && c.lookups[j].Look? && c.lookups[k].Look? ::
               c.lookups[j].key == c.lookups[k].key ==>
                 c.lookups[j].limit == c.lookups[k].limit && c.counts[j] == c.counts[k]
    ensures Decisive(c, i) <==> NearAt(c, i)
  {
    if c.lookups[i].Look? {
      assert !IsKnown(c.lookups[i], c.known);
      if NearAt(c, i) {
        MoreFactor(c.hits, 1, NearOn(c, c.lookups[i].key, i + 1));
      } else {
        NothingNear(c, c.lookups[i].key, i + 1);
      }
    }
  }

  lemma {:induction false} NothingNear(c: Situation, key: string, n: nat)
    requires n <= |c.lookups| == |c.counts|
    requires forall j | 0 <= j < n && c.lookups[j].Look? && c.lookups[j].key == key :: !NearAt(c, j)
    ensures NearOn(c, key, n) == 0
  {
    if n > 0 {
      NothingNear(c, key, n - 1);
    }
  }
}
