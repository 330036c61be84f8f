/** When the memcached limiter rejects: by a read only if the hits really exceed the
    limit; by the local cache possibly earlier, and exactly when. */
module MemcachedRejection {
  import opened Prelude
  import opened Limiter
  import opened MemcachedProtocol
  import opened MemcachedExactlyOnce
  import opened MemcachedAdmission

  predicate Rejected(x: Slot) {
    x.verdict.Some? && x.verdict.value.delta.overLimit > 0
  }

  /** What a lookup has read is still stored, and what it has applied on top of it. */
  ghost predicate Backed(s: State, x: Slot) {
    WasRead(x, x.key) ==> x.before + (if x.stage.Applied? then x.hits else 0) <= Count(s.items, x.key)
  }

  ghost predicate AllBacked(s: State) {
    forall x | x in s.slots :: Backed(s, x)
  }

  lemma ItemsGrow(s: State, e: Event, key: string)
    requires Inv(s) && Enabled(s, e)
    ensures Count(s.items, key) <= Count(Apply(s, e).items, key)
  {
    if Touches(e) {
      assert SlotOk(s, s.slots[e.slot]);
    }
  }

  lemma TouchedSlotBacked(s: State, e: Event)
    requires Inv(s) && Enabled(s, e) && Touches(e) && AllBacked(s)
    ensures |Apply(s, e).slots| == |s.slots|
    ensures Backed(Apply(s, e), Apply(s, e).slots[e.slot])
  {
    assert s.slots[e.slot] in s.slots && SlotOk(s, s.slots[e.slot]);
  }

  lemma StepKeepsBacked(s: State, e: Event)
    requires Inv(s) && Enabled(s, e) && AllBacked(s)
    ensures AllBacked(Apply(s, e))
  {
    var t := Apply(s, e);
    forall x | x in t.slots ensures Backed(t, x) {
      var j :| 0 <= j < |t.slots| && t.slots[j] == x;
      if Touches(e) && j == e.slot {
        TouchedSlotBacked(s, e);
      } else if j < |s.slots| {
        assert x == s.slots[j] && Backed(s, s.slots[j]);
        ItemsGrow(s, e, x.key);
      }
    }
  }

  lemma {:induction false} RunKeepsBacked(s: State, es: seq<Event>)
    requires Good(s) && AllBacked(s) && Valid(s, es)
    ensures Good(Run(s, es)) && AllBacked(Run(s, es))
    decreases |es|
  {
    if es != [] {
      RunKeepsGood(s, [es[0]]);
      assert Run(s, [es[0]]) == Apply(s, es[0]);
      StepKeepsBacked(s, es[0]);
      RunKeepsBacked(Apply(s, es[0]), es[1..]);
    }
  }

  // ------------------------------------------------------ rejections by a read

  /** Stored plus submitted and not yet applied hits are the submitted ones. */
  lemma SubmittedSplit(s: State, key: string)
    requires Good(s)
    ensures Count(s.items, key) + Sum(s.slots, PendingOn(s, key)) == Sum(s.slots, SubmittedOn(s, key))
  {
    assert Balanced(s, key);
    forall x | x in s.slots
      ensures SubmittedOn(s, key)(x) == AppliedOn(key)(x) + PendingOn(s, key)(x)
    {
      assert SlotOk(s, x);
    }
    SumPlus(s.slots, AppliedOn(key), PendingOn(s, key), SubmittedOn(s, key));
  }

  /** A submitted lookup's hits, and what it had read, are among the submitted hits. */
  lemma SubmittedCovers(s: State, x: Slot)
    requires Good(s) && AllBacked(s) && x in s.slots && WasRead(x, x.key)
    ensures x.before + (if Submitted(s, x) then x.hits else 0) <= Sum(s.slots, SubmittedOn(s, x.key))
  {
    SubmittedSplit(s, x.key);
    assert Backed(s, x) && SlotOk(s, x);
    if Submitted(s, x) && !x.stage.Applied? {
      var j :| 0 <= j < |s.slots| && s.slots[j] == x;
      SumAtLeast(s.slots, j, PendingOn(s, x.key));
    }
  }

  /** No early rejection by a read: when a lookup is judged over its limit on what it
      read, the stored hits with its own really exceed the limit, and so do the
      submitted hits with its own. */
  lemma ReadRejectionIsReal(es: seq<Event>, x: Slot)
    requires Valid(INIT, es) && x in Run(INIT, es).slots && Rejected(x) && !x.localHit
    ensures var s, max := Run(INIT, es), x.limit.quota.perUnit;
            && Count(s.items, x.key) + (if x.stage.Applied? then 0 else x.hits) > max
            && Sum(s.slots, SubmittedOn(s, x.key)) + (if Submitted(s, x) then 0 else x.hits) > max
  {
    var s := Run(INIT, es);
    InitIsGood();
    RunKeepsBacked(INIT, es);
    assert SlotOk(s, x) && Backed(s, x);
    SubmittedCovers(s, x);
  }

  // ---------------------------------------------- rejections by the local cache

  /** A lookup that was judged over its limit on what it read, and so filled the cache
      of its instance. */
  predicate Fills(y: Slot, instance: nat, key: string) {
    && y.instance == instance && y.key == key && !y.localHit && y.verdict.Some?
    && y.before + y.hits > y.limit.quota.perUnit
  }

  ghost predicate HasFiller(s: State, instance: nat, key: string) {
    exists y | y in s.slots :: Fills(y, instance, key)
  }

  ghost predicate Filled(s: State) {
    && (forall i, key :: (i, key) in s.caches ==> HasFiller(s, i, key))
    && (forall x | x in s.slots && x.localHit :: HasFiller(s, x.instance, x.key))
  }

  lemma FillerStays(s: State, e: Event, instance: nat, key: string)
    requires Inv(s) && Enabled(s, e) && HasFiller(s, instance, key)
    ensures HasFiller(Apply(s, e), instance, key)
  {
    var t := Apply(s, e);
    var y :| y in s.slots && Fills(y, instance, key);
    var j :| 0 <= j < |s.slots| && s.slots[j] == y;
    DecidedSlotKept(s, e, j);
    assert Fills(t.slots[j], instance, key);
  }

  /** A step keeps what a lookup read and was judged. */
  lemma DecidedSlotKept(s: State, e: Event, j: nat)
    requires Inv(s) && Enabled(s, e) && j < |s.slots| && s.slots[j].verdict.Some?
    ensures |s.slots| <= |Apply(s, e).slots|
    ensures Apply(s, e).slots[j].(stage := s.slots[j].stage) == s.slots[j]
  {
    assert SlotOk(s, s.slots[j]);
    if Touches(e) {
      TouchIsUpdate(s, e);
    }
  }

  lemma AnswerFills(s: State, j: nat)
    requires Inv(s) && Enabled(s, Answer(j)) && VerdictOf(s.slots[j]).caches
    ensures HasFiller(Apply(s, Answer(j)), s.slots[j].instance, s.slots[j].key)
  {
    var y := Apply(s, Answer(j)).slots[j];
    assert SlotOk(s, s.slots[j]);
    assert Fills(y, y.instance, y.key) && y in Apply(s, Answer(j)).slots;
  }

  lemma StepKeepsFilled(s: State, e: Event)
    requires Inv(s) && Enabled(s, e) && Filled(s)
    ensures Filled(Apply(s, e))
  {
    var t := Apply(s, e);
    forall i, key | (i, key) in t.caches ensures HasFiller(t, i, key) {
      if (i, key) in s.caches {
        FillerStays(s, e, i, key);
      } else {
        AnswerFills(s, e.slot);
      }
    }
    forall x | x in t.slots && x.localHit ensures HasFiller(t, x.instance, x.key) {
      var j :| 0 <= j < |t.slots| && t.slots[j] == x;
      if j < |s.slots| {
        assert s.slots[j] in s.slots;
        assert HasFiller(s, x.instance, x.key);
        FillerStays(s, e, x.instance, x.key);
      }
    }
  }

  lemma {:induction false} RunKeepsFilled(s: State, es: seq<Event>)
    requires Inv(s) && Filled(s) && Valid(s, es)
    ensures Filled(Run(s, es))
    decreases |es|
  {
    if es != [] {
      StepKeepsInv(s, es[0]);
      StepKeepsFilled(s, es[0]);
      RunKeepsFilled(Apply(s, es[0]), es[1..]);
    }
  }

  /** The submitted hits on `key` that read a count leaving them within `max`. */
  ghost function SubmittedWithin(s: State, key: string, max: nat): Slot -> nat {
    (x: Slot) => if x.key == key && Submitted(s, x) && x.before + x.hits <= max then x.hits else 0
  }

  /** Some submitted lookup on `key` read a count that took its hits beyond `max`. */
  ghost predicate OverIsSubmitted(s: State, key: string, max: nat) {
    exists y | y in s.slots :: y.key == key && Submitted(s, y) && y.before + y.hits > max
  }

  lemma SubmittedExceeds(s: State, key: string, max: nat, own: nat)
    requires Good(s) && AllBacked(s)
    ensures Sum(s.slots, SubmittedOn(s, key)) + own > max <==>
            OverIsSubmitted(s, key, max) || Sum(s.slots, SubmittedWithin(s, key, max)) + own > max
  {
    SumMonotone(s.slots, SubmittedWithin(s, key, max), SubmittedOn(s, key));
    if OverIsSubmitted(s, key, max) {
      var y :| y in s.slots && y.key == key && Submitted(s, y) && y.before + y.hits > max;
      assert SlotOk(s, y);
      SubmittedCovers(s, y);
    } else {
      SumEqual(s.slots, SubmittedWithin(s, key, max), SubmittedOn(s, key));
    }
  }

  /** A rejection by the local cache goes back to a lookup of the same instance that was
      rejected on what it read. The submitted hits with its own really exceed the limit
      exactly when some lookup that read beyond this limit has been submitted, or the
      submitted hits that read within it leave no room for its own. */
  lemma LocalRejectionExactly(es: seq<Event>, x: Slot)
    requires Valid(INIT, es) && x in Run(INIT, es).slots && x.localHit
    ensures var s, max := Run(INIT, es), x.limit.quota.perUnit;
            && HasFiller(s, x.instance, x.key)
            && (Sum(s.slots, SubmittedOn(s, x.key)) + x.hits > max <==>
                OverIsSubmitted(s, x.key, max) || Sum(s.slots, SubmittedWithin(s, x.key, max)) + x.hits > max)
  {
    InitIsGood();
    RunKeepsBacked(INIT, es);
    RunKeepsFilled(INIT, es);
    SubmittedExceeds(Run(INIT, es), x.key, x.limit.quota.perUnit, x.hits);
  }

  /** So a rejection by the local cache can come early only between an answer and the
      submission that follows it: while the submitted hits with its own do not exceed the
      limit, no lookup that filled the cache against this limit or a larger one has been
      submitted. */
  lemma EarlyOnlyBeforeSubmission(es: seq<Event>, x: Slot, y: Slot)
    requires Valid(INIT, es) && x in Run(INIT, es).slots && x.localHit
    requires Sum(Run(INIT, es).slots, SubmittedOn(Run(INIT, es), x.key)) + x.hits <= x.limit.quota.perUnit
    requires y in Run(INIT, es).slots && Fills(y, x.instance, x.key)
    requires y.limit.quota.perUnit >= x.limit.quota.perUnit
    ensures !Submitted(Run(INIT, es), y)
  {
    LocalRejectionExactly(es, x);
  }

  // -------------------------------------------- rejections and all that has read

  /** Every lookup on `key` is judged against the number `max`. */
  ghost predicate OneQuota(s: State, key: string, max: nat) {
    forall x | x in s.slots && x.key == key :: x.limit.quota.perUnit == max
  }

  ghost predicate Evident(s: State, key: string, max: nat) {
    && (forall x | x in s.slots && WasRead(x, key) :: x.before + x.hits <= Sum(s.slots, ReadOn(key)))
    && (forall i :: (i, key) in s.caches ==> Sum(s.slots, ReadOn(key)) > max)
    && (forall x | x in s.slots && x.key == key && x.localHit :: Sum(s.slots, ReadOn(key)) > max)
  }

  lemma ReadsGrow(s: State, e: Event, key: string)
    requires Inv(s) && Enabled(s, e)
    ensures Sum(s.slots, ReadOn(key)) <= Sum(Apply(s, e).slots, ReadOn(key))
    ensures e.Fetch? && s.slots[e.slot].key == key ==>
              Sum(Apply(s, e).slots, ReadOn(key)) == Sum(s.slots, ReadOn(key)) + s.slots[e.slot].hits
  {
    SumAfterStep(s, e, ReadOn(key));
    if Touches(e) {
      OnlyFetchReads(s, e, key);
    }
  }

  lemma TouchedSlotEvident(s: State, e: Event, key: string, max: nat)
    requires Inv(s) && Enabled(s, e) && Balanced(s, key) && Evident(s, key, max) && Touches(e)
    ensures |Apply(s, e).slots| == |s.slots|
    ensures var t := Apply(s, e); var y := t.slots[e.slot];
            && (WasRead(y, key) ==> y.before + y.hits <= Sum(t.slots, ReadOn(key)))
            && (y.key == key && y.localHit ==> Sum(t.slots, ReadOn(key)) > max)
  {
    var x := s.slots[e.slot];
    assert x in s.slots;
    ReadsGrow(s, e, key);
    ReadsSplit(s, key);
    OnlyFetchReads(s, e, key);
  }

  lemma CachesEvident(s: State, e: Event, key: string, max: nat)
    requires Inv(s) && Enabled(s, e) && OneQuota(s, key, max) && Evident(s, key, max)
    ensures forall i :: (i, key) in Apply(s, e).caches ==>
              Sum(Apply(s, e).slots, ReadOn(key)) > max
  {
    ReadsGrow(s, e, key);
    if e.Answer? {
      assert s.slots[e.slot] in s.slots && SlotOk(s, s.slots[e.slot]);
    }
  }

  lemma StepKeepsEvident(s: State, e: Event, key: string, max: nat)
    requires Inv(s) && Enabled(s, e) && Balanced(s, key) && OneQuota(s, key, max) && Evident(s, key, max)
    ensures Evident(Apply(s, e), key, max)
  {
    var t := Apply(s, e);
    ReadsGrow(s, e, key);
    CachesEvident(s, e, key, max);
    forall x | x in t.slots
      ensures WasRead(x, key) ==> x.before + x.hits <= Sum(t.slots, ReadOn(key))
      ensures x.key == key && x.localHit ==> Sum(t.slots, ReadOn(key)) > max
    {
      var j :| 0 <= j < |t.slots| && t.slots[j] == x;
      if Touches(e) && j == e.slot {
        TouchedSlotEvident(s, e, key, max);
      } else if j < |s.slots| {
        assert x == s.slots[j];
      }
    }
  }

  lemma {:induction false} RunKeepsEvident(s: State, es: seq<Event>, key: string, max: nat)
    requires Good(s) && Evident(s, key, max) && Valid(s, es) && OneQuota(Run(s, es), key, max)
    ensures Good(Run(s, es)) && Evident(Run(s, es), key, max)
    decreases |es|
  {
    if es != [] {
      var t := Apply(s, es[0]);
      EarlierOneQuota(s, es, key, max);
      RunKeepsGood(s, [es[0]]);
      assert Run(s, [es[0]]) == t;
      StepKeepsEvident(s, es[0], key, max);
      RunKeepsEvident(t, es[1..], key, max);
    }
  }

  lemma {:induction false} EarlierOneQuota(s: State, es: seq<Event>, key: string, max: nat)
    requires Valid(s, es) && OneQuota(Run(s, es), key, max)
    ensures OneQuota(s, key, max)
    decreases |es|
  {
    if es != [] {
      var t := Apply(s, es[0]);
      EarlierOneQuota(t, es[1..], key, max);
      forall x | x in s.slots && x.key == key ensures x.limit.quota.perUnit == max {
        var j :| 0 <= j < |s.slots| && s.slots[j] == x;
        assert t.slots[j] in t.slots;
      }
    }
  }

  /** However it is rejected, by a read or by a local cache: on a key that is judged
      against one number the hits of the lookups that have read this counter exceed the limit. */
  lemma RejectionMeansReads(es: seq<Event>, x: Slot)
    requires Valid(INIT, es) && x in Run(INIT, es).slots
    requires OneQuota(Run(INIT, es), x.key, x.limit.quota.perUnit) && Rejected(x)
    ensures Sum(Run(INIT, es).slots, ReadOn(x.key)) > x.limit.quota.perUnit
  {
    InitIsGood();
    RunKeepsEvident(INIT, es, x.key, x.limit.quota.perUnit);
    assert SlotOk(Run(INIT, es), x);
  }
}
