/** Statistics of whole Redis runs: per call they are arithmetic on one batch,
    over a run they telescope to closed forms of the total number of hits. */
module RedisStatistics {
  import opened Prelude
  import opened Limiter
  import opened RedisProtocol

  /** Every lookup on `key` is made without the stop mode and judged against the number
      `max`; all else about its limits may vary. */
  ghost predicate OneLimit(s: State, key: string, max: nat) {
    forall x | x in s.slots && x.key == key :: !x.call.stop && x.limit.quota.perUnit == max
  }

  /** All lookups on `key` have one near threshold. */
  ghost predicate OneNear(slots: seq<Slot>, key: string, near: nat) {
    forall x | x in slots && x.key == key :: x.limit.near == near
  }

  /** All lookups on `key`, or none, are in shadow mode. */
  ghost predicate OneShadow(slots: seq<Slot>, key: string, shadowMode: bool) {
    forall x | x in slots && x.key == key :: x.limit.shadowMode == shadowMode
  }

  /** Every lookup on `key` is judged against the number `max`. */
  ghost predicate OneQuota(s: State, key: string, max: nat) {
    forall x | x in s.slots && x.key == key :: x.limit.quota.perUnit == max
  }

  /** A local cache entry, or a lookup that met one, proves the counter is over the limit. */
  ghost predicate CacheSound(s: State, key: string, max: nat) {
    && (forall i :: (i, key) in s.caches ==> Count(s.store, key) > max)
    && (forall x | x in s.slots && x.key == key && x.localHit :: Count(s.store, key) > max)
  }

  predicate Counts(x: Slot, key: string) {
    x.key == key && Rank(x.stage) >= 3 && !x.localHit
  }

  /** The over-limit part of what a charged slot gets, or will get, when answered. */
  ghost function OverOn(key: string): Slot -> nat {
    (x: Slot) => if Counts(x, key) then VerdictOf(x).delta.overLimit else 0
  }

  ghost function NearOn(key: string): Slot -> nat {
    (x: Slot) => if Counts(x, key) then VerdictOf(x).delta.nearLimit else 0
  }

  /** A charged batch that begins below the limit and ends beyond it. */
  predicate Straddles(x: Slot) {
    var before, max := Sub32(x.result, x.call.hits), x.limit.quota.perUnit;
    before < max < x.result
  }

  ghost function StraddlersOn(key: string): Slot -> nat {
    (x: Slot) => if Counts(x, key) && Straddles(x) then 1 else 0
  }

  /** The in-limit part of a straddling batch; the statistics skip it. */
  ghost function InLimitPartOn(key: string): Slot -> nat {
    (x: Slot) =>
      if Counts(x, key) && Straddles(x) then x.limit.quota.perUnit - Sub32(x.result, x.call.hits) else 0
  }

  /** What `count` hits, judged batch by batch, sum up to. */
  predicate SumsUp(max: nat, count: nat, over: nat, straddlers: nat) {
    over == Max(0, count - max) && straddlers <= (if count > max then 1 else 0)
  }

  predicate NearSumsUp(max: nat, near: nat, count: nat, sum: nat) {
    sum == Max(0, Min(count, max) - near)
  }

  ghost predicate Telescoped(s: State, key: string, max: nat) {
    var count := Count(s.store, key);
    && SumsUp(max, count, Sum(s.slots, OverOn(key)), Sum(s.slots, StraddlersOn(key)))
    && forall near: nat :: OneNear(s.slots, key, near) ==> NearSumsUp(max, near, count, Sum(s.slots, NearOn(key)))
  }

  ghost predicate StatsInv(s: State, key: string, max: nat) {
    && Inv(s) && OneLimit(s, key, max) && Balanced(s, key)
    && CacheSound(s, key, max) && Telescoped(s, key, max)
  }

  /** Charging `hits` more moves the closed forms by what the batch is judged. */
  lemma BatchMovesClosedForms(limit: Limit, before: uint32, hits: uint32)
    requires before + hits < TWO_32
    ensures var v, after, max := Judge(limit, before, before + hits, false, hits), before + hits, limit.quota.perUnit;
            && Max(0, before - max) + v.delta.overLimit == Max(0, after - max)
            && Max(0, Min(before, max) - limit.near) + v.delta.nearLimit == Max(0, Min(after, max) - limit.near)
  {
    JudgeCountsHits(limit, before, before + hits, hits);
    CoveredClosedForm(before, before + hits, limit.quota.perUnit, before + hits);
    CoveredClosedForm(before, before + hits, limit.near, limit.quota.perUnit);
  }

  lemma StepKeepsCacheSound(s: State, e: Event, key: string, max: nat)
    requires Inv(s) && Enabled(s, e) && OneQuota(s, key, max) && CacheSound(s, key, max)
    ensures CacheSound(Apply(s, e), key, max)
  {
    CountsGrow(s, e, key);
    var t := Apply(s, e);
    if Touches(e) {
      TouchIsUpdate(s, e);
      assert SlotOk(s, s.slots[e.slot]);
    }
    forall x | x in t.slots && x.key == key && x.localHit ensures Count(t.store, key) > max {
      if x !in s.slots {
        assert Touches(e) && s.slots[e.slot] in s.slots;
      }
    }
  }

  /** The next charge on the key continues its counter. */
  lemma ChargeContinuesCounter(s: State, j: nat, key: string, max: nat)
    requires Inv(s) && OneLimit(s, key, max) && Enabled(s, Charge(j))
    requires s.slots[j].key == key && !s.slots[j].localHit
    ensures var t, c, x := Apply(s, Charge(j)), Count(s.store, key), s.slots[j];
            && c + x.call.hits < TWO_32
            && Count(t.store, key) == c + x.call.hits
            && |t.slots| == |s.slots|
            && !Counts(x, key) && Counts(t.slots[j], key)
            && x.limit.quota.perUnit == max
            && VerdictOf(t.slots[j]) == Judge(x.limit, c, c + x.call.hits, false, x.call.hits)
            && Straddles(t.slots[j]) == (c < max < c + x.call.hits)
  {
    assert s.slots[j] in s.slots && SlotOk(s, s.slots[j]);
  }

  lemma ChargeKeepsTelescoped(s: State, j: nat, key: string, max: nat)
    requires StatsInv(s, key, max) && Enabled(s, Charge(j))
    requires s.slots[j].key == key && !s.slots[j].localHit
    ensures Telescoped(Apply(s, Charge(j)), key, max)
  {
    var t, x, c := Apply(s, Charge(j)), s.slots[j], Count(s.store, key);
    ChargeContinuesCounter(s, j, key, max);
    ChargeMovesSums(s, j, key);
    OverMoves(x.limit, c, x.call.hits, Sum(s.slots, OverOn(key)), Sum(s.slots, StraddlersOn(key)));
    forall near: nat | OneNear(t.slots, key, near)
      ensures NearSumsUp(max, near, Count(t.store, key), Sum(t.slots, NearOn(key)))
    {
      NearStays(s, Charge(j), key, near);
      assert x in s.slots;
      NearMoves(x.limit, c, x.call.hits, Sum(s.slots, NearOn(key)));
    }
  }

  /** Slots keep their keys and limits. */
  lemma NearStays(s: State, e: Event, key: string, near: nat)
    requires Enabled(s, e) && OneNear(Apply(s, e).slots, key, near)
    ensures OneNear(s.slots, key, near)
  {
    var t := Apply(s, e);
    forall x | x in s.slots && x.key == key ensures x.limit.near == near {
      var j :| 0 <= j < |s.slots| && s.slots[j] == x;
      assert t.slots[j] in t.slots;
    }
  }

  /** The telescoped sums, one batch further. */
  lemma OverMoves(limit: Limit, before: uint32, hits: uint32, over: nat, straddlers: nat)
    requires before + hits < TWO_32 && SumsUp(limit.quota.perUnit, before, over, straddlers)
    ensures var v, after, max := Judge(limit, before, before + hits, false, hits), before + hits, limit.quota.perUnit;
            SumsUp(max, after, over + v.delta.overLimit, straddlers + if before < max < after then 1 else 0)
  {
    BatchMovesClosedForms(limit, before, hits);
  }

  lemma NearMoves(limit: Limit, before: uint32, hits: uint32, sum: nat)
    requires before + hits < TWO_32 && NearSumsUp(limit.quota.perUnit, limit.near, before, sum)
    ensures var v := Judge(limit, before, before + hits, false, hits);
            NearSumsUp(limit.quota.perUnit, limit.near, before + hits, sum + v.delta.nearLimit)
  {
    BatchMovesClosedForms(limit, before, hits);
  }

  lemma ChargeMovesSums(s: State, j: nat, key: string)
    requires Enabled(s, Charge(j)) && !Counts(s.slots[j], key)
    requires |Apply(s, Charge(j)).slots| == |s.slots| && Counts(Apply(s, Charge(j)).slots[j], key)
    ensures var t := Apply(s, Charge(j)); var y := t.slots[j];
            && Sum(t.slots, OverOn(key)) == Sum(s.slots, OverOn(key)) + VerdictOf(y).delta.overLimit
            && Sum(t.slots, NearOn(key)) == Sum(s.slots, NearOn(key)) + VerdictOf(y).delta.nearLimit
            && Sum(t.slots, StraddlersOn(key)) == Sum(s.slots, StraddlersOn(key)) + if Straddles(y) then 1 else 0
  {
    SumAfterStep(s, Charge(j), OverOn(key));
    SumAfterStep(s, Charge(j), NearOn(key));
    SumAfterStep(s, Charge(j), StraddlersOn(key));
  }

  /** Only charging moves the sums over charged slots. */
  lemma OtherStepsKeepTelescoped(s: State, e: Event, key: string, max: nat)
    requires StatsInv(s, key, max) && Enabled(s, e)
    requires !(e.Charge? && s.slots[e.slot].key == key && !s.slots[e.slot].localHit)
    ensures Telescoped(Apply(s, e), key, max)
  {
    MeasuresKept(s, e, key);
    SumKept(s, e, OverOn(key));
    SumKept(s, e, NearOn(key));
    SumKept(s, e, StraddlersOn(key));
    forall near: nat | OneNear(Apply(s, e).slots, key, near)
      ensures NearSumsUp(max, near, Count(Apply(s, e).store, key), Sum(Apply(s, e).slots, NearOn(key)))
    {
      NearStays(s, e, key, near);
    }
  }

  lemma SumKept(s: State, e: Event, f: Slot -> nat)
    requires Enabled(s, e)
    requires e.Start? ==> forall l | l in e.lookups :: f(NewSlot(e.call, l)) == 0
    requires Touches(e) ==>
               |Apply(s, e).slots| == |s.slots| && f(s.slots[e.slot]) == f(Apply(s, e).slots[e.slot])
    ensures Sum(Apply(s, e).slots, f) == Sum(s.slots, f)
  {
    SumAfterStep(s, e, f);
  }

  lemma MeasuresKept(s: State, e: Event, key: string)
    requires Inv(s) && Enabled(s, e)
    requires !(e.Charge? && s.slots[e.slot].key == key && !s.slots[e.slot].localHit)
    ensures Count(Apply(s, e).store, key) == Count(s.store, key)
    ensures Touches(e) ==>
              && |Apply(s, e).slots| == |s.slots|
              && var x, y := s.slots[e.slot], Apply(s, e).slots[e.slot];
              && OverOn(key)(x) == OverOn(key)(y) && NearOn(key)(x) == NearOn(key)(y)
              && StraddlersOn(key)(x) == StraddlersOn(key)(y)
  {
    if Touches(e) {
      var x, y := s.slots[e.slot], Apply(s, e).slots[e.slot];
      assert SlotOk(s, x);
      assert Counts(x, key) == Counts(y, key);
      assert Counts(x, key) ==> VerdictOf(x) == VerdictOf(y) && Straddles(x) == Straddles(y);
    }
  }

  lemma {:induction false} RunKeepsStatsInv(s: State, es: seq<Event>, key: string, max: nat)
    requires StatsInv(s, key, max) && Valid(s, es) && OneLimit(Run(s, es), key, max)
    ensures StatsInv(Run(s, es), key, max)
    decreases |es|
  {
    if es != [] {
      var t := Apply(s, es[0]);
      EarlierOneLimit(t, es[1..], key, max);
      StepKeepsInv(s, es[0]);
      StepKeepsBalance(s, es[0], key);
      StepKeepsCacheSound(s, es[0], key, max);
      if es[0].Charge? && s.slots[es[0].slot].key == key && !s.slots[es[0].slot].localHit {
        ChargeKeepsTelescoped(s, es[0].slot, key, max);
      } else {
        OtherStepsKeepTelescoped(s, es[0], key, max);
      }
      RunKeepsStatsInv(t, es[1..], key, max);
    }
  }

  /** Slots keep their call, key and limit, so a run that ends with one limit had one all along. */
  lemma {:induction false} EarlierOneLimit(s: State, es: seq<Event>, key: string, max: nat)
    requires Valid(s, es) && OneLimit(Run(s, es), key, max)
    ensures OneLimit(s, key, max)
    decreases |es|
  {
    if es != [] {
      var t := Apply(s, es[0]);
      EarlierOneLimit(t, es[1..], key, max);
      forall x | x in s.slots && x.key == key ensures !x.call.stop && x.limit.quota.perUnit == max {
        var j :| 0 <= j < |s.slots| && s.slots[j] == x;
        assert t.slots[j] in t.slots;
      }
    }
  }

  datatype Field = Over | Near | Within | Shadow

  function Select(d: Stats, field: Field): nat {
    match field
    case Over => d.overLimit
    case Near => d.nearLimit
    case Within => d.withinLimit
    case Shadow => d.shadowMode
  }

  /** The value of one statistic, summed over the answers on `key`. */
  ghost function Tally(key: string, field: Field): Slot -> nat {
    (x: Slot) => if x.key == key && x.stage.Judged? then Select(x.stage.verdict.delta, field) else 0
  }

  ghost function HitsOn(key: string): Slot -> nat {
    (x: Slot) => if x.key == key then x.call.hits else 0
  }

  ghost function LocalHitsOn(key: string): Slot -> nat {
    (x: Slot) => if x.key == key && x.localHit then x.call.hits else 0
  }

  ghost predicate Quiet(s: State, key: string) {
    forall x | x in s.slots && x.key == key :: x.stage.Judged?
  }

  /** The total of hits on a quiet key splits into charged and locally rejected ones. */
  lemma TotalSplits(s: State, key: string, max: nat)
    requires StatsInv(s, key, max) && Quiet(s, key)
    ensures var total, local := Sum(s.slots, HitsOn(key)), Sum(s.slots, LocalHitsOn(key));
            && total == Count(s.store, key) + local
            && (local > 0 ==> Count(s.store, key) > max)
  {
    forall x | x in s.slots ensures HitsOn(key)(x) == AmountOn(key)(x) + LocalHitsOn(key)(x) {
      assert SlotOk(s, x);
    }
    SumPlus(s.slots, AmountOn(key), LocalHitsOn(key), HitsOn(key));
    SumZero(s.slots, LocalHitsOn(key));
  }

  lemma TalliesOfQuietKey(s: State, key: string, max: nat)
    requires StatsInv(s, key, max) && Quiet(s, key)
    ensures Sum(s.slots, Tally(key, Over)) == Sum(s.slots, OverOn(key)) + Sum(s.slots, LocalHitsOn(key))
    ensures Sum(s.slots, Tally(key, Near)) == Sum(s.slots, NearOn(key))
  {
    var over, near := Tally(key, Over), Tally(key, Near);
    forall x | x in s.slots
      ensures over(x) == OverOn(key)(x) + LocalHitsOn(key)(x)
      ensures near(x) == NearOn(key)(x)
    {
      assert SlotOk(s, x);
    }
    SumPlus(s.slots, OverOn(key), LocalHitsOn(key), over);
    SumEqual(s.slots, near, NearOn(key));
  }

  /** The shadow statistic copies the over-limit one for shadow rules and stays zero for others. */
  lemma ShadowTally(s: State, key: string, shadowMode: bool)
    requires Inv(s) && OneShadow(s.slots, key, shadowMode)
    ensures Sum(s.slots, Tally(key, Shadow)) == if shadowMode then Sum(s.slots, Tally(key, Over)) else 0
  {
    var over, shadow := Tally(key, Over), Tally(key, Shadow);
    forall x | x in s.slots ensures shadow(x) == if shadowMode then over(x) else 0 {
      assert SlotOk(s, x);
    }
    if shadowMode {
      SumEqual(s.slots, shadow, over);
    } else {
      SumZero(s.slots, shadow);
    }
  }

  /** Within, over and the skipped part of a straddling batch make up all hits. */
  lemma HitsAreAccountedFor(s: State, key: string, max: nat)
    requires StatsInv(s, key, max) && Quiet(s, key)
    ensures Sum(s.slots, HitsOn(key)) ==
            Sum(s.slots, Tally(key, Within)) +
            Sum(s.slots, Tally(key, Over)) +
            Sum(s.slots, InLimitPartOn(key))
  {
    var over, within := Tally(key, Over), Tally(key, Within);
    var both := (x: Slot) => within(x) + over(x);
    forall x | x in s.slots ensures HitsOn(key)(x) == both(x) + InLimitPartOn(key)(x) {
      assert SlotOk(s, x);
    }
    SumPlus(s.slots, within, over, both);
    SumPlus(s.slots, both, InLimitPartOn(key), HitsOn(key));
  }

  lemma InitStats(key: string, max: nat)
    ensures StatsInv(INIT, key, max)
  {
  }

  /** Statistics of a key as functions of the total number of hits on it, except that
      the in-limit part of at most one straddling batch is counted nowhere. The near
      statistic needs one near threshold, the shadow statistic one shadow mode. */
  ghost predicate ClosedForm(slots: seq<Slot>, key: string, max: nat) {
    var total, over := Sum(slots, HitsOn(key)), Sum(slots, Tally(key, Over));
    && over == Max(0, total - max)
    && (forall near: nat :: OneNear(slots, key, near) ==>
          Sum(slots, Tally(key, Near)) == Max(0, Min(total, max) - near))
    && (forall shadowMode :: OneShadow(slots, key, shadowMode) ==>
          Sum(slots, Tally(key, Shadow)) == if shadowMode then over else 0)
    && total == Sum(slots, Tally(key, Within)) + over + Sum(slots, InLimitPartOn(key))
    && Sum(slots, StraddlersOn(key)) <= 1
  }

  lemma QuietClosedForm(s: State, key: string, max: nat)
    requires StatsInv(s, key, max) && Quiet(s, key)
    ensures ClosedForm(s.slots, key, max)
  {
    TotalSplits(s, key, max);
    TalliesOfQuietKey(s, key, max);
    HitsAreAccountedFor(s, key, max);
    forall shadowMode | OneShadow(s.slots, key, shadowMode)
      ensures Sum(s.slots, Tally(key, Shadow)) == if shadowMode then Sum(s.slots, Tally(key, Over)) else 0
    {
      ShadowTally(s, key, shadowMode);
    }
  }

  /** Closed forms: after any run without the stop mode, with or without local caches,
      once all lookups on a key that is judged against one number are answered. */
  lemma StatisticsClosedForm(es: seq<Event>, key: string, max: nat)
    requires Valid(INIT, es)
    requires OneLimit(Run(INIT, es), key, max) && Quiet(Run(INIT, es), key)
    ensures ClosedForm(Run(INIT, es).slots, key, max)
  {
    InitStats(key, max);
    RunKeepsStatsInv(INIT, es, key, max);
    QuietClosedForm(Run(INIT, es), key, max);
  }
}
