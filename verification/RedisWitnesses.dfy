/** A run of the Redis limiter whose statistics do not add up. */
module RedisWitnesses {
  import opened Prelude
  import opened Limiter
  import opened RedisProtocol
  import opened RedisRuns
  import RedisStatistics

  /** One request with one lookup, on its own. */
  function Single(call: Call, target: Target): seq<Event> {
    [Start(call, [target]), Check(0), Charge(0), Answer(0)]
  }

  function ChargedSlot(call: Call, target: Target): Slot {
    NewSlot(call, target).(stage := Charged, amount := call.hits, result := call.hits)
  }

  ghost predicate Plain(call: Call) {
    call.id == 0 && call.hits >= 1 && call.width == 1 && !call.stop && !call.cached
  }

  lemma SingleRuns(call: Call, target: Target)
    requires Plain(call)
    ensures Valid(INIT, Single(call, target))
    ensures Run(INIT, Single(call, target)).slots == [JudgedSlot(ChargedSlot(call, target))]
  {
    var fresh0 := NewSlot(call, target);
    var checked, charged := fresh0.(stage := Checked), ChargedSlot(call, target);
    var store := map[target.key := call.hits];
    assert NewSlots(call, [target]) == [fresh0];
    var end := State(store, EntryOf(charged), [JudgedSlot(charged)], 1);
    var states := [INIT, State(map[], {}, [fresh0], 1), State(map[], {}, [checked], 1),
                   State(store, {}, [charged], 1), end];
    assert Leads(states[0], Start(call, [target]), states[1]);
    assert Leads(states[1], Check(0), states[2]);
    assert Leads(states[2], Charge(0), states[3]);
    assert Leads(states[3], Answer(0), states[4]);
    Chain(states, Single(call, target));
  }

  /** For every positive limit, a batch that straddles it: the hits up to the limit are
      counted neither as within nor as over it. */
  lemma StraddlingBatch(call: Call, target: Target)
    requires Plain(call) && 1 <= target.limit.quota.perUnit < call.hits
    ensures Valid(INIT, Single(call, target))
    ensures var slots, max := Run(INIT, Single(call, target)).slots, target.limit.quota.perUnit;
            && Sum(slots, RedisStatistics.HitsOn(target.key)) == call.hits
            && Sum(slots, RedisStatistics.Tally(target.key, RedisStatistics.Within)) == 0
            && Sum(slots, RedisStatistics.Tally(target.key, RedisStatistics.Over)) == call.hits - max
            && Sum(slots, RedisStatistics.InLimitPartOn(target.key)) == max
  {
    SingleRuns(call, target);
    var key, x := target.key, JudgedSlot(ChargedSlot(call, target));
    SumOfOne(x, RedisStatistics.HitsOn(key));
    SumOfOne(x, RedisStatistics.Tally(key, RedisStatistics.Within));
    SumOfOne(x, RedisStatistics.Tally(key, RedisStatistics.Over));
    SumOfOne(x, RedisStatistics.InLimitPartOn(key));
  }
}
