/** A whole `DoLimit` call as a run of the state machine. The machine has slots for the
    checked descriptors of a request only; this module carries what `RedisSolo` says
    about them over to all descriptors, in the terms of the contract of
    `RedisCache.FixedCache.DoLimit`. */
module RedisRequest {
  import opened Prelude
  import opened Limiter
  import opened LimitCall
  import opened RedisProtocol
  import RedisCache
  import RedisSolo

  type Lookups = seq<LimitCall.Lookup>

  // ------------------------------------- from checked lookups to all descriptors

  /** The counts of the checked lookups are those of their descriptors. */
  ghost predicate SameCounts(d: Lookups, counts: seq<nat>, checked: seq<nat>) {
    && |counts| == |d| && |checked| == |CheckedOnly(d)|
    && forall i | 0 <= i < |d| && d[i].Look? ::
         Position(d, i) < |checked| && checked[Position(d, i)] == counts[i]
  }

  lemma KnownCarries(d: Lookups, known: set<string>)
    ensures RedisCache.AnyKnown(CheckedOnly(d), known) <==> RedisCache.AnyKnown(d, known)
  {
    var c := CheckedOnly(d);
    if k :| 0 <= k < |c| && IsKnown(c[k], known) {
      var i := Origin(d, k);
      assert IsKnown(d[i], known);
    }
    if i :| 0 <= i < |d| && IsKnown(d[i], known) {
      CheckedAt(d, i);
      assert IsKnown(c[Position(d, i)], known);
    }
  }

  lemma NearCarries(d: Lookups, counts: seq<nat>, checked: seq<nat>, hits: uint32)
    requires SameCounts(d, counts, checked)
    ensures RedisCache.AnyNear(CheckedOnly(d), checked, hits) <==> RedisCache.AnyNear(d, counts, hits)
  {
    var c := CheckedOnly(d);
    if k :| 0 <= k < |c| && RedisCache.IsNear(c[k], checked[k], hits) {
      var i := Origin(d, k);
      assert RedisCache.IsNear(d[i], counts[i], hits);
    }
    if i :| 0 <= i < |d| && RedisCache.IsNear(d[i], counts[i], hits) {
      CheckedAt(d, i);
      assert RedisCache.IsNear(c[Position(d, i)], checked[Position(d, i)], hits);
    }
  }

  /** What a checked descriptor is charged does not depend on whether the others are listed. */
  lemma ChargeCarries(
    stop: bool, d: Lookups, known: set<string>, counts: seq<nat>, checked: seq<nat>, hits: uint32, i: nat)
    requires SameCounts(d, counts, checked) && i < |d| && d[i].Look?
    ensures Position(d, i) < |CheckedOnly(d)|
    ensures RedisCache.ChargesFor(stop, |d|, CheckedOnly(d), known, checked, hits)[Position(d, i)] ==
            RedisCache.Charges(stop, d, known, counts, hits)[i]
  {
    CheckedAt(d, i);
    KnownCarries(d, known);
    NearCarries(d, counts, checked, hits);
  }

  lemma AddedCarries(
    stop: bool, d: Lookups, known: set<string>, counts: seq<nat>, checked: seq<nat>, hits: uint32, key: string, n: nat)
    requires SameCounts(d, counts, checked) && n <= |d|
    ensures Position(d, n) <= |CheckedOnly(d)|
    ensures Added(CheckedOnly(d), RedisCache.ChargesFor(stop, |d|, CheckedOnly(d), known, checked, hits), key,
                  Position(d, n)) ==
            Added(d, RedisCache.Charges(stop, d, known, counts, hits), key, n)
  {
    var charges := RedisCache.Charges(stop, d, known, counts, hits);
    var carried := RedisCache.ChargesFor(stop, |d|, CheckedOnly(d), known, checked, hits);
    forall i | 0 <= i < |d| && d[i].Look?
      ensures Position(d, i) < |carried| && carried[Position(d, i)] == charges[i]
      ensures CheckedOnly(d)[Position(d, i)] == d[i]
    {
      CheckedAt(d, i);
      ChargeCarries(stop, d, known, counts, checked, hits, i);
    }
    SumsCarry(d, charges, carried, key, n);
  }

  lemma ResultCarries(
    stop: bool, d: Lookups, known: set<string>, counts: seq<nat>, checked: seq<nat>, hits: uint32, i: nat)
    requires SameCounts(d, counts, checked) && i < |d| && d[i].Look?
    ensures Position(d, i) < |CheckedOnly(d)|
    ensures RedisCache.ResultAt(CheckedOnly(d), RedisCache.ChargesFor(stop, |d|, CheckedOnly(d), known, checked, hits),
                                checked, Position(d, i)) ==
            RedisCache.Afters(stop, d, known, counts, hits)[i]
  {
    CheckedAt(d, i);
    ChargeCarries(stop, d, known, counts, checked, hits, i);
    AddedCarries(stop, d, known, counts, checked, hits, d[i].key, i + 1);
    PositionSnoc(d, i);
  }

  // ------------------------------------------------------------ whole requests

  /** A request, checked or not, in any state in which no result reaches 2^32. */
  ghost predicate Ready(s: State, call: Call, d: Lookups) {
    && (forall j | 0 <= j < |s.slots| :: s.slots[j].call.id != call.id)
    && call.id == s.next && call.hits >= 1 && call.width == |d|
    && forall i | 0 <= i < |d| :: AftersAt(s, call, d)[i] < TWO_32
  }

  ghost function CountsAt(s: State, d: Lookups): (r: seq<nat>)
    ensures |r| == |d|
  {
    seq(|d|, i requires 0 <= i < |d| => if d[i].Skip? then 0 else Count(s.store, d[i].key))
  }

  ghost function ChargesAt(s: State, call: Call, d: Lookups): (r: seq<Option<uint32>>)
    ensures |r| == |d|
  {
    RedisCache.Charges(call.stop, d, RedisSolo.KnownTo(s, call), CountsAt(s, d), call.hits)
  }

  ghost function AftersAt(s: State, call: Call, d: Lookups): (r: seq<nat>)
    ensures |r| == |d|
  {
    RedisCache.Afters(call.stop, d, RedisSolo.KnownTo(s, call), CountsAt(s, d), call.hits)
  }

  ghost function VerdictsAt(s: State, call: Call, d: Lookups): (v: seq<Verdict>)
    requires forall i | 0 <= i < |d| :: AftersAt(s, call, d)[i] < TWO_32
    ensures |v| == |d|
  {
    var after: seq<uint32> := AftersAt(s, call, d);
    Verdicts(d, RedisCache.Befores(after, call.hits), after, RedisSolo.KnownTo(s, call), call.hits)
  }

  lemma CheckedCounts(s: State, d: Lookups)
    ensures RedisSolo.AllLook(CheckedOnly(d))
    ensures SameCounts(d, CountsAt(s, d), RedisSolo.CountsAt(s, CheckedOnly(d)))
  {
    var c := CheckedOnly(d);
    forall k | 0 <= k < |c| ensures c[k].Look? {
      var i := Origin(d, k);
    }
    forall i | 0 <= i < |d| && d[i].Look? ensures Position(d, i) < |c| && c[Position(d, i)] == d[i] {
      CheckedAt(d, i);
    }
  }

  lemma CheckedIsReady(s: State, call: Call, d: Lookups)
    requires Ready(s, call, d)
    ensures RedisSolo.Ready(s, call, CheckedOnly(d))
    ensures SameCounts(d, CountsAt(s, d), RedisSolo.CountsAt(s, CheckedOnly(d)))
  {
    var c := CheckedOnly(d);
    CheckedCounts(s, d);
    CheckedIsShorter(d);
    forall k | 0 <= k < |c| ensures RedisSolo.ResultOf(s, call, c, k) < TWO_32 {
      var i := Origin(d, k);
      ResultCarries(call.stop, d, RedisSolo.KnownTo(s, call), CountsAt(s, d), RedisSolo.CountsAt(s, c), call.hits, i);
      assert RedisSolo.ResultOf(s, call, c, k) == AftersAt(s, call, d)[i];
    }
  }

  lemma AfterCarries(s: State, call: Call, d: Lookups, i: nat)
    requires Ready(s, call, d) && RedisSolo.Ready(s, call, CheckedOnly(d)) && i < |d| && d[i].Look?
    ensures Position(d, i) < |CheckedOnly(d)| && CheckedOnly(d)[Position(d, i)] == d[i]
    ensures RedisSolo.AfterAt(s, call, CheckedOnly(d))[Position(d, i)] == AftersAt(s, call, d)[i]
  {
    CheckedIsReady(s, call, d);
    CheckedAt(d, i);
    ResultCarries(call.stop, d, RedisSolo.KnownTo(s, call), CountsAt(s, d), RedisSolo.CountsAt(s, CheckedOnly(d)),
                  call.hits, i);
  }

  lemma VerdictCarries(s: State, call: Call, d: Lookups, i: nat)
    requires Ready(s, call, d) && RedisSolo.Ready(s, call, CheckedOnly(d)) && i < |d| && d[i].Look?
    requires forall j | 0 <= j < |d| :: AftersAt(s, call, d)[j] < TWO_32
    requires forall j | 0 <= j < |CheckedOnly(d)| :: RedisSolo.AfterAt(s, call, CheckedOnly(d))[j] < TWO_32
    ensures Position(d, i) < |CheckedOnly(d)| && CheckedOnly(d)[Position(d, i)] == d[i]
    ensures RedisSolo.VerdictsAt(s, call, CheckedOnly(d))[Position(d, i)] == VerdictsAt(s, call, d)[i]
  {
    AfterCarries(s, call, d, i);
  }

  /** The local cache entries of a call. */
  ghost function EntriesAt(call: Call, d: Lookups, v: seq<Verdict>): set<(nat, string)>
    requires |v| == |d|
  {
    if call.cached then set key | key in CachedKeys(d, v) :: (call.instance, key) else {}
  }

  lemma EntriesCarry(s: State, call: Call, d: Lookups)
    requires Ready(s, call, d) && RedisSolo.Ready(s, call, CheckedOnly(d))
    requires forall j | 0 <= j < |d| :: AftersAt(s, call, d)[j] < TWO_32
    requires forall j | 0 <= j < |CheckedOnly(d)| :: RedisSolo.AfterAt(s, call, CheckedOnly(d))[j] < TWO_32
    ensures RedisSolo.Entered(call, CheckedOnly(d), RedisSolo.VerdictsAt(s, call, CheckedOnly(d)), |CheckedOnly(d)|) ==
            EntriesAt(call, d, VerdictsAt(s, call, d))
  {
    var c := CheckedOnly(d);
    var v, w := VerdictsAt(s, call, d), RedisSolo.VerdictsAt(s, call, c);
    var a, b := RedisSolo.Entered(call, c, w, |c|), EntriesAt(call, d, v);
    forall p | p in a ensures p in b {
      var k :| 0 <= k < |c| && c[k].Look? && w[k].caches && p == (call.instance, c[k].key);
      var i := Origin(d, k);
      VerdictCarries(s, call, d, i);
      assert d[i].key in CachedKeys(d, v);
    }
    forall p | p in b ensures p in a {
      var i :| 0 <= i < |d| && d[i].Look? && v[i].caches && p == (call.instance, d[i].key);
      VerdictCarries(s, call, d, i);
    }
  }

  /** In every mode and for every request, an uninterrupted call takes the machine to the
      counters and cache entries, and gives every checked descriptor the verdict, that the
      contract of `DoLimit` computes. */
  lemma SoloIsDoLimit(s: State, call: Call, d: Lookups)
    requires Ready(s, call, d)
    ensures RedisSolo.Ready(s, call, CheckedOnly(d))
    ensures Valid(s, RedisSolo.Solo(s, call, CheckedOnly(d)))
    ensures forall i | 0 <= i < |d| :: AftersAt(s, call, d)[i] < TWO_32
    ensures var t, v := Run(s, RedisSolo.Solo(s, call, CheckedOnly(d))), VerdictsAt(s, call, d);
            && (forall key :: Count(t.store, key) == Count(s.store, key) + Added(d, ChargesAt(s, call, d), key, |d|))
            && |t.slots| == |s.slots| + |CheckedOnly(d)|
            && (forall i | 0 <= i < |d| && d[i].Look? ::
                  Position(d, i) < |CheckedOnly(d)| && t.slots[|s.slots| + Position(d, i)].stage == Judged(v[i]))
            && t.caches == s.caches + EntriesAt(call, d, v)
  {
    var c := CheckedOnly(d);
    CheckedIsReady(s, call, d);
    RedisSolo.SoloRuns(s, call, c);
    EntriesCarry(s, call, d);
    var t := Run(s, RedisSolo.Solo(s, call, c));
    CountersCarry(s, call, d, t.store);
    StagesCarry(s, call, d, t.slots);
  }

  lemma CountersCarry(s: State, call: Call, d: Lookups, store: map<string, uint32>)
    requires Ready(s, call, d) && RedisSolo.Ready(s, call, CheckedOnly(d))
    requires forall key :: Count(store, key) ==
               Count(s.store, key) +
                 Added(CheckedOnly(d), RedisSolo.ChargesAt(s, call, CheckedOnly(d)), key, |CheckedOnly(d)|)
    ensures forall key :: Count(store, key) == Count(s.store, key) + Added(d, ChargesAt(s, call, d), key, |d|)
  {
    CheckedIsReady(s, call, d);
    assert d[..|d|] == d;
    forall key ensures Count(store, key) == Count(s.store, key) + Added(d, ChargesAt(s, call, d), key, |d|) {
      AddedCarries(call.stop, d, RedisSolo.KnownTo(s, call), CountsAt(s, d), RedisSolo.CountsAt(s, CheckedOnly(d)),
                   call.hits, key, |d|);
    }
  }

  lemma StagesCarry(s: State, call: Call, d: Lookups, slots: seq<Slot>)
    requires Ready(s, call, d) && RedisSolo.Ready(s, call, CheckedOnly(d))
    requires forall j | 0 <= j < |d| :: AftersAt(s, call, d)[j] < TWO_32
    requires forall j | 0 <= j < |CheckedOnly(d)| :: RedisSolo.AfterAt(s, call, CheckedOnly(d))[j] < TWO_32
    requires |slots| == |s.slots| + |CheckedOnly(d)|
    requires forall k | 0 <= k < |CheckedOnly(d)| ::
               slots[|s.slots| + k].stage == Judged(RedisSolo.VerdictsAt(s, call, CheckedOnly(d))[k])
    ensures forall i | 0 <= i < |d| && d[i].Look? ::
              && Position(d, i) < |CheckedOnly(d)|
              && slots[|s.slots| + Position(d, i)].stage == Judged(VerdictsAt(s, call, d)[i])
  {
    forall i | 0 <= i < |d| && d[i].Look?
      ensures Position(d, i) < |CheckedOnly(d)|
      ensures slots[|s.slots| + Position(d, i)].stage == Judged(VerdictsAt(s, call, d)[i])
    {
      VerdictCarries(s, call, d, i);
    }
  }
}
