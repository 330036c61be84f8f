/** `DoLimit` of `src/redis/fixed_cache_impl.go`: pipelines of commands, split between
    a main store and an optional store for per-second limits, run one after the
    other. Its contract speaks of one merged store in request order. */
module RedisCache {
  import opened Prelude
  import opened Limiter
  import opened LimitCall
  import Expiry

  datatype Command =
    | IncrBy(key: string, amount: uint32, slot: nat)
    | Expire(key: string, seconds: nat)
    | Get(key: string, slot: nat)

  /** Counters of a store, the time to live last given to each, and the results that
      commands deliver. */
  datatype Outcome = Outcome(store: map<string, nat>, ttl: map<string, nat>, results: seq<nat>)

  function Deliver(results: seq<nat>, slot: nat, value: nat): seq<nat> {
    if slot < |results| then results[slot := value] else results
  }

  function Do(o: Outcome, c: Command): Outcome {
    match c
    case IncrBy(key, amount, slot) =>
      var after := CountOf(o.store, key) + amount;
      o.(store := o.store[key := after], results := Deliver(o.results, slot, after))
    case Expire(key, seconds) => if key in o.store then o.(ttl := o.ttl[key := seconds]) else o
    case Get(key, slot) => o.(results := Deliver(o.results, slot, CountOf(o.store, key)))
  }

  function DoFirst(o: Outcome, pipeline: seq<Command>, n: nat): Outcome
    requires n <= |pipeline|
  {
    if n == 0 then o else Do(DoFirst(o, pipeline, n - 1), pipeline[n - 1])
  }

  function DoAll(o: Outcome, pipeline: seq<Command>): Outcome { DoFirst(o, pipeline, |pipeline|) }

  /** A Redis client; the store behind it, seen at this call alone. */
  class Client {
    var store: map<string, nat>
    var ttl: map<string, nat>

    method PipeDo(pipeline: seq<Command>, results: seq<nat>) returns (r: seq<nat>)
      modifies this
      ensures Outcome(store, ttl, r) == DoAll(Outcome(old(store), old(ttl), results), pipeline)
    {
      r := results;
      for i := 0 to |pipeline|
        invariant Outcome(store, ttl, r) == DoFirst(Outcome(old(store), old(ttl), results), pipeline, i)
      {
        match pipeline[i]
        case IncrBy(key, amount, slot) =>
          var after := CountOf(store, key) + amount;
          store := store[key := after];
          r := Deliver(r, slot, after);
        case Expire(key, seconds) =>
          if key in store {
            ttl := ttl[key := seconds];
          }
        case Get(key, slot) =>
          r := Deliver(r, slot, CountOf(store, key));
      }
    }
  }

  // -------------------------------------------------- what a call charges

  ghost predicate AnyKnown(lookups: seq<Lookup>, known: set<string>) {
    exists i | 0 <= i < |lookups| :: IsKnown(lookups[i], known)
  }

  predicate IsNear(look: Lookup, count: nat, hits: uint32) {
    look.Look? && (count + hits) % TWO_32 > look.limit.quota.perUnit
  }

  ghost predicate AnyNear(lookups: seq<Lookup>, counts: seq<nat>, hits: uint32)
    requires |counts| == |lookups|
  {
    exists i | 0 <= i < |lookups| :: IsNear(lookups[i], counts[i], hits)
  }

  /** The amount that the call adds for a lookup, given the counts before it; None
      for a lookup that stays out of the pipeline. `width` is the number of descriptors
      of the request. */
  ghost function Charge(
    stop: bool, width: nat, lookups: seq<Lookup>, known: set<string>, counts: seq<nat>, hits: uint32,
    i: nat): Option<uint32>
    requires i < |lookups| == |counts|
  {
    if lookups[i].Skip? || IsKnown(lookups[i], known) then None
    else if !stop then Some(hits)
    else if AnyKnown(lookups, known) then Some(0)
    else if width > 1 && AnyNear(lookups, counts, hits) && !IsNear(lookups[i], counts[i], hits) then Some(0)
    else Some(hits)
  }

  ghost function Charges(
    stop: bool, lookups: seq<Lookup>, known: set<string>, counts: seq<nat>, hits: uint32): (r: seq<Option<uint32>>)
    requires |lookups| == |counts|
    ensures |r| == |lookups|
  {
    ChargesFor(stop, |lookups|, lookups, known, counts, hits)
  }

  ghost function ChargesFor(
    stop: bool, width: nat, lookups: seq<Lookup>, known: set<string>, counts: seq<nat>, hits: uint32)
    : (r: seq<Option<uint32>>)
    requires |lookups| == |counts|
    ensures |r| == |lookups|
  {
    seq(|lookups|, i requires 0 <= i < |lookups| => Charge(stop, width, lookups, known, counts, hits, i))
  }

  /** The result for each lookup when all charges run in request order on one store. */
  function ResultAt(lookups: seq<Lookup>, charges: seq<Option<uint32>>, counts: seq<nat>, i: nat): nat
    requires i < |lookups| == |charges| == |counts|
  {
    if lookups[i].Skip? || charges[i].None? then 0 else counts[i] + Added(lookups, charges, lookups[i].key, i + 1)
  }

  // --------------------------------------------------------- two stores

  /** Two clients as one store: per-second keys live in `second`. */
  datatype Stores = Stores(main: map<string, nat>, second: map<string, nat>, perSecond: set<string>)

  function CountIn(s: Stores, key: string): nat {
    if key in s.perSecond then CountOf(s.second, key) else CountOf(s.main, key)
  }

  function CountsIn(s: Stores, lookups: seq<Lookup>): (r: seq<nat>)
    ensures |r| == |lookups|
  {
    seq(|lookups|, i requires 0 <= i < |lookups| => if lookups[i].Skip? then 0 else CountIn(s, lookups[i].key))
  }

  /** Whether a lookup goes to the per-second store. */
  predicate ToSecond(split: bool, look: Lookup) { look.Look? && split && look.perSecond }

  /** No key is used both with SECOND and with another unit. */
  ghost predicate Separated(split: bool, lookups: seq<Lookup>, perSecond: set<string>) {
    forall i | 0 <= i < |lookups| && lookups[i].Look? :: ToSecond(split, lookups[i]) <==> lookups[i].key in perSecond
  }

  /** The expiration that a charge of a lookup sets. */
  function Ttl(look: Lookup, jitter: nat): nat
    requires look.Look?
  {
    Expiry.ExpirationSeconds(look.limit.quota.unit, jitter)
  }

  /** The time to live of a key after the first `n` charges: that of the last one on it. */
  function LastTtl(
    lookups: seq<Lookup>, charges: seq<Option<uint32>>, jitters: seq<nat>, key: string, n: nat, was: nat): nat
    requires n <= |lookups| == |charges| == |jitters|
  {
    if n == 0 then was
    else if lookups[n - 1].Look? && lookups[n - 1].key == key && charges[n - 1].Some? then
      Ttl(lookups[n - 1], jitters[n - 1])
    else LastTtl(lookups, charges, jitters, key, n - 1, was)
  }

  /** The commands that one of the two pipelines holds for the first `n` lookups. */
  function ChargePipe(
    split: bool, second: bool, lookups: seq<Lookup>, charges: seq<Option<uint32>>, jitters: seq<nat>,
    n: nat): seq<Command>
    requires n <= |lookups| == |charges| == |jitters|
  {
    if n == 0 then []
    else
      var i := n - 1;
      ChargePipe(split, second, lookups, charges, jitters, i) +
      if lookups[i].Skip? || charges[i].None? || ToSecond(split, lookups[i]) != second then []
      else [IncrBy(lookups[i].key, charges[i].value, i),
            Expire(lookups[i].key, Ttl(lookups[i], jitters[i]))]
  }

  lemma {:induction false} DoPrefix(o: Outcome, pipeline: seq<Command>, more: seq<Command>, n: nat)
    requires n <= |pipeline|
    ensures DoFirst(o, pipeline + more, n) == DoFirst(o, pipeline, n)
  {
    if n > 0 {
      DoPrefix(o, pipeline, more, n - 1);
    }
  }

  lemma DoOne(o: Outcome, pipeline: seq<Command>, a: Command)
    ensures DoAll(o, pipeline + [a]) == Do(DoAll(o, pipeline), a)
  {
    DoPrefix(o, pipeline, [a], |pipeline|);
  }

  lemma DoTwo(o: Outcome, pipeline: seq<Command>, a: Command, b: Command)
    ensures DoAll(o, pipeline + [a, b]) == Do(Do(DoAll(o, pipeline), a), b)
  {
    assert pipeline + [a, b] == pipeline + [a] + [b];
    DoOne(o, pipeline + [a], b);
    DoOne(o, pipeline, a);
  }

  /** One INCRBY with its EXPIRE at the end of a pipeline. */
  lemma ChargeCommands(o: Outcome, pipeline: seq<Command>, key: string, amount: uint32, slot: nat, seconds: nat)
    ensures var r := DoAll(o, pipeline);
            var after := CountOf(r.store, key) + amount;
            DoAll(o, pipeline + [IncrBy(key, amount, slot), Expire(key, seconds)]) ==
            Outcome(r.store[key := after], r.ttl[key := seconds], Deliver(r.results, slot, after))
  {
    DoTwo(o, pipeline, IncrBy(key, amount, slot), Expire(key, seconds));
  }

  /** Whether a lookup has its commands in a pipeline. */
  predicate InPipe(split: bool, second: bool, look: Lookup, charge: Option<uint32>) {
    look.Look? && charge.Some? && ToSecond(split, look) == second
  }

  lemma ChargePipeSnoc(
    split: bool, second: bool, lookups: seq<Lookup>, charges: seq<Option<uint32>>, jitters: seq<nat>, n: nat)
    requires n < |lookups| == |charges| == |jitters|
    ensures var earlier := ChargePipe(split, second, lookups, charges, jitters, n);
            ChargePipe(split, second, lookups, charges, jitters, n + 1) ==
            if InPipe(split, second, lookups[n], charges[n]) then
              earlier + [IncrBy(lookups[n].key, charges[n].value, n),
                         Expire(lookups[n].key, Ttl(lookups[n], jitters[n]))]
            else earlier
  {
  }

  /** Command `k` of a pipeline is an INCRBY for one of the first `n` lookups, which belongs
      to the client of the pipeline, with an EXPIRE for window and jitter behind it. */
  ghost predicate Routed(
    split: bool, second: bool, lookups: seq<Lookup>, charges: seq<Option<uint32>>, jitters: seq<nat>, n: nat,
    p: seq<Command>, k: nat)
    requires n <= |lookups| == |charges| == |jitters| && k < |p| && p[k].IncrBy?
  {
    && var i := p[k].slot;
    && i < n && lookups[i].Look? && second == (split && lookups[i].perSecond)
    && p[k].key == lookups[i].key && charges[i] == Some(p[k].amount)
    && k + 1 < |p| && p[k + 1] == Expire(p[k].key, UnitToDivider(lookups[i].limit.quota.unit) + jitters[i])
  }

  /** Where charges go: per-second ones to the second client if there is one, all others
      to the main one; and every INCRBY has its EXPIRE behind it. */
  lemma {:induction false} ChargesAreRouted(
    split: bool, second: bool, lookups: seq<Lookup>, charges: seq<Option<uint32>>, jitters: seq<nat>, n: nat)
    requires n <= |lookups| == |charges| == |jitters|
    ensures var p := ChargePipe(split, second, lookups, charges, jitters, n);
            forall k | 0 <= k < |p| && p[k].IncrBy? :: Routed(split, second, lookups, charges, jitters, n, p, k)
  {
    if n > 0 {
      ChargesAreRouted(split, second, lookups, charges, jitters, n - 1);
      ChargePipeSnoc(split, second, lookups, charges, jitters, n - 1);
      var earlier := ChargePipe(split, second, lookups, charges, jitters, n - 1);
      var p := ChargePipe(split, second, lookups, charges, jitters, n);
      forall k | 0 <= k < |p| && p[k].IncrBy? ensures Routed(split, second, lookups, charges, jitters, n, p, k) {
        if k < |earlier| {
          assert p[k] == earlier[k] && Routed(split, second, lookups, charges, jitters, n - 1, earlier, k);
          assert p[k + 1] == earlier[k + 1];
        }
      }
    }
  }

  /** What the first `n` lookups' commands in a pipeline do, lookup by lookup. */
  function Piped(
    split: bool, second: bool, lookups: seq<Lookup>, charges: seq<Option<uint32>>, jitters: seq<nat>, o: Outcome,
    n: nat)
    : Outcome
    requires n <= |lookups| == |charges| == |jitters|
  {
    if n == 0 then o
    else
      var i := n - 1;
      var earlier := Piped(split, second, lookups, charges, jitters, o, i);
      if InPipe(split, second, lookups[i], charges[i]) then
        var key := lookups[i].key;
        var after := CountOf(earlier.store, key) + charges[i].value;
        Outcome(earlier.store[key := after], earlier.ttl[key := Ttl(lookups[i], jitters[i])],
                Deliver(earlier.results, i, after))
      else earlier
  }

  lemma {:induction false} PipeRuns(
    split: bool, second: bool, lookups: seq<Lookup>, charges: seq<Option<uint32>>, jitters: seq<nat>, o: Outcome,
    n: nat)
    requires n <= |lookups| == |charges| == |jitters|
    ensures DoAll(o, ChargePipe(split, second, lookups, charges, jitters, n)) ==
            Piped(split, second, lookups, charges, jitters, o, n)
  {
    if n > 0 {
      var i := n - 1;
      PipeRuns(split, second, lookups, charges, jitters, o, i);
      var earlier := ChargePipe(split, second, lookups, charges, jitters, i);
      ChargePipeSnoc(split, second, lookups, charges, jitters, i);
      if InPipe(split, second, lookups[i], charges[i]) {
        var seconds := Ttl(lookups[i], jitters[i]);
        ChargeCommands(o, earlier, lookups[i].key, charges[i].value, i, seconds);
      }
    }
  }

  /** Every key that a pipeline owns receives all that the lookups add to it. */
  lemma {:induction false} PipedCounts(
    split: bool, second: bool, perSecond: set<string>, lookups: seq<Lookup>, charges: seq<Option<uint32>>,
    jitters: seq<nat>, o: Outcome, n: nat, key: string)
    requires n <= |lookups| == |charges| == |jitters| && Separated(split, lookups, perSecond)
    requires (key in perSecond) == second
    ensures var r := Piped(split, second, lookups, charges, jitters, o, n);
            && CountOf(r.store, key) == CountOf(o.store, key) + Added(lookups, charges, key, n)
            && CountOf(r.ttl, key) == LastTtl(lookups, charges, jitters, key, n, CountOf(o.ttl, key))
  {
    if n > 0 {
      PipedCounts(split, second, perSecond, lookups, charges, jitters, o, n - 1, key);
    }
  }

  /** Every lookup that a pipeline owns has its result in request order. */
  lemma {:induction false} PipedResults(
    split: bool, second: bool, perSecond: set<string>, lookups: seq<Lookup>, charges: seq<Option<uint32>>,
    jitters: seq<nat>, o: Outcome, n: nat)
    requires n <= |lookups| == |charges| == |jitters| == |o.results| && Separated(split, lookups, perSecond)
    ensures var r := Piped(split, second, lookups, charges, jitters, o, n).results;
            && |r| == |o.results|
            && forall i | 0 <= i < |lookups| ::
                 r[i] ==
                 if i < n && InPipe(split, second, lookups[i], charges[i])
                 then CountOf(o.store, lookups[i].key) + Added(lookups, charges, lookups[i].key, i + 1)
                 else o.results[i]
  {
    if n > 0 {
      PipedResults(split, second, perSecond, lookups, charges, jitters, o, n - 1);
      if InPipe(split, second, lookups[n - 1], charges[n - 1]) {
        PipedCounts(split, second, perSecond, lookups, charges, jitters, o, n - 1, lookups[n - 1].key);
      }
    }
  }

  /** Both pipelines, the main one first, on both stores; `ttl` holds the times to live. */
  function RunBoth(
    s: Stores, ttl: Stores, main: seq<Command>, second: seq<Command>, results: seq<nat>): (Stores, Stores, seq<nat>)
  {
    var m := DoAll(Outcome(s.main, ttl.main, results), main);
    var p := DoAll(Outcome(s.second, ttl.second, m.results), second);
    (Stores(m.store, p.store, s.perSecond), Stores(m.ttl, p.ttl, ttl.perSecond), p.results)
  }

  /** Two stores equal one: the split pipelines give every lookup the result, and
      leave every counter at the value and with the time to live, of the unsplit
      sequence on one store. */
  lemma TwoStoresEqualOne(
    split: bool, s: Stores, ttl: Stores, lookups: seq<Lookup>, charges: seq<Option<uint32>>, jitters: seq<nat>)
    requires |lookups| == |charges| == |jitters| && Separated(split, lookups, s.perSecond)
    requires s.perSecond == ttl.perSecond
    ensures var n := |lookups|;
            var (t, ttl', results) := RunBoth(s, ttl, ChargePipe(split, false, lookups, charges, jitters, n),
                                              ChargePipe(split, true, lookups, charges, jitters, n), seq(n, _ => 0));
            && t.perSecond == s.perSecond && ttl'.perSecond == s.perSecond
            && (forall key :: CountIn(t, key) == CountIn(s, key) + Added(lookups, charges, key, n))
            && (forall key :: CountIn(ttl', key) == LastTtl(lookups, charges, jitters, key, n, CountIn(ttl, key)))
            && |results| == n
            && (forall i | 0 <= i < n :: results[i] == ResultAt(lookups, charges, CountsIn(s, lookups), i))
  {
    var n := |lookups|;
    var main := Outcome(s.main, ttl.main, seq(n, _ => 0));
    PipeRuns(split, false, lookups, charges, jitters, main, n);
    PipedResults(split, false, s.perSecond, lookups, charges, jitters, main, n);
    var second := Outcome(s.second, ttl.second, Piped(split, false, lookups, charges, jitters, main, n).results);
    PipeRuns(split, true, lookups, charges, jitters, second, n);
    PipedResults(split, true, s.perSecond, lookups, charges, jitters, second, n);
    forall key
      ensures var o := if key in s.perSecond then second else main;
              var r := Piped(split, key in s.perSecond, lookups, charges, jitters, o, n);
              && CountOf(r.store, key) == CountIn(s, key) + Added(lookups, charges, key, n)
              && CountOf(r.ttl, key) == LastTtl(lookups, charges, jitters, key, n, CountIn(ttl, key))
    {
      PipedCounts(split, key in s.perSecond, s.perSecond, lookups, charges, jitters,
                  if key in s.perSecond then second else main, n, key);
    }
  }

  /** The GET commands of one of the two pipelines. */
  function GetPipe(split: bool, second: bool, lookups: seq<Lookup>, n: nat): seq<Command>
    requires n <= |lookups|
  {
    if n == 0 then []
    else
      GetPipe(split, second, lookups, n - 1) +
      if lookups[n - 1].Skip? || ToSecond(split, lookups[n - 1]) != second then [] else [Get(lookups[n - 1].key, n - 1)]
  }

  /** The GETs go where the charges go. */
  lemma {:induction false} GetsAreRouted(split: bool, second: bool, lookups: seq<Lookup>, n: nat)
    requires n <= |lookups|
    ensures forall c | c in GetPipe(split, second, lookups, n) ::
              && c.Get? && c.slot < n && lookups[c.slot].Look? && c.key == lookups[c.slot].key
              && second == (split && lookups[c.slot].perSecond)
  {
    if n > 0 {
      GetsAreRouted(split, second, lookups, n - 1);
      var earlier := GetPipe(split, second, lookups, n - 1);
      forall c | c in GetPipe(split, second, lookups, n)
        ensures c in earlier ||
                (&& c == Get(lookups[n - 1].key, n - 1) && lookups[n - 1].Look?
                 && second == (split && lookups[n - 1].perSecond))
      {
      }
    }
  }

  lemma GetStep(split: bool, second: bool, lookups: seq<Lookup>, o: Outcome, n: nat)
    requires n < |lookups|
    ensures var earlier := DoAll(o, GetPipe(split, second, lookups, n));
            DoAll(o, GetPipe(split, second, lookups, n + 1)) ==
            if lookups[n].Look? && ToSecond(split, lookups[n]) == second then
              earlier.(results := Deliver(earlier.results, n, CountOf(earlier.store, lookups[n].key)))
            else earlier
  {
    var earlier := GetPipe(split, second, lookups, n);
    if lookups[n].Look? && ToSecond(split, lookups[n]) == second {
      DoOne(o, earlier, Get(lookups[n].key, n));
    } else {
      assert GetPipe(split, second, lookups, n + 1) == earlier;
    }
  }

  /** The first `n` lookups that a pipeline owns have the counts of the store. */
  ghost predicate Got(split: bool, second: bool, lookups: seq<Lookup>, o: Outcome, r: Outcome, n: nat) {
    && r.store == o.store && r.ttl == o.ttl && |r.results| == |o.results| == |lookups|
    && (forall i | 0 <= i < |lookups| ::
          r.results[i] ==
          if i < n && lookups[i].Look? && ToSecond(split, lookups[i]) == second
          then CountOf(o.store, lookups[i].key) else o.results[i])
  }

  lemma GotMore(split: bool, second: bool, lookups: seq<Lookup>, o: Outcome, r: Outcome, n: nat)
    requires n < |lookups| && Got(split, second, lookups, o, r, n)
    ensures Got(split, second, lookups, o,
                if lookups[n].Look? && ToSecond(split, lookups[n]) == second then
                  r.(results := Deliver(r.results, n, CountOf(r.store, lookups[n].key)))
                else r, n + 1)
  {
  }

  lemma {:induction false} GetPipeRuns(split: bool, second: bool, lookups: seq<Lookup>, o: Outcome, n: nat)
    requires n <= |lookups| == |o.results|
    ensures Got(split, second, lookups, o, DoAll(o, GetPipe(split, second, lookups, n)), n)
  {
    if n > 0 {
      GetPipeRuns(split, second, lookups, o, n - 1);
      GetStep(split, second, lookups, o, n - 1);
      GotMore(split, second, lookups, o, DoAll(o, GetPipe(split, second, lookups, n - 1)), n - 1);
    }
  }

  lemma ResultBound(lookups: seq<Lookup>, charges: seq<Option<uint32>>, counts: seq<nat>, i: nat, hits: nat)
    requires i < |lookups| == |charges| == |counts|
    requires forall j | 0 <= j < |charges| && charges[j].Some? :: charges[j].value <= hits
    requires lookups[i].Look? ==> counts[i] + hits * |lookups| < TWO_32
    ensures ResultAt(lookups, charges, counts, i) < TWO_32
  {
    if lookups[i].Look? {
      AddedBound(lookups, charges, lookups[i].key, i + 1, hits);
      MoreFactor(hits, i + 1, |lookups|);
    }
  }

  // ------------------------------------------------------------- the call

  /** The counts after each lookup's charge. */
  ghost function Afters(
    stop: bool, lookups: seq<Lookup>, known: set<string>, counts: seq<nat>, hits: uint32): (r: seq<nat>)
    requires |lookups| == |counts|
    ensures |r| == |lookups|
  {
    var charges := Charges(stop, lookups, known, counts, hits);
    seq(|lookups|, i requires 0 <= i < |lookups| => ResultAt(lookups, charges, counts, i))
  }

  /** No result of the call reaches 2^32. */
  ghost predicate Fits(stop: bool, lookups: seq<Lookup>, known: set<string>, counts: seq<nat>, hits: uint32)
    requires |lookups| == |counts|
  {
    forall i | 0 <= i < |lookups| :: Afters(stop, lookups, known, counts, hits)[i] < TWO_32
  }

  /** Room for the hits of all lookups is enough. */
  lemma RoomSuffices(stop: bool, lookups: seq<Lookup>, known: set<string>, counts: seq<nat>, hits: uint32)
    requires |lookups| == |counts|
    requires forall i | 0 <= i < |lookups| && lookups[i].Look? :: counts[i] + hits * |lookups| < TWO_32
    ensures Fits(stop, lookups, known, counts, hits)
  {
    forall i | 0 <= i < |lookups| ensures Afters(stop, lookups, known, counts, hits)[i] < TWO_32 {
      ResultBound(lookups, Charges(stop, lookups, known, counts, hits), counts, i, hits);
    }
  }

  class FixedCache {
    const client: Client
    const perSecondClient: Client
    /** Whether there is a per-second client at all. */
    const split: bool
    const stop: bool
    const base: BaseRateLimiter

    constructor (client: Client, perSecondClient: Client, split: bool, stop: bool, base: BaseRateLimiter)
      requires client != perSecondClient
      ensures this.client == client && this.perSecondClient == perSecondClient && this.split == split
      ensures this.stop == stop && this.base == base
    {
      this.client, this.perSecondClient, this.split, this.stop, this.base := client, perSecondClient, split, stop, base;
    }

    ghost function View(perSecond: set<string>): Stores
      reads client, perSecondClient
    {
      Stores(client.store, perSecondClient.store, perSecond)
    }

    /** The times to live last given to keys; 0 for none. */
    ghost function TtlView(perSecond: set<string>): Stores
      reads client, perSecondClient
    {
      Stores(client.ttl, perSecondClient.ttl, perSecond)
    }

    /** The GET phase of the stop mode. */
    method ReadCounts(lookups: seq<Lookup>, ghost perSecond: set<string>) returns (counts: seq<nat>)
      requires client != perSecondClient && Separated(split, lookups, perSecond)
      modifies client, perSecondClient
      ensures client.store == old(client.store) && perSecondClient.store == old(perSecondClient.store)
      ensures client.ttl == old(client.ttl) && perSecondClient.ttl == old(perSecondClient.ttl)
      ensures counts == CountsIn(View(perSecond), lookups)
    {
      var pipeline, perSecondPipeline: seq<Command> := [], [];
      for i := 0 to |lookups|
        invariant pipeline == GetPipe(split, false, lookups, i)
        invariant perSecondPipeline == GetPipe(split, true, lookups, i)
      {
        if lookups[i].Look? {
          if split && lookups[i].perSecond {
            perSecondPipeline := perSecondPipeline + [Get(lookups[i].key, i)];
          } else {
            pipeline := pipeline + [Get(lookups[i].key, i)];
          }
        }
      }
      var zeros := seq(|lookups|, _ => 0);
      GetPipeRuns(split, false, lookups, Outcome(client.store, client.ttl, zeros), |lookups|);
      var fromMain := client.PipeDo(pipeline, zeros);
      GetPipeRuns(split, true, lookups, Outcome(perSecondClient.store, perSecondClient.ttl, fromMain), |lookups|);
      counts := perSecondClient.PipeDo(perSecondPipeline, fromMain);
    }

    /** Decides what each lookup is charged. */
    method DecideCharges(lookups: seq<Lookup>, local: seq<bool>, hits: uint32, ghost perSecond: set<string>)
      returns (charges: seq<Option<uint32>>)
      requires client != perSecondClient && Separated(split, lookups, perSecond)
      requires |local| == |lookups|
      requires forall i | 0 <= i < |lookups| :: local[i] == IsKnown(lookups[i], Known(base))
      modifies client, perSecondClient
      ensures client.store == old(client.store) && perSecondClient.store == old(perSecondClient.store)
      ensures client.ttl == old(client.ttl) && perSecondClient.ttl == old(perSecondClient.ttl)
      ensures charges == Charges(stop, lookups, Known(base), CountsIn(View(perSecond), lookups), hits)
    {
      ghost var known, counts := Known(base), CountsIn(View(perSecond), lookups);
      var hitsForRedis := hits;
      var near := seq(|lookups|, _ => false);
      if stop {
        var anyLocal := false;
        for i := 0 to |lookups|
          invariant anyLocal <==> exists j | 0 <= j < i :: IsKnown(lookups[j], known)
          invariant hitsForRedis == if anyLocal then 0 else hits
        {
          if local[i] {
            hitsForRedis := 0;
            anyLocal := true;
          }
        }
        if |lookups| > 1 && !anyLocal {
          var current := ReadCounts(lookups, perSecond);
          for i := 0 to |lookups|
            invariant |near| == |lookups|
            invariant forall j | 0 <= j < |lookups| :: near[j] == (j < i && IsNear(lookups[j], counts[j], hits))
            invariant hitsForRedis == if exists j | 0 <= j < i :: IsNear(lookups[j], counts[j], hits) then 0 else hits
          {
            if lookups[i].Look? && (current[i] + hits) % TWO_32 > lookups[i].limit.quota.perUnit {
              hitsForRedis := 0;
              near := near[i := true];
            }
          }
        }
      }
      charges := [];
      for i := 0 to |lookups|
        invariant |charges| == i
        invariant forall j | 0 <= j < i :: charges[j] == Charge(stop, |lookups|, lookups, known, counts, hits, j)
      {
        if lookups[i].Skip? || local[i] {
          charges := charges + [None];
        } else if near[i] {
          charges := charges + [Some(hits)];
        } else {
          charges := charges + [Some(hitsForRedis)];
        }
      }
    }

    /** Builds and runs the two INCRBY/EXPIRE pipelines. */
    method RunCharges(lookups: seq<Lookup>, charges: seq<Option<uint32>>, jitters: seq<nat>,
                      ghost perSecond: set<string>)
      returns (results: seq<nat>)
      requires client != perSecondClient && Separated(split, lookups, perSecond)
      requires |lookups| == |charges| == |jitters|
      modifies client, perSecondClient
      ensures forall key :: CountIn(View(perSecond), key) ==
                old(CountIn(View(perSecond), key)) + Added(lookups, charges, key, |lookups|)
      ensures forall key :: CountIn(TtlView(perSecond), key) ==
                LastTtl(lookups, charges, jitters, key, |lookups|, old(CountIn(TtlView(perSecond), key)))
      ensures |results| == |lookups|
      ensures forall i | 0 <= i < |lookups| ::
                results[i] == ResultAt(lookups, charges, CountsIn(old(View(perSecond)), lookups), i)
    {
      var pipeline, perSecondPipeline: seq<Command> := [], [];
      for i := 0 to |lookups|
        invariant pipeline == ChargePipe(split, false, lookups, charges, jitters, i)
        invariant perSecondPipeline == ChargePipe(split, true, lookups, charges, jitters, i)
      {
        if lookups[i].Look? && charges[i].Some? {
          var seconds := Expiry.ExpirationSeconds(lookups[i].limit.quota.unit, jitters[i]);
          var commands := [IncrBy(lookups[i].key, charges[i].value, i), Expire(lookups[i].key, seconds)];
          if split && lookups[i].perSecond {
            perSecondPipeline := perSecondPipeline + commands;
          } else {
            pipeline := pipeline + commands;
          }
        }
      }
      TwoStoresEqualOne(split, View(perSecond), TtlView(perSecond), lookups, charges, jitters);
      results := client.PipeDo(pipeline, seq(|lookups|, _ => 0));
      results := perSecondClient.PipeDo(perSecondPipeline, results);
    }

    /** `DoLimit`: with both stores read as one, every key receives what the lookups
        charge it, every lookup is judged on the running count in request order, and
        a lookup that is skipped or known locally is not charged at all. */
    method DoLimit(lookups: seq<Lookup>, hits: uint32, jitters: seq<nat>, now: nat, ghost perSecond: set<string>)
      returns (statuses: seq<Status>)
      requires client != perSecondClient && Separated(split, lookups, perSecond)
      requires |jitters| == |lookups|
      requires forall i | 0 <= i < |lookups| :: lookups[i].Look? ==> lookups[i].key != ""
      requires Fits(stop, lookups, Known(base), CountsIn(View(perSecond), lookups), hits)
      modifies client, perSecondClient, base`stats, base`local
      ensures var s, known := old(View(perSecond)), old(Known(base));
              var counts := CountsIn(s, lookups);
              var charges := Charges(stop, lookups, known, counts, hits);
              var after := Afters(stop, lookups, known, counts, hits);
              && (forall key :: CountIn(View(perSecond), key) ==
                    CountIn(s, key) + Added(lookups, charges, key, |lookups|))
              && (forall key :: CountIn(TtlView(perSecond), key) ==
                    LastTtl(lookups, charges, jitters, key, |lookups|, old(CountIn(TtlView(perSecond), key))))
              && Fits(stop, lookups, known, counts, hits)
              && var v := Verdicts(lookups, Befores(after, hits), after, known, hits);
              && statuses == Statuses(lookups, v, now)
              && base.stats == StatsAfter(old(base.stats), lookups, v)
              && base.local == old(base.local) + if base.cacheEnabled then CachedKeys(lookups, v) else {}
    {
      var local := ProbeLocalCache(base, lookups);
      var charges := DecideCharges(lookups, local, hits, perSecond);
      ghost var counts := CountsIn(View(perSecond), lookups);
      var results := RunCharges(lookups, charges, jitters, perSecond);
      assert results == Afters(stop, lookups, Known(base), counts, hits);
      var after: seq<uint32> := results;
      var before := Befores(after, hits);
      statuses := AnswerAll(base, lookups, local, before, after, hits, now);
    }
  }

  /** The counts before each charge, as the source recovers them from the results. */
  function Befores(after: seq<uint32>, hits: uint32): (r: seq<uint32>)
    ensures |r| == |after|
  {
    seq(|after|, i requires 0 <= i < |after| => Sub32(after[i], hits))
  }
}
