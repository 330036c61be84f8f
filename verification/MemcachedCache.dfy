/** `DoLimit` and `increaseAsync` of `src/memcached/cache_impl.go`, each on its own:
    the interleavings between them are the subject of `MemcachedProtocol`. */
module MemcachedCache {
  import opened Prelude
  import opened Limiter
  import opened LimitCall

  datatype Error = CacheMiss | NotStored

  /** The memcached client and the items behind it. */
  class Client {
    var items: map<string, nat>

    method GetMulti(keys: seq<string>) returns (values: map<string, nat>)
      ensures forall key :: key in values <==> key in keys && key in items
      ensures forall key | key in values :: values[key] == items[key]
    {
      values := map[];
      for i := 0 to |keys|
        invariant forall key :: key in values <==> key in keys[..i] && key in items
        invariant forall key | key in values :: values[key] == items[key]
      {
        if keys[i] in items {
          values := values[keys[i] := items[keys[i]]];
        }
      }
    }

    method Increment(key: string, delta: uint32) returns (error: Option<Error>)
      modifies this
      ensures error == if key in old(items) then None else Some(CacheMiss)
      ensures items == if key in old(items) then old(items)[key := old(items)[key] + delta] else old(items)
    {
      if key !in items {
        return Some(CacheMiss);
      }
      items := items[key := items[key] + delta];
      error := None;
    }

    method AddItem(key: string, value: uint32) returns (error: Option<Error>)
      modifies this
      ensures error == if key in old(items) then Some(NotStored) else None
      ensures items == if key in old(items) then old(items) else old(items)[key := value]
    {
      if key in items {
        return Some(NotStored);
      }
      items := items[key := value];
      error := None;
    }
  }

  /** A stored value as the source reads it: parsed as a signed 32-bit integer, where
      a failed parse counts 0. The reading is right exactly below 2^31. */
  function Parsed(value: nat): (r: uint32)
    ensures r == value <==> value < TWO_31
  {
    if value < TWO_31 then value else 0
  }

  /** Every lookup that the local cache does not know adds all its hits. */
  function Charges(lookups: seq<Lookup>, known: set<string>, hits: uint32): (r: seq<Option<uint32>>)
    ensures |r| == |lookups|
  {
    seq(|lookups|, i requires 0 <= i < |lookups| =>
      if lookups[i].Skip? || IsKnown(lookups[i], known) then None else Some(hits))
  }

  function Befores(lookups: seq<Lookup>, known: set<string>, items: map<string, nat>): (r: seq<uint32>)
    ensures |r| == |lookups|
  {
    seq(|lookups|, i requires 0 <= i < |lookups| =>
      if lookups[i].Skip? || IsKnown(lookups[i], known) then 0 else Parsed(CountOf(items, lookups[i].key)))
  }

  function Afters(befores: seq<uint32>, hits: uint32): (r: seq<uint32>)
    ensures |r| == |befores|
  {
    seq(|befores|, i requires 0 <= i < |befores| => Add32(befores[i], hits))
  }

  class MemcachedLimiter {
    const client: Client
    const base: BaseRateLimiter

    constructor (client: Client, base: BaseRateLimiter)
      ensures this.client == client && this.base == base
    {
      this.client, this.base := client, base;
    }

    /** Reads, then judges; nothing is written to the backend yet. */
    method Decide(lookups: seq<Lookup>, hits: uint32, now: nat)
      returns (statuses: seq<Status>, local: seq<bool>)
      requires forall i | 0 <= i < |lookups| :: lookups[i].Look? ==> lookups[i].key != ""
      modifies base`stats, base`local
      ensures |local| == |lookups|
      ensures forall i | 0 <= i < |lookups| :: local[i] == IsKnown(lookups[i], old(Known(base)))
      ensures var known := old(Known(base));
              var before := Befores(lookups, known, client.items);
              var v := Verdicts(lookups, before, Afters(before, hits), known, hits);
              && statuses == Statuses(lookups, v, now)
              && base.stats == StatsAfter(old(base.stats), lookups, v)
              && base.local == old(base.local) + if base.cacheEnabled then CachedKeys(lookups, v) else {}
    {
      local := ProbeLocalCache(base, lookups);
      var keys: seq<string> := [];
      for i := 0 to |lookups|
        invariant forall j | 0 <= j < i && lookups[j].Look? && !local[j] :: lookups[j].key in keys
      {
        if lookups[i].Look? && !local[i] {
          keys := keys + [lookups[i].key];
        }
      }
      var values := client.GetMulti(keys);
      var before: seq<uint32> := [];
      ghost var expected := Befores(lookups, Known(base), client.items);
      for i := 0 to |lookups|
        invariant |before| == i && before == expected[..i]
      {
        var value: uint32 := 0;
        if lookups[i].Look? && !local[i] && lookups[i].key in values {
          value := Parsed(values[lookups[i].key]);
        }
        before := before + [value];
      }
      assert before == expected;
      statuses := AnswerAll(base, lookups, local, before, Afters(before, hits), hits, now);
    }

    /** The background increments, alone: increment, add on a miss, increment again
        when the add lost a race. Each key receives what its lookups charge. */
    method IncreaseAsync(lookups: seq<Lookup>, local: seq<bool>, hits: uint32, ghost known: set<string>)
      requires |local| == |lookups|
      requires forall i | 0 <= i < |lookups| :: local[i] == IsKnown(lookups[i], known)
      modifies client
      ensures forall key :: CountOf(client.items, key) ==
                CountOf(old(client.items), key) + Added(lookups, Charges(lookups, known, hits), key, |lookups|)
    {
      ghost var charges := Charges(lookups, known, hits);
      for i := 0 to |lookups|
        invariant forall key :: CountOf(client.items, key) ==
                    CountOf(old(client.items), key) + Added(lookups, charges, key, i)
      {
        if lookups[i].Skip? || local[i] {
          continue;
        }
        var error := client.Increment(lookups[i].key, hits);
        if error == Some(CacheMiss) {
          error := client.AddItem(lookups[i].key, hits);
          if error == Some(NotStored) {
            error := client.Increment(lookups[i].key, hits);
          }
        }
      }
    }

    /** A call whose increments are flushed before it returns. */
    method DoLimitAndFlush(lookups: seq<Lookup>, hits: uint32, now: nat) returns (statuses: seq<Status>)
      requires forall i | 0 <= i < |lookups| :: lookups[i].Look? ==> lookups[i].key != ""
      modifies client, base`stats, base`local
      ensures var known := old(Known(base));
              var before := Befores(lookups, known, old(client.items));
              var v := Verdicts(lookups, before, Afters(before, hits), known, hits);
              && statuses == Statuses(lookups, v, now)
              && base.stats == StatsAfter(old(base.stats), lookups, v)
              && base.local == (old(base.local) + if base.cacheEnabled then CachedKeys(lookups, v) else {})
              && (forall key :: CountOf(client.items, key) ==
                    CountOf(old(client.items), key) + Added(lookups, Charges(lookups, known, hits), key, |lookups|))
    {
      ghost var known := Known(base);
      var local;
      statuses, local := Decide(lookups, hits, now);
      IncreaseAsync(lookups, local, hits, known);
    }
  }
}
