/** The in-memory cache of target values in front of the storage they are dumped to and loaded from. */
module TargetCache {
  import opened Common
  import opened Sequences

  /** A target's path and a value type's name. */
  datatype CacheKey = CacheKey(target: string, valueType: string)

  class TargetCache<V> {
    var cache: map<CacheKey, V>
    /** Read from the configuration at every call. */
    var enabled: bool

    constructor (enabled: bool)
      ensures cache == map[] && this.enabled == enabled
    {
      cache, this.enabled := map[], enabled;
    }

    method Set(key: CacheKey, value: V)
      modifies this`cache
      ensures cache == if enabled then old(cache)[key := value] else old(cache)
    {
      if enabled {
        cache := cache[key := value];
      }
    }

    /** Nothing while disabled, even when there is something. */
    method Get(key: CacheKey) returns (value: Option<V>)
      ensures value == if enabled && key in cache then Some(cache[key]) else None
    {
      value := if enabled && key in cache then Some(cache[key]) else None;
    }

    /** Does not ask whether the cache is enabled. */
    method Has(key: CacheKey) returns (found: bool)
      ensures found <==> key in cache
    {
      found := key in cache;
    }

    method ClearForTargets(targets: set<string>)
      modifies this`cache
      ensures cache == map k | k in old(cache) && k.target !in targets :: old(cache)[k]
    {
      var keys := cache.Keys;
      while keys != {}
        invariant keys <= old(cache.Keys)
        invariant forall k :: k in cache <==> k in old(cache) && (k in keys || k.target !in targets)
        invariant forall k | k in cache :: cache[k] == old(cache)[k]
        decreases |keys|
      {
        var key :| key in keys;
        keys := keys - {key};
        if key.target in targets && key in cache {
          cache := cache - {key};
        }
      }
    }
  }

  /** A value type's marshaller: `None` from reading stands for a failure. */
  datatype Marshaller<!V, !D> = Marshaller(write: V -> D, read: D -> Option<V>)

  ghost predicate RoundTrips<V(!new), D(!new)>(m: Marshaller<V, D>) {
    forall v :: m.read(m.write(v)) == Some(v)
  }

  /** Targets, each with one value type whose marshaller is given, over one storage and one cache. */
  class Targets<V(!new), D(!new)> {
    const cache: TargetCache<V>
    const marshallers: map<string, Marshaller<V, D>>
    /** The value type every target is used with. */
    const typeOf: map<string, string>
    var storage: map<string, D>

    ghost predicate Known(target: string) {
      target in typeOf && typeOf[target] in marshallers && RoundTrips(marshallers[typeOf[target]])
    }

    /** What a target without a cache would load. */
    ghost function Uncached(target: string): Option<V>
      requires Known(target)
      reads this
    {
      if target in storage then marshallers[typeOf[target]].read(storage[target]) else None
    }

    /** Everything in the cache is what would be loaded. */
    ghost predicate Coherent()
      reads this, cache
    {
      forall k | k in cache.cache ::
        Known(k.target) && typeOf[k.target] == k.valueType && Uncached(k.target) == Some(cache.cache[k])
    }

    constructor (marshallers: map<string, Marshaller<V, D>>, typeOf: map<string, string>, storage: map<string, D>, enabled: bool)
      ensures Coherent() && fresh(cache) && cache.enabled == enabled && cache.cache == map[]
      ensures this.storage == storage && this.typeOf == typeOf && this.marshallers == marshallers
    {
      this.marshallers, this.typeOf, this.storage := marshallers, typeOf, storage;
      cache := new TargetCache(enabled);
    }

    /** Writes through to the storage and then to the cache. */
    method Dump(target: string, value: V)
      requires Coherent() && Known(target)
      modifies this, cache
      ensures cache.enabled || CacheKey(target, typeOf[target]) !in old(cache.cache) ==> Coherent()
      ensures storage == old(storage)[target := marshallers[typeOf[target]].write(value)] && Uncached(target) == Some(value)
      ensures cache.enabled == old(cache.enabled)
      ensures cache.cache == if cache.enabled then old(cache.cache)[CacheKey(target, typeOf[target]) := value] else old(cache.cache)
    {
      storage := storage[target := marshallers[typeOf[target]].write(value)];
      cache.Set(CacheKey(target, typeOf[target]), value);
    }

    /** A hit answers what the cache gives, which is nothing when it is disabled; a miss reads the storage. */
    method Load(target: string) returns (value: Option<V>)
      requires Coherent() && Known(target)
      modifies cache
      ensures Coherent() && cache.enabled == old(cache.enabled)
      ensures value == if !cache.enabled && CacheKey(target, typeOf[target]) in old(cache.cache) then None else Uncached(target)
      ensures cache.cache == if cache.enabled && Uncached(target).Some?
                             then old(cache.cache)[CacheKey(target, typeOf[target]) := Uncached(target).value] else old(cache.cache)
    {
      var key := CacheKey(target, typeOf[target]);
      var hit := cache.Has(key);
      if hit {
        value := cache.Get(key);
        return;
      }
      value := if target in storage then marshallers[typeOf[target]].read(storage[target]) else None;
      if value.Some? {
        cache.Set(key, value.value);
      }
    }

    // ----- whole histories -----

    ghost predicate AllKnown(ops: seq<Op<V>>) {
      forall i | 0 <= i < |ops| :: Known(ops[i].target)
    }

    /** The storage after one operation. */
    ghost function StoredAfter(stored: map<string, D>, op: Op<V>): map<string, D>
      requires Known(op.target)
    {
      if op.DumpOp? then stored[op.target := marshallers[typeOf[op.target]].write(op.value)] else stored
    }

    /** What one operation answers without a cache: a load its value, a dump nothing. */
    ghost function Answer(stored: map<string, D>, op: Op<V>): seq<Option<V>>
      requires Known(op.target)
    {
      if op.DumpOp? then []
      else [if op.target in stored then marshallers[typeOf[op.target]].read(stored[op.target]) else None]
    }

    /** What the loads of a history answer without any cache. */
    ghost function Reference(stored: map<string, D>, ops: seq<Op<V>>): seq<Option<V>>
      requires AllKnown(ops)
      decreases |ops|
    {
      if ops == [] then [] else Answer(stored, ops[0]) + Reference(StoredAfter(stored, ops[0]), ops[1..])
    }

    /** One operation, as without the cache. */
    method Do(op: Op<V>) returns (loads: seq<Option<V>>)
      requires Coherent() && Known(op.target) && (cache.enabled || cache.cache == map[])
      modifies this, cache
      ensures Coherent() && cache.enabled == old(cache.enabled) && (cache.enabled || cache.cache == map[])
      ensures loads == Answer(old(storage), op) && storage == StoredAfter(old(storage), op)
    {
      match op
      case DumpOp(t, v) =>
        Dump(t, v);
        loads := [];
      case LoadOp(t) =>
        var value := Load(t);
        loads := [value];
    }

    lemma ReferenceStep(stored: map<string, D>, ops: seq<Op<V>>, i: nat, loads: seq<Option<V>>)
      requires AllKnown(ops) && i < |ops|
      ensures Known(ops[i].target) && AllKnown(ops[i..]) && AllKnown(ops[i + 1..])
      ensures loads + Reference(stored, ops[i..])
              == (loads + Answer(stored, ops[i])) + Reference(StoredAfter(stored, ops[i]), ops[i + 1..])
    {
      assert ops[i..][1..] == ops[i + 1..] && ops[i..][0] == ops[i];
      Associative(loads, Answer(stored, ops[i]), Reference(StoredAfter(stored, ops[i]), ops[i + 1..]));
    }

    /** The cache is transparent: with the flag constant, and nothing cached if it is off, every load in any history answers
        what a target without a cache would. */
    method Run(ops: seq<Op<V>>) returns (loads: seq<Option<V>>)
      requires Coherent() && AllKnown(ops) && (cache.enabled || cache.cache == map[])
      modifies this, cache
      ensures loads == Reference(old(storage), ops)
    {
      loads := [];
      assert ops[0..] == ops;
      for i := 0 to |ops|
        invariant Coherent() && (cache.enabled || cache.cache == map[])
        invariant AllKnown(ops[i..]) && Reference(old(storage), ops) == loads + Reference(storage, ops[i..])
      {
        ReferenceStep(storage, ops, i, loads);
        var more := Do(ops[i]);
        loads := loads + more;
      }
    }
  }

  datatype Op<V> = DumpOp(target: string, value: V) | LoadOp(target: string)
}
