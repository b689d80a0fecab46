/** The resolver's cache of entity profiles: bounded, with expiry, oldest entry evicted first. */
module EpmCache {
  import opened Wrappers

  type Key = string

  type Profile = string

  datatype Entry = Entry(profile: Profile, expiresAt: int)

  datatype Op = Add(key: Key, profile: Profile, at: int) | Get(key: Key, at: int) | Invalidate(key: Key) | Clear

  // The unbounded map that the cache approximates

  function Next(ttl: int, m: map<Key, Entry>, op: Op): map<Key, Entry> {
    match op
    case Add(key, profile, at) => m[key := Entry(profile, at + ttl)]
    case Get(_, _) => m
    case Invalidate(key) => m - {key}
    case Clear => map[]
  }

  function Unbounded(ttl: int, ops: seq<Op>, n: nat): map<Key, Entry>
    requires n <= |ops|
  {
    if n == 0 then map[] else Next(ttl, Unbounded(ttl, ops, n - 1), ops[n - 1])
  }

  function TimeOf(op: Op, before: int): int {
    if op.Add? || op.Get? then op.at else before
  }

  /** The last clock reading of the first `n` operations. */
  function Clock(ops: seq<Op>, n: nat): int
    requires n <= |ops|
  {
    if n == 0 then (if ops == [] then 0 else TimeOf(ops[0], 0)) else TimeOf(ops[n - 1], Clock(ops, n - 1))
  }

  ghost predicate Monotone(ops: seq<Op>) {
    forall n :: 0 <= n < |ops| ==> TicksAt(ops, n)
  }

  ghost predicate TicksAt(ops: seq<Op>, n: nat)
    requires n < |ops|
  {
    Clock(ops, n) <= TimeOf(ops[n], Clock(ops, n))
  }

  function LookUp(m: map<Key, Entry>, key: Key, at: int): Option<Profile> {
    if key in m && at <= m[key].expiresAt then Some(m[key].profile) else None
  }

  /** The outcome of a lookup is that of the unbounded map at that moment. */
  ghost predicate Agrees(ttl: int, ops: seq<Op>, i: nat, r: Option<Profile>)
    requires i < |ops|
  {
    ops[i].Get? ==> r == LookUp(Unbounded(ttl, ops, i), ops[i].key, ops[i].at)
  }

  ghost predicate NoEmptyKey(ops: seq<Op>) {
    forall i :: 0 <= i < |ops| && ops[i].Add? ==> ops[i].key != ""
  }

  /** No addition finds the unbounded map with as many keys as the capacity. */
  ghost predicate HasRoom(ttl: int, capacity: int, ops: seq<Op>) {
    forall i :: 0 <= i < |ops| ==> RoomAt(ttl, capacity, ops, i)
  }

  ghost predicate RoomAt(ttl: int, capacity: int, ops: seq<Op>, i: nat)
    requires i < |ops|
  {
    ops[i].Add? ==> |Unbounded(ttl, ops, i)| < capacity
  }

  lemma {:induction false} DistinctFits(order: seq<Key>, keys: set<Key>)
    requires forall i, j :: 0 <= i < j < |order| ==> order[i] != order[j]
    requires forall i :: 0 <= i < |order| ==> order[i] in keys
    ensures |order| <= |keys|
  {
    if order == [] {
    } else {
      DistinctFits(order[1..], keys - {order[0]});
    }
  }

  class Cache {
    const ttl: int
    const capacity: int
    /** The keys of `entries`, in insertion order. */
    var order: seq<Key>
    var entries: map<Key, Entry>

    constructor (ttl: int, capacity: int)
      ensures this.ttl == ttl && this.capacity == capacity && Valid() && entries == map[]
    {
      this.ttl, this.capacity := ttl, capacity;
      order, entries := [], map[];
    }

    ghost predicate Valid()
      reads this
    {
      && (forall k :: k in order <==> k in entries)
      && (forall i, j :: 0 <= i < j < |order| ==> order[i] != order[j])
    }

    method Delete(key: Key)
      requires Valid()
      modifies this
      ensures Valid() && entries == old(entries) - {key}
      ensures key !in old(entries) ==> order == old(order)
      ensures forall k :: 0 <= k < |old(order)| && old(order)[k] == key ==>
                order == old(order)[..k] + old(order)[k + 1..]
    {
      if k :| 0 <= k < |order| && order[k] == key {
        order := order[..k] + order[k + 1..];
      }
      entries := entries - {key};
    }

    method GetFromCache(key: Key, at: int) returns (r: Option<Profile>)
      requires Valid()
      modifies this
      ensures Valid() && r == LookUp(old(entries), key, at)
      ensures entries == if key in old(entries) && r.None? then old(entries) - {key} else old(entries)
      ensures |order| <= |old(order)| && (r.Some? ==> order == old(order))
    {
      if key !in entries {
        return None;
      }
      var entry := entries[key];
      if at > entry.expiresAt {
        Delete(key);
        return None;
      }
      r := Some(entry.profile);
    }

    /** Making room evicts the oldest entry, unless its key is empty. */
    ghost predicate Evicts()
      reads this
    {
      |order| >= capacity && order != [] && order[0] != ""
    }

    /** The entries, and their order, that an addition finds after making room. */
    ghost function Roomy(): (map<Key, Entry>, seq<Key>)
      reads this
    {
      if Evicts() then (entries - {order[0]}, order[1..]) else (entries, order)
    }

    /**
     * Adding makes room by the oldest entry, if its key is not empty. A cache within its capacity stays
     * within it exactly when that is positive and a full cache does not meet a new key with an empty
     * oldest one.
     */
    method AddToCache(key: Key, profile: Profile, at: int)
      requires Valid()
      modifies this
      ensures Valid() && entries == old(Roomy()).0[key := Entry(profile, at + ttl)]
      ensures order == if key in old(Roomy()).0 then old(Roomy()).1 else old(Roomy()).1 + [key]
      ensures forall k :: k in old(entries) ==> (k !in entries <==> old(Evicts()) && k == old(order)[0] && k != key)
      ensures |old(order)| <= capacity ==>
                (|order| <= capacity <==>
                   capacity >= 1 && !(|old(order)| == capacity && old(order)[0] == "" && key !in old(entries)))
    {
      if |order| >= capacity && order != [] {
        var oldest := order[0];
        if oldest != "" {
          Delete(oldest);
        }
      }
      if key !in entries {
        order := order + [key];
      }
      entries := entries[key := Entry(profile, at + ttl)];
    }

    method ClearCache()
      modifies this
      ensures Valid() && entries == map[] && order == []
    {
      order, entries := [], map[];
    }

    /** Every entry is one that the unbounded map holds. */
    ghost predicate Within(m: map<Key, Entry>)
      reads this
    {
      forall k :: k in entries ==> k in m && entries[k] == m[k]
    }

    /** The capacity is positive and respected, and no key is empty. */
    ghost predicate Bounded()
      reads this
    {
      capacity >= 1 && |order| <= capacity && "" !in entries
    }

    /** What the cache lacks has expired by `now`. */
    ghost predicate Complete(m: map<Key, Entry>, now: int)
      reads this
    {
      forall k :: k in m && k !in entries ==> m[k].expiresAt < now
    }

    /** One operation, beside the unbounded map. */
    method Apply(op: Op, ghost m: map<Key, Entry>) returns (r: Option<Profile>)
      requires Valid() && Within(m)
      modifies this
      ensures Valid() && Within(Next(ttl, m, op))
      ensures op.Get? ==> r.None? || r == LookUp(m, op.key, op.at)
      ensures old(Bounded()) && (op.Add? ==> op.key != "") ==> Bounded()
      ensures forall t :: old(Complete(m, t)) && t <= TimeOf(op, t) && (op.Add? ==> |old(order)| < capacity) ==>
                Complete(Next(ttl, m, op), TimeOf(op, t)) && (op.Get? ==> r == LookUp(m, op.key, op.at))
    {
      r := None;
      match op {
        case Add(key, profile, at) =>
          assert order != [] ==> order[0] in entries;
          AddToCache(key, profile, at);
        case Get(key, at) =>
          r := GetFromCache(key, at);
        case Invalidate(key) =>
          Delete(key);
        case Clear =>
          ClearCache();
      }
    }

    /** After `n` operations: within the unbounded map, within bounds, and complete if there was always room. */
    ghost predicate InStep(ops: seq<Op>, n: nat, roomy: bool)
      requires n <= |ops|
      reads this
    {
      && Within(Unbounded(ttl, ops, n))
      && (capacity >= 1 && NoEmptyKey(ops) ==> Bounded())
      && (roomy ==> Complete(Unbounded(ttl, ops, n), Clock(ops, n)))
    }

    /** Operation `n` of a run. */
    method StepBeside(ops: seq<Op>, n: nat, ghost roomy: bool) returns (r: Option<Profile>)
      requires n < |ops| && Valid() && InStep(ops, n, roomy)
      requires roomy ==> RoomAt(ttl, capacity, ops, n) && TicksAt(ops, n)
      modifies this
      ensures Valid() && InStep(ops, n + 1, roomy)
      ensures r.None? || Agrees(ttl, ops, n, r)
      ensures roomy ==> Agrees(ttl, ops, n, r)
    {
      DistinctFits(order, Unbounded(ttl, ops, n).Keys);
      r := Apply(ops[n], Unbounded(ttl, ops, n));
    }

    /**
     * Through any run, each lookup yields nothing or exactly what the unbounded map would, and with a
     * positive capacity and no empty key the cache never outgrows its capacity. On a clock that does not
     * run back, a run whose additions never find as many keys as the capacity in the unbounded map yields
     * exactly what that map would.
     */
    method Replay(ops: seq<Op>) returns (results: seq<Option<Profile>>)
      requires Valid() && entries == map[] && order == []
      modifies this
      ensures |results| == |ops|
      ensures forall i :: 0 <= i < |ops| ==> results[i].None? || Agrees(ttl, ops, i, results[i])
      ensures capacity >= 1 && NoEmptyKey(ops) ==> |order| <= capacity
      ensures HasRoom(ttl, capacity, ops) && Monotone(ops) ==>
                forall i :: 0 <= i < |ops| ==> Agrees(ttl, ops, i, results[i])
    {
      results := [];
      ghost var roomy := HasRoom(ttl, capacity, ops) && Monotone(ops);
      for n := 0 to |ops|
        invariant Valid() && |results| == n && InStep(ops, n, roomy)
        invariant forall i :: 0 <= i < n ==> results[i].None? || Agrees(ttl, ops, i, results[i])
        invariant roomy ==> forall i :: 0 <= i < n ==> Agrees(ttl, ops, i, results[i])
      {
        assert roomy ==> RoomAt(ttl, capacity, ops, n) && TicksAt(ops, n);
        var r := StepBeside(ops, n, roomy);
        results := results + [r];
      }
    }
  }

  /** A cache for one entry ends up with two when the first key is empty. */
  method EmptyKeyOverflows(ttl: int, profile: Profile) returns (cache: Cache)
    ensures cache.Valid() && cache.capacity == 1 && |cache.order| > 1
  {
    cache := new Cache(ttl, 1);
    cache.ClearCache();
    cache.AddToCache("", profile, 0);
    assert "" in cache.order && cache.order[0] == "";
    cache.AddToCache("peer", profile, 0);
  }

  /** Adding a key again to a full cache loses the oldest entry, though no room was needed. */
  method ReAddLosesOldest(ttl: int, profile: Profile) returns (cache: Cache)
    ensures cache.Valid() && cache.capacity == 2 && cache.order == ["b"] && "a" !in cache.entries
  {
    cache := new Cache(ttl, 2);
    cache.ClearCache();
    cache.AddToCache("a", profile, 0);
    cache.AddToCache("b", profile, 0);
    assert cache.order == ["a", "b"];
    cache.AddToCache("b", profile, 0);
  }
}
