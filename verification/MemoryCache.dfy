/** The in-memory LRU cache of src/cache/redis_client.py. */
module MemoryCache {
  import opened Common

  /** How many entries a cache may hold. */
  type Capacity = n: nat | n >= 1 witness 1

  datatype Slot<+V> = Slot(value: V, expire: real)

  /** An OrderedDict: `order` lists the keys, least recently used first. */
  datatype Dict<+V> = Dict(order: seq<string>, slots: map<string, Slot<V>>) {
    ghost predicate Valid() {
      Distinct(order) && forall k :: k in order <==> k in slots
    }
  }

  function Without(s: seq<string>, key: string): seq<string> {
    if s == [] then []
    else if s[|s| - 1] == key then Without(s[..|s| - 1], key)
    else Without(s[..|s| - 1], key) + [s[|s| - 1]]
  }

  lemma {:induction false} WithoutFacts(s: seq<string>, key: string)
    ensures forall k :: k in Without(s, key) <==> k in s && k != key
    ensures key !in s ==> Without(s, key) == s
    ensures Distinct(s) ==> Distinct(Without(s, key)) && |Without(s, key)| == if key in s then |s| - 1 else |s|
  {
    if s != [] {
      var init := s[..|s| - 1];
      WithoutFacts(init, key);
      assert s == init + [s[|s| - 1]];
      assert forall k :: k in s <==> k in init || k == s[|s| - 1];
      if Distinct(s) && s[|s| - 1] != key {
        DistinctAppend(Without(init, key), s[|s| - 1]);
      }
    }
  }

  lemma DistinctAppend(s: seq<string>, k: string)
    requires Distinct(s) && k !in s
    ensures Distinct(s + [k])
  {
    forall i, j | 0 <= i < j < |s + [k]| ensures (s + [k])[i] != (s + [k])[j] {
      assert (s + [k])[i] == s[i];
    }
  }

  lemma {:induction false} WithoutFirst(s: seq<string>)
    requires s != [] && Distinct(s)
    ensures Without(s, s[0]) == s[1..]
  {
    var init := s[..|s| - 1];
    if init == [] {
      assert Without(init, s[0]) == [];
    } else {
      WithoutFirst(init);
      assert init[1..] + [s[|s| - 1]] == s[1..];
    }
  }

  /** `after` is `before` with its one occurrence of the key taken out. */
  ghost predicate Removed(before: seq<string>, key: string, after: seq<string>) {
    exists i :: 0 <= i < |before| && before[i] == key && after == before[..i] + before[i + 1..]
  }

  /** ... and put behind all others. */
  ghost predicate MovedToEnd(before: seq<string>, key: string, after: seq<string>) {
    after != [] && after[|after| - 1] == key && Removed(before, key, after[..|after| - 1])
  }

  lemma RemovedLast(init: seq<string>, key: string)
    ensures Removed(init + [key], key, init)
  {
    var s, n := init + [key], |init|;
    assert s[n] == key && s[..n] + s[n + 1..] == init;
  }

  lemma RemovedAppend(before: seq<string>, key: string, after: seq<string>, last: string)
    requires Removed(before, key, after)
    ensures Removed(before + [last], key, after + [last])
  {
    var i :| 0 <= i < |before| && before[i] == key && after == before[..i] + before[i + 1..];
    var s := before + [last];
    assert s[i] == key && s[..i] + s[i + 1..] == after + [last];
  }

  lemma {:induction false} WithoutIsRemoval(s: seq<string>, key: string)
    requires Distinct(s)
    ensures key in s ==> Removed(s, key, Without(s, key))
    ensures key !in s ==> Without(s, key) == s
  {
    WithoutFacts(s, key);
    if key in s {
      var init, last := s[..|s| - 1], s[|s| - 1];
      assert s == init + [last];
      if last == key {
        assert key !in init;
        WithoutFacts(init, key);
        RemovedLast(init, key);
      } else {
        WithoutIsRemoval(init, key);
        RemovedAppend(init, key, Without(init, key), last);
      }
    }
  }

  // ---- What each operation does ----------------------------------------------

  /** pop(key) */
  function Pop<V>(d: Dict<V>, key: string): Dict<V> {
    Dict(Without(d.order, key), d.slots - {key})
  }

  /** popitem(last=False) */
  function PopOldest<V>(d: Dict<V>): Dict<V>
    requires d.order != []
  {
    Dict(d.order[1..], d.slots - {d.order[0]})
  }

  function Append<V>(d: Dict<V>, key: string, slot: Slot<V>): Dict<V> {
    Dict(d.order + [key], d.slots[key := slot])
  }

  function Touch<V>(d: Dict<V>, key: string): Dict<V> {
    if key in d.slots then Append(Pop(d, key), key, d.slots[key]) else d
  }

  /** The cache with room made for `key`: its old entry goes; for a new key in a full cache, the
      oldest entry goes. */
  function MakeRoom<V>(d: Dict<V>, max: Capacity, key: string): Dict<V>
  {
    if key in d.slots then Pop(d, key)
    else if |d.order| >= max then PopOldest(d)
    else d
  }

  /** Storing under a key makes it the most recent entry. */
  function Put<V>(d: Dict<V>, max: Capacity, key: string, slot: Slot<V>): Dict<V>
  {
    Append(MakeRoom(d, max, key), key, slot)
  }

  function Lookup<V>(d: Dict<V>, key: string): Option<V> {
    if key in d.slots then Some(d.slots[key].value) else None
  }

  function Incr(d: Dict<int>, max: Capacity, key: string, delta: int): Dict<int>
  {
    var e := if key in d.slots then d else Put(d, max, key, Slot(0, 0.0));
    e.(slots := e.slots[key := Slot(e.slots[key].value + delta, e.slots[key].expire)])
  }

  datatype Op<+V> = Get(key: string) | Set(key: string, slot: Slot<V>) | Delete(key: string) | Exists(key: string)

  function Apply<V>(d: Dict<V>, max: Capacity, op: Op<V>): Dict<V>
  {
    match op
    case Get(key) => Touch(d, key)
    case Set(key, slot) => Put(d, max, key, slot)
    case Delete(key) => Pop(d, key)
    case Exists(_) => d
  }

  /** The cache after a sequence of operations on an empty cache. */
  function Run<V>(max: Capacity, ops: seq<Op<V>>): Dict<V>
  {
    if ops == [] then Dict([], map[]) else Apply(Run(max, ops[..|ops| - 1]), max, ops[|ops| - 1])
  }

  lemma PopValid<V>(d: Dict<V>, key: string)
    requires d.Valid()
    ensures Pop(d, key).Valid() && |Pop(d, key).order| == if key in d.slots then |d.order| - 1 else |d.order|
    ensures key !in d.slots ==> Pop(d, key) == d
  {
    WithoutFacts(d.order, key);
  }

  lemma PopOldestIsPop<V>(d: Dict<V>)
    requires d.Valid() && d.order != []
    ensures PopOldest(d) == Pop(d, d.order[0])
  {
    WithoutFirst(d.order);
  }

  lemma AppendValid<V>(d: Dict<V>, key: string, slot: Slot<V>)
    requires d.Valid() && key !in d.slots
    ensures Append(d, key, slot).Valid()
  {
    DistinctAppend(d.order, key);
  }

  lemma MakeRoomValid<V>(d: Dict<V>, max: Capacity, key: string)
    requires d.Valid() && |d.order| <= max
    ensures MakeRoom(d, max, key).Valid() && key !in MakeRoom(d, max, key).slots && |MakeRoom(d, max, key).order| < max
  {
    PopValid(d, key);
    if |d.order| >= max {
      PopOldestIsPop(d);
      PopValid(d, d.order[0]);
    }
  }

  lemma ApplyValid<V>(d: Dict<V>, max: Capacity, op: Op<V>)
    requires d.Valid() && |d.order| <= max
    ensures Apply(d, max, op).Valid() && |Apply(d, max, op).order| <= max
  {
    PopValid(d, op.key);
    match op
    case Get(key) => if key in d.slots { AppendValid(Pop(d, key), key, d.slots[key]); }
    case Set(key, slot) =>
      MakeRoomValid(d, max, key);
      AppendValid(MakeRoom(d, max, key), key, slot);
    case Delete(_) =>
    case Exists(_) =>
  }

  // ---- ... and what that leaves, field by field ------------------------------------

  ghost predicate IsPut<V>(before: Dict<V>, max: Capacity, key: string, slot: Slot<V>, after: Dict<V>) {
    if key in before.slots then
      after.slots == before.slots[key := slot] && MovedToEnd(before.order, key, after.order)
    else if |before.order| < max then
      after.order == before.order + [key] && after.slots == before.slots[key := slot]
    else
      before.order != [] && after.order == before.order[1..] + [key] &&
      after.slots == (before.slots - {before.order[0]})[key := slot]
  }

  lemma AppendedIsMoved(s: seq<string>, key: string, rest: seq<string>)
    requires Removed(s, key, rest)
    ensures MovedToEnd(s, key, rest + [key])
  {
    assert (rest + [key])[..|rest|] == rest;
  }

  lemma PopMeans<V>(d: Dict<V>, key: string)
    requires d.Valid()
    ensures Pop(d, key).slots == d.slots - {key}
    ensures key in d.slots ==> Removed(d.order, key, Pop(d, key).order)
    ensures key !in d.slots ==> Pop(d, key) == d
  {
    WithoutIsRemoval(d.order, key);
    PopValid(d, key);
  }

  lemma TouchMeans<V>(d: Dict<V>, key: string)
    requires d.Valid() && key in d.slots
    ensures Touch(d, key).slots == d.slots && MovedToEnd(d.order, key, Touch(d, key).order)
  {
    PopMeans(d, key);
    AppendedIsMoved(d.order, key, Pop(d, key).order);
  }

  lemma PutMeans<V>(d: Dict<V>, max: Capacity, key: string, slot: Slot<V>)
    requires d.Valid()
    ensures IsPut(d, max, key, slot, Put(d, max, key, slot))
  {
    if key in d.slots {
      PopMeans(d, key);
      AppendedIsMoved(d.order, key, Pop(d, key).order);
    }
  }

  lemma PutThenReplace(d: Dict<int>, max: Capacity, key: string, a: Slot<int>, b: Slot<int>, e: Dict<int>)
    requires IsPut(d, max, key, a, e) && key !in d.slots
    ensures IsPut(d, max, key, b, e.(slots := e.slots[key := b]))
  {
  }

  lemma IncrMeans(d: Dict<int>, max: Capacity, key: string, delta: int)
    requires d.Valid() && |d.order| <= max
    ensures Incr(d, max, key, delta).Valid() && |Incr(d, max, key, delta).order| <= max
    ensures key !in d.slots ==> IsPut(d, max, key, Slot(delta, 0.0), Incr(d, max, key, delta))
  {
    if key !in d.slots {
      var e := Put(d, max, key, Slot(0, 0.0));
      ApplyValid(d, max, Op.Set(key, Slot(0, 0.0)));
      PutMeans(d, max, key, Slot(0, 0.0));
      PutThenReplace(d, max, key, Slot(0, 0.0), Slot(delta, 0.0), e);
    }
  }

  // ---- The class --------------------------------------------------------------

  class Cache<V> {
    var cache: Dict<V>
    const maxsize: Capacity

    ghost predicate Valid()
      reads this
    {
      cache.Valid() && |cache.order| <= maxsize
    }

    constructor (maxsize: Capacity)
      ensures Valid() && cache == Dict([], map[]) && this.maxsize == maxsize
    {
      cache := Dict([], map[]);
      this.maxsize := maxsize;
    }

    method Get(key: string) returns (value: Option<V>)
      requires Valid()
      modifies this
      ensures Valid() && cache == Apply(old(cache), maxsize, Op.Get(key))
      ensures value == Lookup(old(cache), key)
      ensures cache.slots == old(cache).slots
      ensures if key in cache.slots then MovedToEnd(old(cache).order, key, cache.order) else cache.order == old(cache).order
    {
      ApplyValid(cache, maxsize, Op.Get(key));
      if key !in cache.slots {
        return None;
      }
      TouchMeans(cache, key);
      var slot := cache.slots[key];
      cache := Append(Pop(cache, key), key, slot);  // move_to_end
      value := Some(slot.value);
    }

    method Set(key: string, value: V, expire: real)
      requires Valid()
      modifies this
      ensures Valid() && cache == Apply(old(cache), maxsize, Op.Set(key, Slot(value, expire)))
      ensures IsPut(old(cache), maxsize, key, Slot(value, expire), cache)
    {
      ApplyValid(cache, maxsize, Op.Set(key, Slot(value, expire)));
      PutMeans(cache, maxsize, key, Slot(value, expire));
      if key in cache.slots {
        cache := Pop(cache, key);
      } else {
        if |cache.order| >= maxsize {
          cache := PopOldest(cache);
        }
      }
      cache := Append(cache, key, Slot(value, expire));
    }

    method Delete(key: string) returns (found: bool)
      requires Valid()
      modifies this
      ensures Valid() && cache == Apply(old(cache), maxsize, Op.Delete(key))
      ensures found == (key in old(cache).slots)
      ensures cache.slots == old(cache).slots - {key}
      ensures if found then Removed(old(cache).order, key, cache.order) else cache.order == old(cache).order
    {
      ApplyValid(cache, maxsize, Op.Delete(key));
      PopMeans(cache, key);
      found := key in cache.slots;
      cache := Pop(cache, key);
    }

    method Exists(key: string) returns (found: bool)
      requires Valid()
      ensures found == Lookup(cache, key).Some?
    {
      found := key in cache.slots;
    }
  }

  /** `incr` of a cache whose values are counters. */
  method IncrBy(c: Cache<int>, key: string, delta: int) returns (r: int)
    requires c.Valid()
    modifies c
    ensures c.Valid() && c.cache == Incr(old(c.cache), c.maxsize, key, delta)
    ensures if key in old(c.cache).slots then
              c.cache == Dict(old(c.cache).order, old(c.cache).slots[key := Slot(r, old(c.cache).slots[key].expire)])
            else IsPut(old(c.cache), c.maxsize, key, Slot(r, 0.0), c.cache)
    ensures r == (if key in old(c.cache).slots then old(c.cache).slots[key].value else 0) + delta
  {
    IncrMeans(c.cache, c.maxsize, key, delta);
    if key !in c.cache.slots {
      c.Set(key, 0, 0.0);
    }
    var slot := c.cache.slots[key];
    c.cache := c.cache.(slots := c.cache.slots[key := Slot(slot.value + delta, slot.expire)]);
    r := slot.value + delta;
  }

  // ---- What a run leaves in the cache ----------------------------------------------

  lemma {:induction false} RunValid<V>(max: Capacity, ops: seq<Op<V>>)
    ensures Run(max, ops).Valid() && |Run(max, ops).order| <= max
  {
    if ops != [] {
      RunValid(max, ops[..|ops| - 1]);
      ApplyValid(Run(max, ops[..|ops| - 1]), max, ops[|ops| - 1]);
    }
  }

  /** An operation uses the key it stores, and the key it finds. */
  predicate Uses<V>(d: Dict<V>, op: Op<V>, key: string) {
    op.key == key && (op.Set? || (op.Get? && key in d.slots))
  }

  /** When a key was last used in a run, counting operations from one. */
  function LastUse<V>(max: Capacity, ops: seq<Op<V>>, key: string): nat
  {
    if ops == [] then 0
    else
      var before := ops[..|ops| - 1];
      if Uses(Run(max, before), ops[|ops| - 1], key) then |ops| else LastUse(max, before, key)
  }

  lemma {:induction false} LastUseBound<V>(max: Capacity, ops: seq<Op<V>>, key: string)
    ensures LastUse(max, ops, key) <= |ops|
  {
    if ops != [] { LastUseBound(max, ops[..|ops| - 1], key); }
  }

  ghost predicate OldestFirst<V>(s: seq<string>, max: Capacity, ops: seq<Op<V>>)
  {
    forall i, j | 0 <= i < j < |s| :: LastUse(max, ops, s[i]) < LastUse(max, ops, s[j])
  }

  lemma {:induction false} WithoutOldestFirst<V>(s: seq<string>, key: string, max: Capacity, ops: seq<Op<V>>)
    requires OldestFirst(s, max, ops)
    ensures OldestFirst(Without(s, key), max, ops)
  {
    if s != [] {
      var init := s[..|s| - 1];
      WithoutOldestFirst(init, key, max, ops);
      WithoutFacts(init, key);
      forall k | k in Without(init, key) ensures LastUse(max, ops, k) < LastUse(max, ops, s[|s| - 1]) {
        var i :| 0 <= i < |init| && init[i] == k;
        assert s[i] == k;
      }
    }
  }

  /** One more operation: keys it does not use keep their place, the key it uses goes last. */
  lemma OneMoreUse<V>(max: Capacity, ops: seq<Op<V>>, op: Op<V>, s: seq<string>)
    requires OldestFirst(s, max, ops) && forall k | k in s :: !Uses(Run(max, ops), op, k)
    ensures OldestFirst(s, max, ops + [op])
    ensures Uses(Run(max, ops), op, op.key) ==> OldestFirst(s + [op.key], max, ops + [op])
  {
    assert (ops + [op])[..|ops|] == ops;
    forall k | k in s ensures LastUse(max, ops + [op], k) == LastUse(max, ops, k) <= |ops| {
      LastUseBound(max, ops, k);
    }
    forall i | 0 <= i < |s| ensures LastUse(max, ops + [op], s[i]) == LastUse(max, ops, s[i]) {
      assert s[i] in s;
    }
  }

  /** The cache keeps its keys in the order of their last use, so what it evicts is the least
      recently used entry. */
  lemma {:induction false} KeptInOrderOfUse<V>(max: Capacity, ops: seq<Op<V>>)
    ensures OldestFirst(Run(max, ops).order, max, ops)
  {
    if ops != [] {
      var before, op := ops[..|ops| - 1], ops[|ops| - 1];
      var d := Run(max, before);
      KeptInOrderOfUse(max, before);
      RunValid(max, before);
      assert ops == before + [op];
      WithoutFacts(d.order, op.key);
      WithoutOldestFirst(d.order, op.key, max, before);
      OneMoreUse(max, before, op, Without(d.order, op.key));
      if !Uses(d, op, op.key) {
        OneMoreUse(max, before, op, d.order);
      }
      if op.Set? && op.key !in d.slots && |d.order| >= max {
        WithoutFirst(d.order);
        WithoutFacts(d.order, d.order[0]);
        WithoutOldestFirst(d.order, d.order[0], max, before);
        OneMoreUse(max, before, op, d.order[1..]);
      }
    }
  }

  /** What was last stored under a key and not deleted since. */
  function LastStored<V>(ops: seq<Op<V>>, key: string): Option<V> {
    if ops == [] then None
    else
      var op := ops[|ops| - 1];
      if op.key == key && op.Set? then Some(op.slot.value)
      else if op.key == key && op.Delete? then None
      else LastStored(ops[..|ops| - 1], key)
  }

  /** A hit always returns the value last stored. */
  lemma {:induction false} HitsAreFresh<V>(max: Capacity, ops: seq<Op<V>>, key: string)
    requires Lookup(Run(max, ops), key).Some?
    ensures Lookup(Run(max, ops), key) == LastStored(ops, key)
  {
    if ops != [] {
      var before, op := ops[..|ops| - 1], ops[|ops| - 1];
      RunValid(max, before);
      if op.key != key || !op.Set? {
        HitsAreFresh(max, before, key);
      }
    }
  }

  // ---- Exactly which keys are hits -------------------------------------------------------

  /** The other keys stored or hit since `key` was last stored or asked for, and not deleted since. */
  ghost function Newer<V>(max: Capacity, ops: seq<Op<V>>, key: string): set<string>
    decreases |ops|, 0
  {
    if ops == [] then {}
    else
      var before, op := ops[..|ops| - 1], ops[|ops| - 1];
      match op
      case Exists(_) => Newer(max, before, key)
      case Delete(k) => Newer(max, before, key) - {k}
      case Set(k, _) => if k == key then {} else Newer(max, before, key) + {k}
      case Get(k) => if k == key then {} else if Retained(max, before, k) then Newer(max, before, key) + {k} else Newer(max, before, key)
  }

  /** A key is kept from its last store on until it is deleted or as many newer keys as the cache can
      hold crowd it out. */
  ghost predicate Retained<V>(max: Capacity, ops: seq<Op<V>>, key: string)
    decreases |ops|, 1
  {
    ops != [] &&
    var before, op := ops[..|ops| - 1], ops[|ops| - 1];
    if op.key == key && op.Set? then true
    else if op.key == key && op.Delete? then false
    else Retained(max, before, key) && |Newer(max, ops, key)| < max
  }

  /** The keys behind a key in the order. */
  function Behind(order: seq<string>, key: string): set<string> {
    if order == [] || order[|order| - 1] == key then {}
    else Behind(order[..|order| - 1], key) + {order[|order| - 1]}
  }

  lemma BehindAppend(order: seq<string>, key: string, x: string)
    ensures Behind(order + [x], key) == if x == key then {} else Behind(order, key) + {x}
  {
    assert (order + [x])[..|order|] == order;
  }

  lemma {:induction false} BehindWithout(order: seq<string>, key: string, x: string)
    requires x != key && Distinct(order)
    ensures Behind(Without(order, x), key) == Behind(order, key) - {x}
  {
    if order != [] {
      var init, last := order[..|order| - 1], order[|order| - 1];
      BehindWithout(init, key, x);
      if last != x {
        BehindAppend(Without(init, x), key, last);
      } else {
        BehindElements(init, key);
      }
    }
  }

  lemma {:induction false} BehindElements(order: seq<string>, key: string)
    requires Distinct(order)
    ensures forall k | k in Behind(order, key) :: k in order && k != key
    ensures |Behind(order, key)| <= |order|
    ensures key in order ==> |Behind(order, key)| < |order|
    ensures key in order ==> (|Behind(order, key)| == |order| - 1 <==> order[0] == key)
    ensures key in order && order[0] != key ==> order[0] !in Behind(order, key)
  {
    if order != [] && order[|order| - 1] != key {
      var init, last := order[..|order| - 1], order[|order| - 1];
      BehindElements(init, key);
      assert order == init + [last];
      assert last !in init;
    }
  }

  /** The cache holds exactly the retained keys, and behind each of them the newer ones. */
  ghost predicate HoldsRetained<V>(d: Dict<V>, max: Capacity, ops: seq<Op<V>>, key: string) {
    (key in d.slots <==> Retained(max, ops, key)) && (key in d.slots ==> Behind(d.order, key) == Newer(max, ops, key))
  }

  lemma FewBehind<V>(d: Dict<V>, max: Capacity, key: string)
    requires d.Valid() && |d.order| <= max && key in d.slots
    ensures |Behind(d.order, key)| < max
  {
    BehindElements(d.order, key);
  }

  lemma BehindMoved<V>(d: Dict<V>, k: string, slot: Slot<V>, key: string)
    requires d.Valid() && k != key && key in d.slots
    ensures key in Append(Pop(d, k), k, slot).slots
    ensures Behind(Append(Pop(d, k), k, slot).order, key) == Behind(d.order, key) + {k}
  {
    BehindWithout(d.order, key, k);
    BehindAppend(Without(d.order, k), key, k);
  }

  lemma BehindEvicted<V>(d: Dict<V>, max: Capacity, k: string, slot: Slot<V>, key: string)
    requires d.Valid() && |d.order| == max && k !in d.slots && key in d.slots
    ensures var e := Append(PopOldest(d), k, slot);
            if key == d.order[0] then key !in e.slots && |Behind(d.order, key) + {k}| >= max
            else key in e.slots && Behind(e.order, key) == Behind(d.order, key) + {k}
  {
    BehindElements(d.order, key);
    if key == d.order[0] {
      assert k !in Behind(d.order, key);
    } else {
      WithoutFirst(d.order);
      BehindWithout(d.order, key, d.order[0]);
      BehindAppend(d.order[1..], key, k);
    }
  }

  /** Another key is stored: it goes behind, or the oldest key leaves. */
  lemma PutHolds<V>(d: Dict<V>, max: Capacity, ops: seq<Op<V>>, k: string, slot: Slot<V>, key: string)
    requires d.Valid() && |d.order| <= max && HoldsRetained(d, max, ops, key) && k != key
    ensures var e := Put(d, max, k, slot);
            (key in e.slots ==> key in d.slots && Behind(e.order, key) == Newer(max, ops, key) + {k}) &&
            (key in d.slots && key !in e.slots ==> |Newer(max, ops, key) + {k}| >= max)
  {
    if key in d.slots {
      if k in d.slots {
        BehindMoved(d, k, slot, key);
      } else if |d.order| >= max {
        BehindEvicted(d, max, k, slot, key);
      } else {
        BehindAppend(d.order, key, k);
      }
    }
  }

  lemma {:induction false} NewerNext<V>(max: Capacity, ops: seq<Op<V>>, op: Op<V>, key: string)
    ensures Newer(max, ops + [op], key) ==
            match op
            case Exists(_) => Newer(max, ops, key)
            case Delete(k) => Newer(max, ops, key) - {k}
            case Set(k, _) => if k == key then {} else Newer(max, ops, key) + {k}
            case Get(k) => if k == key then {} else if Retained(max, ops, k) then Newer(max, ops, key) + {k} else Newer(max, ops, key)
  {
    assert (ops + [op])[..|ops|] == ops;
  }

  lemma RetainedNext<V>(max: Capacity, ops: seq<Op<V>>, op: Op<V>, key: string)
    ensures Retained(max, ops + [op], key) <==>
            (op.key == key && op.Set?) ||
            (!(op.key == key && op.Delete?) && Retained(max, ops, key) && |Newer(max, ops + [op], key)| < max)
  {
    assert (ops + [op])[..|ops|] == ops;
  }

  /** What an operation does to the keys behind another one. */
  lemma OpOnOther<V>(d: Dict<V>, max: Capacity, ops: seq<Op<V>>, op: Op<V>, key: string)
    requires d.Valid() && |d.order| <= max && HoldsRetained(d, max, ops, key) && HoldsRetained(d, max, ops, op.key) && op.key != key
    ensures var e, newer := Apply(d, max, op), Newer(max, ops + [op], key);
            (key in e.slots ==> key in d.slots && Behind(e.order, key) == newer) &&
            (key in d.slots && key !in e.slots ==> |newer| >= max)
  {
    NewerNext(max, ops, op, key);
    match op
    case Exists(_) =>
    case Delete(k) =>
      PopValid(d, k);
      BehindWithout(d.order, key, k);
    case Set(k, slot) => PutHolds(d, max, ops, k, slot, key);
    case Get(k) =>
      if k in d.slots && key in d.slots { BehindMoved(d, k, d.slots[k], key); }
  }

  lemma OpOnOwn<V>(d: Dict<V>, max: Capacity, ops: seq<Op<V>>, op: Op<V>)
    requires d.Valid() && |d.order| <= max && HoldsRetained(d, max, ops, op.key)
    ensures var e, newer := Apply(d, max, op), Newer(max, ops + [op], op.key);
            (op.key in e.slots <==> (op.key in d.slots && !op.Delete?) || op.Set?) &&
            (op.key in e.slots ==> Behind(e.order, op.key) == newer)
  {
    NewerNext(max, ops, op, op.key);
    match op
    case Exists(_) =>
    case Delete(k) =>
    case Set(k, slot) => BehindAppend(MakeRoom(d, max, k).order, k, k);
    case Get(k) => BehindAppend(Pop(d, k).order, k, k);
  }

  lemma OpHolds<V>(d: Dict<V>, max: Capacity, ops: seq<Op<V>>, op: Op<V>, key: string)
    requires d.Valid() && |d.order| <= max && HoldsRetained(d, max, ops, key) && HoldsRetained(d, max, ops, op.key)
    ensures HoldsRetained(Apply(d, max, op), max, ops + [op], key)
  {
    var e := Apply(d, max, op);
    ApplyValid(d, max, op);
    RetainedNext(max, ops, op, key);
    if op.key == key {
      OpOnOwn(d, max, ops, op);
    } else {
      OpOnOther(d, max, ops, op, key);
    }
    if key in e.slots { FewBehind(e, max, key); }
  }

  lemma {:induction false} RunHoldsRetained<V>(max: Capacity, ops: seq<Op<V>>, key: string)
    ensures HoldsRetained(Run(max, ops), max, ops, key)
  {
    if ops != [] {
      var before, op := ops[..|ops| - 1], ops[|ops| - 1];
      RunValid(max, before);
      RunHoldsRetained(max, before, key);
      RunHoldsRetained(max, before, op.key);
      OpHolds(Run(max, before), max, before, op, key);
      assert ops == before + [op];
    }
  }

  /** What the cache answers, without the cache: the value last stored if the key is retained, and
      nothing otherwise. */
  lemma CacheAnswers<V>(max: Capacity, ops: seq<Op<V>>, key: string)
    ensures Lookup(Run(max, ops), key) == if Retained(max, ops, key) then LastStored(ops, key) else None
  {
    RunHoldsRetained(max, ops, key);
    if Retained(max, ops, key) {
      HitsAreFresh(max, ops, key);
    }
  }

  /** The other keys that occur in stores and reads from the `p`-th operation on. */
  function OthersSince<V>(ops: seq<Op<V>>, p: nat, key: string): set<string> {
    set j | p <= j < |ops| && (ops[j].Set? || ops[j].Get?) && ops[j].key != key :: ops[j].key
  }

  lemma {:induction false} NewerAreOthers<V>(max: Capacity, ops: seq<Op<V>>, p: nat, key: string)
    requires p < |ops| && ops[p].key == key && (ops[p].Set? || ops[p].Get?)
    ensures Newer(max, ops, key) <= OthersSince(ops, p + 1, key)
    decreases |ops|
  {
    var before := ops[..|ops| - 1];
    if p < |before| {
      NewerAreOthers(max, before, p, key);
      assert OthersSince(before, p + 1, key) <= OthersSince(ops, p + 1, key);
    }
  }

  lemma SubsetSize<T>(a: set<T>, b: set<T>)
    requires a <= b
    ensures |a| <= |b|
  {
    assert b == a + (b - a);
  }

  /** A key stored, or found, by operation `p` and not deleted since is a hit as long as fewer other keys
      than the cache can hold were stored or asked for since. */
  lemma {:induction false} RetainedAmongFewOthers<V>(max: Capacity, ops: seq<Op<V>>, p: nat, key: string)
    requires p < |ops| && ops[p].key == key && (ops[p].Set? || (ops[p].Get? && Retained(max, ops[..p], key)))
    requires forall j | p < j < |ops| && ops[j].Delete? :: ops[j].key != key
    requires |OthersSince(ops, p + 1, key)| < max
    ensures Retained(max, ops, key) && Lookup(Run(max, ops), key).Some?
    decreases |ops|
  {
    var before := ops[..|ops| - 1];
    NewerAreOthers(max, ops, p, key);
    SubsetSize(Newer(max, ops, key), OthersSince(ops, p + 1, key));
    if p < |before| {
      assert OthersSince(before, p + 1, key) <= OthersSince(ops, p + 1, key);
      SubsetSize(OthersSince(before, p + 1, key), OthersSince(ops, p + 1, key));
      assert before[..p] == ops[..p];
      RetainedAmongFewOthers(max, before, p, key);
    }
    RunHoldsRetained(max, ops, key);
  }

  // ---- Subsequences -------------------------------------------------------------

  /** `s` is obtained from `l` by dropping elements. */
  ghost predicate SubsequenceOf(s: seq<string>, l: seq<string>) {
    s == [] ||
    (l != [] &&
     ((s[|s| - 1] == l[|l| - 1] && SubsequenceOf(s[..|s| - 1], l[..|l| - 1])) || SubsequenceOf(s, l[..|l| - 1])))
  }

  lemma {:induction false} SubsequenceElements(s: seq<string>, l: seq<string>)
    requires SubsequenceOf(s, l)
    ensures forall k | k in s :: k in l
    ensures |s| <= |l|
  {
    if s != [] {
      assert l == l[..|l| - 1] + [l[|l| - 1]] && s == s[..|s| - 1] + [s[|s| - 1]];
      if s[|s| - 1] == l[|l| - 1] && SubsequenceOf(s[..|s| - 1], l[..|l| - 1]) {
        SubsequenceElements(s[..|s| - 1], l[..|l| - 1]);
      } else {
        SubsequenceElements(s, l[..|l| - 1]);
      }
    }
  }

  /** Dropping a key on both sides, or only on the shorter one, keeps the relation. */
  lemma {:induction false} SubsequenceWithout(s: seq<string>, l: seq<string>, k: string)
    requires SubsequenceOf(s, l)
    ensures SubsequenceOf(Without(s, k), Without(l, k)) && SubsequenceOf(Without(s, k), l)
  {
    if s != [] {
      var s', l', x := s[..|s| - 1], l[..|l| - 1], l[|l| - 1];
      assert l == l' + [x];
      if s[|s| - 1] == x && SubsequenceOf(s', l') {
        SubsequenceWithout(s', l', k);
      } else {
        SubsequenceWithout(s, l', k);
      }
    }
  }

  /** The longer sequence's first element can only be the shorter one's first element. */
  lemma {:induction false} SubsequenceFirst(s: seq<string>, l: seq<string>)
    requires SubsequenceOf(s, l) && Distinct(l) && l != [] && l[0] in s
    ensures s[0] == l[0]
  {
    var s', l' := s[..|s| - 1], l[..|l| - 1];
    if s[|s| - 1] == l[|l| - 1] && SubsequenceOf(s', l') {
      if |s| > 1 {
        SubsequenceElements(s', l');
        assert s'[0] in l';
        assert s == s' + [s[|s| - 1]];
        assert l[0] == l'[0] && l[0] != l[|l| - 1];
        SubsequenceFirst(s', l');
      }
    } else {
      SubsequenceElements(s, l');
      SubsequenceFirst(s, l');
    }
  }

  // ---- Two caches side by side -----------------------------------------------------

  /** Every entry of the smaller cache is in the larger one with the same value, and in the same
      recency order; the larger cache is fuller by at most the difference of the capacities. */
  ghost predicate Includes<V>(s: Dict<V>, k: nat, l: Dict<V>, m: nat) {
    s.Valid() && l.Valid() && |s.order| <= k && |l.order| <= m &&
    SubsequenceOf(s.order, l.order) && SlotsWithin(s.slots, l.slots) &&
    |l.order| - |s.order| <= m - k
  }

  ghost predicate SlotsWithin<V>(s: map<string, Slot<V>>, l: map<string, Slot<V>>) {
    forall key | key in s :: key in l && s[key] == l[key]
  }

  lemma PopBoth<V>(s: Dict<V>, k: nat, l: Dict<V>, m: nat, key: string)
    requires Includes(s, k, l, m)
    ensures Includes(Pop(s, key), k, Pop(l, key), m)
  {
    PopValid(s, key);
    PopValid(l, key);
    SubsequenceWithout(s.order, l.order, key);
  }

  /** Making the same key the most recent of both. */
  lemma AppendBoth<V>(s: Dict<V>, k: nat, l: Dict<V>, m: nat, key: string, slot: Slot<V>)
    requires Includes(s, k, l, m) && key !in s.slots && key !in l.slots
    requires |s.order| < k && |l.order| < m
    ensures Includes(Append(s, key, slot), k, Append(l, key, slot), m)
  {
    AppendValid(s, key, slot);
    AppendValid(l, key, slot);
  }

  lemma TouchBoth<V>(s: Dict<V>, k: nat, l: Dict<V>, m: nat, key: string)
    requires Includes(s, k, l, m)
    ensures Includes(Touch(s, key), k, Touch(l, key), m)
  {
    PopValid(s, key);
    PopValid(l, key);
    PopBoth(s, k, l, m, key);
    if key in s.slots {
      AppendBoth(Pop(s, key), k, Pop(l, key), m, key, s.slots[key]);
    } else if key in l.slots {
      AppendValid(Pop(l, key), key, l.slots[key]);
    }
  }

  /** Both caches full: whichever entries go, the rest stays included. */
  lemma EvictBoth<V>(s: Dict<V>, k: nat, l: Dict<V>, m: nat)
    requires 1 <= k <= m && Includes(s, k, l, m) && |s.order| >= k && |l.order| >= m
    ensures Includes(PopOldest(s), k, PopOldest(l), m)
  {
    PopOldestIsPop(s);
    PopOldestIsPop(l);
    PopValid(s, s.order[0]);
    PopValid(l, l.order[0]);
    var r := Without(s.order, s.order[0]);
    SubsequenceWithout(s.order, l.order, s.order[0]);
    SubsequenceWithout(r, l.order, l.order[0]);
    WithoutFacts(s.order, s.order[0]);
    if l.order[0] in s.order {
      SubsequenceFirst(s.order, l.order);
    }
    WithoutFacts(r, l.order[0]);
  }

  /** Only the smaller cache evicts: the larger one drops the key itself, or has room. */
  lemma EvictSmaller<V>(s: Dict<V>, k: nat, l: Dict<V>, m: nat, key: string)
    requires 1 <= k <= m && Includes(s, k, l, m) && key !in s.slots && |s.order| >= k
    requires key in l.slots || |l.order| < m
    ensures Includes(PopOldest(s), k, Pop(l, key), m)
  {
    PopBoth(s, k, l, m, key);
    PopValid(s, key);
    PopValid(l, key);
    PopOldestIsPop(s);
    PopValid(s, s.order[0]);
    SubsequenceWithout(s.order, Pop(l, key).order, s.order[0]);
  }

  /** The smaller cache has room: then the larger one does too, or drops the key itself. */
  lemma NoneEvicts<V>(s: Dict<V>, k: nat, l: Dict<V>, m: nat, key: string)
    requires 1 <= k <= m && Includes(s, k, l, m) && key !in s.slots && |s.order| < k
    ensures Includes(s, k, Pop(l, key), m)
    ensures key in l.slots || |l.order| < m
  {
    PopBoth(s, k, l, m, key);
    PopValid(s, key);
  }

  /** Making room for one key in both caches, whichever of them holds it or is full. A full larger
      cache implies a full smaller one, so the larger never evicts alone. */
  lemma MakeRoomBoth<V>(s: Dict<V>, k: nat, l: Dict<V>, m: nat, key: string)
    requires 1 <= k <= m && Includes(s, k, l, m)
    ensures Includes(MakeRoom(s, k, key), k, MakeRoom(l, m, key), m)
  {
    PopValid(l, key);
    if key in s.slots {
      PopBoth(s, k, l, m, key);
    } else if |s.order| < k {
      NoneEvicts(s, k, l, m, key);
    } else if key !in l.slots && |l.order| >= m {
      EvictBoth(s, k, l, m);
    } else {
      EvictSmaller(s, k, l, m, key);
    }
  }

  lemma PutBoth<V>(s: Dict<V>, k: nat, l: Dict<V>, m: nat, key: string, slot: Slot<V>)
    requires 1 <= k <= m && Includes(s, k, l, m)
    ensures Includes(Put(s, k, key, slot), k, Put(l, m, key, slot), m)
  {
    MakeRoomBoth(s, k, l, m, key);
    MakeRoomValid(s, k, key);
    MakeRoomValid(l, m, key);
    AppendBoth(MakeRoom(s, k, key), k, MakeRoom(l, m, key), m, key, slot);
  }

  lemma ApplyBoth<V>(s: Dict<V>, k: nat, l: Dict<V>, m: nat, op: Op<V>)
    requires 1 <= k <= m && Includes(s, k, l, m)
    ensures Includes(Apply(s, k, op), k, Apply(l, m, op), m)
  {
    match op
    case Get(key) => TouchBoth(s, k, l, m, key);
    case Set(key, slot) => PutBoth(s, k, l, m, key, slot);
    case Delete(key) => PopBoth(s, k, l, m, key);
    case Exists(_) =>
  }

  /** LRU inclusion: run the same operations on two caches of capacities k <= m. At every step the
      smaller cache's entries are among the larger's, with equal values and in the same recency
      order, and neither cache exceeds its capacity. */
  lemma {:induction false} Inclusion<V>(k: nat, m: nat, ops: seq<Op<V>>)
    requires 1 <= k <= m
    ensures Includes(Run(k, ops), k, Run(m, ops), m)
  {
    if ops != [] {
      var before, op := ops[..|ops| - 1], ops[|ops| - 1];
      Inclusion(k, m, before);
      ApplyBoth(Run(k, before), k, Run(m, before), m, op);
    }
  }

  /** So a larger cache never turns a hit into a miss, and answers hits alike. */
  lemma LargerCacheHitsMore<V>(k: nat, m: nat, ops: seq<Op<V>>, key: string)
    requires 1 <= k <= m && Lookup(Run(k, ops), key).Some?
    ensures Lookup(Run(m, ops), key) == Lookup(Run(k, ops), key)
  {
    Inclusion(k, m, ops);
  }

  // ---- Counters --------------------------------------------------------------------------

  /** The larger cache does not hold a counter that the smaller one has lost. */
  predicate SameStart(s: Dict<int>, l: Dict<int>, key: string) {
    key in s.slots || key !in l.slots
  }

  /** After one `incr` on both caches the counters agree exactly when neither cache has lost the
      counter alone, or the lost counter stood at zero. */
  lemma IncrAgreesIff(s: Dict<int>, k: nat, l: Dict<int>, m: nat, key: string, delta: int)
    requires 1 <= k <= m && Includes(s, k, l, m)
    ensures Lookup(Incr(s, k, key, delta), key) == Lookup(Incr(l, m, key, delta), key) <==>
            SameStart(s, l, key) || l.slots[key].value == 0
  {
    assert Lookup(Incr(s, k, key, delta), key) == Some((if key in s.slots then s.slots[key].value else 0) + delta);
    assert Lookup(Incr(l, m, key, delta), key) == Some((if key in l.slots then l.slots[key].value else 0) + delta);
  }

  /** Under that guard `incr` keeps the smaller cache inside the larger one. */
  lemma IncrBoth(s: Dict<int>, k: nat, l: Dict<int>, m: nat, key: string, delta: int)
    requires 1 <= k <= m && Includes(s, k, l, m) && SameStart(s, l, key)
    ensures Includes(Incr(s, k, key, delta), k, Incr(l, m, key, delta), m)
  {
    if key in s.slots {
    } else {
      PutBoth(s, k, l, m, key, Slot(0, 0.0));
    }
  }

  /** The keys that stand before a key. */
  function Before(s: seq<string>, key: string): seq<string> {
    if s == [] then []
    else if s[|s| - 1] == key then s[..|s| - 1]
    else Before(s[..|s| - 1], key)
  }

  predicate AllBefore(a: seq<string>, s: seq<string>, key: string) {
    forall x | x in a :: x in Before(s, key)
  }

  lemma {:induction false} BeforeFacts(s: seq<string>, key: string)
    requires Distinct(s) && key in s
    ensures key !in Before(s, key) && forall x | x in Before(s, key) :: x in s
  {
    var init := s[..|s| - 1];
    assert s == init + [s[|s| - 1]];
    if s[|s| - 1] != key {
      BeforeFacts(init, key);
    }
  }

  /** A subsequence ends in a key exactly when the rest of it is one of what stands before the key. */
  lemma {:induction false} SubsequenceEndsIn(a: seq<string>, l: seq<string>, key: string)
    requires Distinct(l) && key in l
    ensures SubsequenceOf(a + [key], l) <==> SubsequenceOf(a, Before(l, key))
  {
    var init := l[..|l| - 1];
    assert l == init + [l[|l| - 1]] && (a + [key])[..|a|] == a;
    if l[|l| - 1] != key {
      SubsequenceEndsIn(a, init, key);
      assert Before(l, key) == Before(init, key);
    } else {
      NoneOfEarlier(a, init, key);
      assert Before(l, key) == init;
    }
  }

  lemma NoneOfEarlier(a: seq<string>, l: seq<string>, key: string)
    requires key !in l
    ensures !SubsequenceOf(a + [key], l)
  {
    if SubsequenceOf(a + [key], l) {
      assert key in a + [key];
      SubsequenceElements(a + [key], l);
    }
  }

  /** That is so exactly when all its elements stand before the key. */
  lemma {:induction false} SubsequenceBefore(a: seq<string>, l: seq<string>, key: string)
    requires Distinct(l) && key in l && SubsequenceOf(a, l)
    ensures SubsequenceOf(a, Before(l, key)) <==> AllBefore(a, l, key)
  {
    if SubsequenceOf(a, Before(l, key)) {
      SubsequenceElements(a, Before(l, key));
    } else if a != [] && AllBefore(a, l, key) {
      var init := l[..|l| - 1];
      assert l == init + [l[|l| - 1]];
      BeforeFacts(l, key);
      assert a[|a| - 1] in a;
      if l[|l| - 1] != key {
        BeforeFacts(init, key);
        assert l[|l| - 1] !in init;
        SubsequenceBefore(a, init, key);
      }
    }
  }

  /** What one `incr` needs to keep inclusion: neither cache has lost the counter alone; or the larger
      one holds it as a fresh counter would be, behind all entries the smaller one keeps. */
  ghost predicate IncrKeeps(s: Dict<int>, k: Capacity, l: Dict<int>, key: string) {
    SameStart(s, l, key) ||
    (l.slots[key] == Slot(0, 0.0) && SubsequenceOf(MakeRoom(s, k, key).order + [key], l.order))
  }

  /** The smaller cache starts a counter that the larger one still holds. */
  lemma IncrLostIff(s: Dict<int>, k: Capacity, l: Dict<int>, m: nat, key: string, delta: int)
    requires k <= m && Includes(s, k, l, m) && !SameStart(s, l, key)
    ensures Includes(Incr(s, k, key, delta), k, Incr(l, m, key, delta), m) <==> IncrKeeps(s, k, l, key)
  {
    MakeRoomValid(s, k, key);
    RoomIsIncluded(s, k, l, m, key);
    var room, s', l' := MakeRoom(s, k, key), Incr(s, k, key, delta), Incr(l, m, key, delta);
    IncrOfNew(s, k, key, delta);
    IncrOfOld(l, m, key, delta);
    LostIff(room, k, l, m, key, delta, s', l');
  }

  lemma LostIff(room: Dict<int>, k: Capacity, l: Dict<int>, m: nat, key: string, delta: int, s': Dict<int>, l': Dict<int>)
    requires room.Valid() && l.Valid() && key !in room.slots && key in l.slots && |room.order| < k <= m && |l.order| <= m
    requires SlotsWithin(room.slots, l.slots) && |l.order| - |room.order| - 1 <= m - k
    requires s' == Append(room, key, Slot(delta, 0.0))
    requires l' == l.(slots := l.slots[key := Slot(l.slots[key].value + delta, l.slots[key].expire)])
    ensures Includes(s', k, l', m) <==> l.slots[key] == Slot(0, 0.0) && SubsequenceOf(room.order + [key], l.order)
  {
    IncludesLost(room, k, l, m, key, Slot(delta, 0.0), Slot(l.slots[key].value + delta, l.slots[key].expire));
  }

  /** "Behind all entries" in other words: each of them is less recently used in the larger cache. */
  lemma BehindMeansOlder(s: Dict<int>, k: Capacity, l: Dict<int>, m: nat, key: string)
    requires k <= m && Includes(s, k, l, m) && !SameStart(s, l, key)
    ensures SubsequenceOf(MakeRoom(s, k, key).order + [key], l.order) <==> AllBefore(MakeRoom(s, k, key).order, l.order, key)
  {
    RoomIsIncluded(s, k, l, m, key);
    EndsInIffBefore(MakeRoom(s, k, key).order, l.order, key);
  }

  lemma EndsInIffBefore(a: seq<string>, l: seq<string>, key: string)
    requires Distinct(l) && key in l && SubsequenceOf(a, l)
    ensures SubsequenceOf(a + [key], l) <==> AllBefore(a, l, key)
  {
    SubsequenceEndsIn(a, l, key);
    SubsequenceBefore(a, l, key);
  }

  lemma IncrOfNew(d: Dict<int>, max: Capacity, key: string, delta: int)
    requires key !in d.slots
    ensures Incr(d, max, key, delta) == Append(MakeRoom(d, max, key), key, Slot(delta, 0.0))
  {
  }

  lemma IncrOfOld(d: Dict<int>, max: Capacity, key: string, delta: int)
    requires key in d.slots
    ensures Incr(d, max, key, delta) == d.(slots := d.slots[key := Slot(d.slots[key].value + delta, d.slots[key].expire)])
  {
  }

  /** A key that is new at the end of the smaller cache and old in the larger one. */
  lemma IncludesLost(s: Dict<int>, k: nat, l: Dict<int>, m: nat, key: string, a: Slot<int>, b: Slot<int>)
    requires s.Valid() && l.Valid() && key !in s.slots && key in l.slots && |s.order| < k <= m && |l.order| <= m
    requires SlotsWithin(s.slots, l.slots) && |l.order| - |s.order| - 1 <= m - k
    ensures Includes(Append(s, key, a), k, l.(slots := l.slots[key := b]), m) <==> a == b && SubsequenceOf(s.order + [key], l.order)
  {
    AppendValid(s, key, a);
    SlotsDiffer(s.slots, l.slots, key, a, b);
  }

  lemma SlotsDiffer<V>(s: map<string, Slot<V>>, l: map<string, Slot<V>>, key: string, a: Slot<V>, b: Slot<V>)
    requires SlotsWithin(s, l)
    ensures SlotsWithin(s[key := a], l[key := b]) <==> a == b
  {
    assert key in s[key := a];
  }

  /** What the smaller cache keeps when it makes room is still in the larger one, in order. */
  lemma RoomIsIncluded(s: Dict<int>, k: Capacity, l: Dict<int>, m: nat, key: string)
    requires k <= m && Includes(s, k, l, m) && key !in s.slots
    ensures SubsequenceOf(MakeRoom(s, k, key).order, l.order) && SlotsWithin(MakeRoom(s, k, key).slots, l.slots)
    ensures |l.order| - |MakeRoom(s, k, key).order| - 1 <= m - k
  {
    if |s.order| >= k {
      PopOldestIsPop(s);
      PopValid(s, s.order[0]);
      SubsequenceWithout(s.order, l.order, s.order[0]);
    }
  }

  /** One `incr` on both caches keeps the smaller one inside the larger exactly under that guard. */
  lemma IncrKeepsIff(s: Dict<int>, k: Capacity, l: Dict<int>, m: Capacity, key: string, delta: int)
    requires k <= m && Includes(s, k, l, m)
    ensures Includes(Incr(s, k, key, delta), k, Incr(l, m, key, delta), m) <==> IncrKeeps(s, k, l, key)
  {
    if SameStart(s, l, key) {
      IncrBoth(s, k, l, m, key, delta);
    } else {
      IncrLostIff(s, k, l, m, key, delta);
    }
  }

  /** An operation of a cache of counters. */
  datatype CounterOp = Do(op: Op<int>) | Count(key: string, delta: int)

  function ApplyCounter(d: Dict<int>, max: Capacity, op: CounterOp): Dict<int>
  {
    match op
    case Do(o) => Apply(d, max, o)
    case Count(key, delta) => Incr(d, max, key, delta)
  }

  function RunCounters(max: Capacity, ops: seq<CounterOp>): Dict<int>
  {
    if ops == [] then Dict([], map[]) else ApplyCounter(RunCounters(max, ops[..|ops| - 1]), max, ops[|ops| - 1])
  }

  /** The smaller cache is inside the larger one after each of the first `n` operations. */
  ghost predicate IncludedUpTo(k: Capacity, m: Capacity, ops: seq<CounterOp>, n: nat)
    requires n <= |ops|
  {
    forall i | 0 <= i <= n :: Includes(RunCounters(k, ops[..i]), k, RunCounters(m, ops[..i]), m)
  }

  /** Every `incr` among the first `n` operations meets the guard. */
  ghost predicate IncrsKeepUpTo(k: Capacity, m: Capacity, ops: seq<CounterOp>, n: nat)
    requires n <= |ops|
  {
    forall i | 0 <= i < n && ops[i].Count? :: IncrKeeps(RunCounters(k, ops[..i]), k, RunCounters(m, ops[..i]), ops[i].key)
  }

  /** One operation more, on caches still included. */
  lemma CounterStep(k: Capacity, m: Capacity, ops: seq<CounterOp>, n: nat)
    requires k <= m && n < |ops| && Includes(RunCounters(k, ops[..n]), k, RunCounters(m, ops[..n]), m)
    ensures Includes(RunCounters(k, ops[..n + 1]), k, RunCounters(m, ops[..n + 1]), m) <==>
            (ops[n].Count? ==> IncrKeeps(RunCounters(k, ops[..n]), k, RunCounters(m, ops[..n]), ops[n].key))
  {
    assert ops[..n + 1][..n] == ops[..n];
    var s, l := RunCounters(k, ops[..n]), RunCounters(m, ops[..n]);
    match ops[n]
    case Do(op) => ApplyBoth(s, k, l, m, op);
    case Count(key, delta) => IncrKeepsIff(s, k, l, m, key, delta);
  }

  lemma IncludedUpToNext(k: Capacity, m: Capacity, ops: seq<CounterOp>, n: nat)
    requires n < |ops|
    ensures IncludedUpTo(k, m, ops, n + 1) <==>
            IncludedUpTo(k, m, ops, n) && Includes(RunCounters(k, ops[..n + 1]), k, RunCounters(m, ops[..n + 1]), m)
  {
  }

  lemma IncrsKeepUpToNext(k: Capacity, m: Capacity, ops: seq<CounterOp>, n: nat)
    requires n < |ops|
    ensures IncrsKeepUpTo(k, m, ops, n + 1) <==>
            IncrsKeepUpTo(k, m, ops, n) &&
            (ops[n].Count? ==> IncrKeeps(RunCounters(k, ops[..n]), k, RunCounters(m, ops[..n]), ops[n].key))
  {
  }

  /** Inclusion with `incr` among the operations: it holds throughout a run if and only if every `incr`
      of the run meets the guard. */
  lemma {:induction false} CounterInclusion(k: Capacity, m: Capacity, ops: seq<CounterOp>, n: nat)
    requires k <= m && n <= |ops|
    ensures IncludedUpTo(k, m, ops, n) <==> IncrsKeepUpTo(k, m, ops, n)
  {
    if n == 0 {
      assert ops[..0] == [];
    } else {
      CounterInclusion(k, m, ops, n - 1);
      IncludedUpToNext(k, m, ops, n - 1);
      IncrsKeepUpToNext(k, m, ops, n - 1);
      if IncludedUpTo(k, m, ops, n - 1) {
        CounterStep(k, m, ops, n - 1);
      }
    }
  }

  lemma RunOfTwo<V>(max: Capacity, a: Op<V>, b: Op<V>)
    ensures Run(max, [a, b]) == Apply(Apply(Dict([], map[]), max, a), max, b)
  {
    assert [a, b][..1] == [a] && [a][..0] == [];
    assert Run(max, [a]) == Apply(Run(max, []), max, a);
  }

  lemma TwoSets<V>(a: string, b: string, x: Slot<V>, y: Slot<V>)
    requires a != b
    ensures Run(1, [Set(a, x), Set(b, y)]) == Dict([b], map[b := y])
    ensures Run(2, [Set(a, x), Set(b, y)]) == Dict([a, b], map[a := x, b := y])
  {
    RunOfTwo(1, Set(a, x), Set(b, y));
    RunOfTwo(2, Set(a, x), Set(b, y));
    assert Apply(Dict([], map[]), 1, Set(a, x)) == Dict([a], map[a := x]) == Apply(Dict([], map[]), 2, Set(a, x));
    assert PopOldest(Dict([a], map[a := x])) == Dict([], map[]);
  }

  /** The guard can fail: a counter at `v` is evicted from the smaller cache, which then counts again
      from zero, while the larger cache counts on. */
  lemma EvictedCounterRestarts(a: string, b: string, v: int)
    requires a != b
    ensures var ops: seq<Op<int>> := [Set(a, Slot(v, 0.0)), Set(b, Slot(0, 0.0))];
            !SameStart(Run(1, ops), Run(2, ops), a) &&
            Lookup(Incr(Run(1, ops), 1, a, 1), a) == Some(1) && Lookup(Incr(Run(2, ops), 2, a, 1), a) == Some(v + 1)
  {
    var x: Slot<int>, y: Slot<int> := Slot(v, 0.0), Slot(0, 0.0);
    TwoSets(a, b, x, y);
  }

}
