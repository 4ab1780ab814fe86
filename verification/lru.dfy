/** The local cache: an ordered dictionary with a deadline per entry, bounded in size. */
module Lru {
  import opened Wrappers

  datatype Slot<V> = Slot(key: string, value: V, expireAt: real)

  /** The dictionary in its order, oldest first. */
  type Items<V> = seq<Slot<V>>

  predicate Distinct<V>(s: Items<V>) {
    forall i, j :: 0 <= i < j < |s| ==> s[i].key != s[j].key
  }

  function Find<V>(s: Items<V>, key: string): (r: Option<Slot<V>>)
    ensures r.Some? ==> r.value in s && r.value.key == key
    ensures r.None? ==> forall x :: x in s ==> x.key != key
  {
    if s == [] then None else if s[0].key == key then Some(s[0]) else Find(s[1..], key)
  }

  function Without<V>(s: Items<V>, key: string): (r: Items<V>)
    ensures forall x :: x in r ==> x in s && x.key != key
    ensures forall x :: x in s && x.key != key ==> x in r
    ensures |r| <= |s|
    ensures Distinct(s) ==> Distinct(r)
  {
    if s == [] then []
    else if s[0].key == key then Without(s[1..], key)
    else
      var rest := Without(s[1..], key);
      assert forall k :: 0 <= k < |rest| ==> rest[k] in rest;
      [s[0]] + rest
  }

  function WithoutAll<V>(s: Items<V>, keys: set<string>): (r: Items<V>)
    ensures forall x :: x in r ==> x in s && x.key !in keys
    ensures forall x :: x in s && x.key !in keys ==> x in r
    ensures Distinct(s) ==> Distinct(r)
  {
    if s == [] then []
    else if s[0].key in keys then WithoutAll(s[1..], keys)
    else
      var rest := WithoutAll(s[1..], keys);
      assert forall k :: 0 <= k < |rest| ==> rest[k] in rest;
      [s[0]] + rest
  }

  function Get<V>(s: Items<V>, key: string, now: real): (Items<V>, Option<V>) {
    match Find(s, key)
    case None => (s, None)
    case Some(slot) =>
      if now > slot.expireAt then (Without(s, key), None)
      else (Without(s, key) + [slot], Some(slot.value))
  }

  /** Keeps the newest `max`; a negative size empties the cache. */
  function Newest<V>(s: Items<V>, max: int): Items<V> {
    if |s| <= max then s else s[|s| - (if max < 0 then 0 else max)..]
  }

  function Set<V>(s: Items<V>, max: int, slot: Slot<V>): Items<V> {
    Newest(Without(s, slot.key) + [slot], max)
  }

  /** The keys the probabilistic cleanup removes: every `step`-th entry that has expired. */
  function Sampled<V>(s: Items<V>, now: real): set<string> {
    SampledUpTo(s, now, |s|)
  }

  function SampledUpTo<V>(s: Items<V>, now: real, count: nat): set<string> {
    set j: nat | j < count && j < |s| && IsSampled(s, now, j) :: s[j * Step(|s|)].key
  }

  predicate IsSampled<V>(s: Items<V>, now: real, j: nat) {
    j * Step(|s|) < |s| && now > s[j * Step(|s|)].expireAt
  }

  function Step(n: nat): nat
    ensures Step(n) >= 1
  {
    if n / 10 > 1 then n / 10 else 1
  }

  function Cleaned<V>(s: Items<V>, now: real, lucky: bool): Items<V> {
    if |s| > 10 && lucky then WithoutAll(s, Sampled(s, now)) else s
  }

  /** What an insertion leaves. */
  function Inserted<V>(s: Items<V>, max: int, slot: Slot<V>, later: real, lucky: bool): Items<V> {
    Cleaned(Set(s, max, slot), later, lucky)
  }

  function NewSlot<V>(key: string, value: V, now: real, ttl: real): Slot<V> {
    Slot(key, value, now + ttl)
  }

  lemma SetDistinct<V>(s: Items<V>, max: int, slot: Slot<V>)
    requires Distinct(s)
    ensures Distinct(Set(s, max, slot))
  {
  }

  lemma SetHolds<V>(s: Items<V>, max: int, slot: Slot<V>)
    ensures forall x :: x in Set(s, max, slot) ==> (x in s && x.key != slot.key) || x == slot
  {
  }

  lemma InsertedHolds<V>(s: Items<V>, max: int, slot: Slot<V>, later: real, lucky: bool)
    requires Distinct(s)
    ensures Distinct(Inserted(s, max, slot, later, lucky))
    ensures forall x :: x in Inserted(s, max, slot, later, lucky) ==> (x in s && x.key != slot.key) || x == slot
  {
    SetDistinct(s, max, slot);
    SetHolds(s, max, slot);
  }

  class LRUCache<V> {
    const maxsize: int
    const ttl: real
    var data: Items<V>

    constructor (maxsize: int, ttl: real)
      ensures this.maxsize == maxsize && this.ttl == ttl && data == []
    {
      this.maxsize, this.ttl, this.data := maxsize, ttl, [];
    }

    /** The given lifetime, or else the default one. */
    function Life(ttl: Option<real>): real {
      if ttl.Some? then ttl.value else this.ttl
    }

    method Lookup(key: string, now: real) returns (r: Option<V>)
      modifies this
      ensures (data, r) == Get(old(data), key, now)
    {
      var entry := Find(data, key);
      if entry.None? {
        return None;
      }
      if now > entry.value.expireAt {
        data := Without(data, key);
        return None;
      }
      data := Without(data, key) + [entry.value];
      r := Some(entry.value.value);
    }

    /** `now` is the clock when the deadline is fixed, `later` when the cleanup looks, and `lucky` its coin.
        A negative `maxsize` makes the eviction loop pop from an empty dictionary, which raises. */
    method Insert(key: string, value: V, ttl: Option<real>, now: real, later: real, lucky: bool) returns (raised: bool)
      requires Distinct(data)
      modifies this
      ensures data == Inserted(old(data), maxsize, NewSlot(key, value, now, Life(ttl)), later, lucky)
      ensures raised <==> maxsize < 0
      ensures Distinct(data)
    {
      var slot := NewSlot(key, value, now, Life(ttl));
      SetDistinct(data, maxsize, slot);
      data := Without(data, key) + [slot];
      raised := EvictOldest();
      assert data == Set(old(data), maxsize, slot);
      if raised {
        return;
      }
      if |data| > 10 && lucky {
        EvictExpiredSample(later);
      }
    }

    method EvictOldest() returns (raised: bool)
      modifies this
      ensures data == Newest(old(data), maxsize)
      ensures raised <==> maxsize < 0
    {
      while |data| > maxsize
        invariant |data| <= |old(data)| && data == old(data)[|old(data)| - |data|..]
        invariant data == old(data) || |data| >= maxsize
        decreases |data|
      {
        if data == [] {
          return true;
        }
        data := data[1..];
      }
      raised := false;
    }

    method EvictExpiredSample(now: real)
      requires Distinct(data)
      modifies this
      ensures data == WithoutAll(old(data), Sampled(old(data), now)) && Distinct(data)
    {
      var step := if |data| / 10 > 1 then |data| / 10 else 1;
      var expired: seq<string>, i := [], 0;
      ghost var j: nat := 0;
      while i < |data|
        invariant i == j * step && j <= i
        invariant ToSet(expired) == SampledUpTo(data, now, j)
        invariant data == old(data)
        decreases |data| - i
      {
        SampledNext(data, now, j);
        ToSetAppend(expired, data[i].key);
        if now > data[i].expireAt {
          expired := expired + [data[i].key];
        }
        i, j := i + step, j + 1;
      }
      SampledAll(data, now, j);
      RemoveKeys(expired);
    }

    /** `del self._data[k]` for every `k` of the list. */
    method RemoveKeys(keys: seq<string>)
      requires Distinct(data)
      modifies this
      ensures data == WithoutAll(old(data), ToSet(keys)) && Distinct(data)
    {
      KeepAll(data);
      assert ToSet(keys[..0]) == {};
      var i := 0;
      while i < |keys|
        invariant 0 <= i <= |keys|
        invariant data == WithoutAll(old(data), ToSet(keys[..i])) && Distinct(data)
      {
        OneMore(old(data), ToSet(keys[..i]), keys[i]);
        assert ToSet(keys[..i + 1]) == ToSet(keys[..i]) + {keys[i]} by {
          ToSetAppend(keys[..i], keys[i]);
          assert keys[..i + 1] == keys[..i] + [keys[i]];
        }
        data := Without(data, keys[i]);
        i := i + 1;
      }
      assert keys[..|keys|] == keys;
    }

    method Delete(key: string)
      modifies this
      ensures data == Without(old(data), key)
    {
      data := Without(data, key);
    }

    method Clear()
      modifies this
      ensures data == []
    {
      data := [];
    }
  }

  function ToSet(keys: seq<string>): set<string> {
    set k | k in keys
  }

  lemma ToSetAppend(keys: seq<string>, key: string)
    ensures ToSet(keys + [key]) == ToSet(keys) + {key}
  {
  }

  lemma SampledNext<V>(s: Items<V>, now: real, j: nat)
    requires j * Step(|s|) < |s|
    ensures SampledUpTo(s, now, j + 1)
         == SampledUpTo(s, now, j) + if now > s[j * Step(|s|)].expireAt then {s[j * Step(|s|)].key} else {}
  {
    assert j < |s|;
    var a, b := SampledUpTo(s, now, j), SampledUpTo(s, now, j + 1);
    if now > s[j * Step(|s|)].expireAt {
      assert IsSampled(s, now, j);
    }
  }

  lemma SampledAll<V>(s: Items<V>, now: real, j: nat)
    requires j * Step(|s|) >= |s|
    ensures SampledUpTo(s, now, j) == Sampled(s, now)
  {
  }

  lemma {:induction false} KeepAll<V>(s: Items<V>)
    ensures WithoutAll(s, {}) == s
  {
    if s != [] {
      var head, rest := s[0], s[1..];
      assert s == [head] + rest;
      KeepAll(rest);
      KeepCons(head, rest);
    }
  }

  lemma KeepCons<V>(head: Slot<V>, rest: Items<V>)
    ensures WithoutAll([head] + rest, {}) == [head] + WithoutAll(rest, {})
  {
    assert ([head] + rest)[1..] == rest;
  }

  lemma {:induction false} OneMore<V>(s: Items<V>, keys: set<string>, key: string)
    ensures Without(WithoutAll(s, keys), key) == WithoutAll(s, keys + {key})
  {
    if s != [] {
      OneMore(s[1..], keys, key);
      var head, rest := s[0], WithoutAll(s[1..], keys);
      if head.key in keys {
        assert WithoutAll(s, keys) == rest;
      } else {
        WithoutCons(head, rest, key);
      }
    }
  }

  lemma WithoutCons<V>(head: Slot<V>, rest: Items<V>, key: string)
    ensures Without([head] + rest, key) == if head.key == key then Without(rest, key) else [head] + Without(rest, key)
  {
  }

  // Runs.  A `Put` is a whole `set`: insertion, eviction and, if the coin says so, cleanup.

  datatype Op<V> =
    | Look(key: string, now: real)
    | Put(slot: Slot<V>, later: real, lucky: bool)
    | Remove(key: string)
    | Empty

  function Do<V>(s: Items<V>, max: int, op: Op<V>): (Items<V>, Option<V>) {
    match op
    case Look(key, now) => Get(s, key, now)
    case Put(slot, later, lucky) => (Inserted(s, max, slot, later, lucky), None)
    case Remove(key) => (Without(s, key), None)
    case Empty => ([], None)
  }

  function DoAll<V>(s: Items<V>, max: int, ops: seq<Op<V>>): (Items<V>, seq<Option<V>>)
    decreases |ops|
  {
    if ops == [] then (s, [])
    else
      var (s1, r) := Do(s, max, ops[0]);
      var (s2, rs) := DoAll(s1, max, ops[1..]);
      (s2, [r] + rs)
  }

  lemma AppendDistinct<V>(s: Items<V>, slot: Slot<V>)
    requires Distinct(s)
    ensures Distinct(Without(s, slot.key) + [slot])
  {
  }

  lemma {:induction false} SizeWithout<V>(s: Items<V>, key: string)
    requires Distinct(s)
    ensures |Without(s, key)| == if Find(s, key).Some? then |s| - 1 else |s|
    ensures Find(s, key).None? ==> Without(s, key) == s
  {
    if s != [] {
      SizeWithout(s[1..], key);
      if s[0].key == key {
        assert forall i :: 1 <= i < |s| ==> s[i].key != s[0].key;
        assert Find(s[1..], key).None?;
      }
    }
  }

  function Keys<V(==)>(s: Items<V>): set<string> {
    set x | x in s :: x.key
  }

  lemma FindIn<V>(s: Items<V>, slot: Slot<V>)
    requires Distinct(s) && slot in s
    ensures Find(s, slot.key) == Some(slot)
  {
    var x := Find(s, slot.key).value;
    var i :| 0 <= i < |s| && s[i] == x;
    var j :| 0 <= j < |s| && s[j] == slot;
  }
}
