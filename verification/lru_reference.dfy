/** The local cache against a plain map with a deadline per key, without order or bound. */
module LruReference {
  import opened Wrappers
  import opened Lru

  type Table<V> = map<string, Slot<V>>

  function TableDo<V>(t: Table<V>, op: Op<V>): (Table<V>, Option<V>) {
    match op
    case Look(key, now) =>
      if key !in t then (t, None)
      else if now > t[key].expireAt then (t - {key}, None)
      else (t, Some(t[key].value))
    case Put(slot, _, _) => (t[slot.key := slot], None)
    case Remove(key) => (t - {key}, None)
    case Empty => (map[], None)
  }

  function TableAll<V>(t: Table<V>, ops: seq<Op<V>>): (Table<V>, seq<Option<V>>)
    decreases |ops|
  {
    if ops == [] then (t, [])
    else
      var (t1, r) := TableDo(t, ops[0]);
      var (t2, rs) := TableAll(t1, ops[1..]);
      (t2, [r] + rs)
  }

  /** Whatever the cache holds, the map holds. */
  predicate Backed<V(==)>(s: Items<V>, t: Table<V>) {
    Distinct(s) && forall x :: x in s ==> x.key in t && t[x.key] == x
  }

  /** Whatever the map holds and had not expired at `clock`, the cache holds. */
  predicate Complete<V(==)>(s: Items<V>, t: Table<V>, clock: real) {
    forall k :: k in t ==> t[k].key == k && (t[k] in s || clock > t[k].expireAt)
  }

  lemma {:induction false} SizeBacked<V>(s: Items<V>, t: Table<V>)
    requires Backed(s, t)
    ensures |s| <= |t|
  {
    if s != [] {
      var rest := t - {s[0].key};
      assert forall x :: x in s[1..] ==> x.key != s[0].key;
      SizeBacked(s[1..], rest);
      assert t.Keys == rest.Keys + {s[0].key};
    }
  }

  lemma BackedStep<V>(s: Items<V>, max: int, t: Table<V>, op: Op<V>)
    requires Backed(s, t)
    ensures Backed(Do(s, max, op).0, TableDo(t, op).0)
    ensures Do(s, max, op).1.Some? ==> TableDo(t, op).1 == Do(s, max, op).1
  {
    match op
    case Look(key, now) =>
      if Find(s, key).Some? {
        AppendDistinct(s, Find(s, key).value);
      }
    case Put(slot, later, lucky) =>
      InsertedHolds(s, max, slot, later, lucky);
    case Remove(key) =>
    case Empty =>
  }

  lemma {:induction false} BackedRun<V>(s: Items<V>, max: int, t: Table<V>, ops: seq<Op<V>>)
    requires Backed(s, t)
    ensures Backed(DoAll(s, max, ops).0, TableAll(t, ops).0)
    decreases |ops|
  {
    if ops != [] {
      BackedStep(s, max, t, ops[0]);
      BackedRun(Do(s, max, ops[0]).0, max, TableDo(t, ops[0]).0, ops[1..]);
    }
  }

  /** An entry set at `t` with lifetime `d` is hit until t + d and missed after, in a cache of any positive
      size, whatever the cleanup after the insertion saw in between. */
  lemma LivesFor<V>(s: Items<V>, max: int, key: string, value: V, t: real, d: real, later: real, lucky: bool, now: real)
    requires Distinct(s) && max > 0 && later <= now
    ensures Get(Inserted(s, max, NewSlot(key, value, t, d), later, lucky), key, now).1
         == if now <= t + d then Some(value) else None
  {
    var slot := NewSlot(key, value, t, d);
    var set0 := Set(s, max, slot);
    SetDistinct(s, max, slot);
    assert set0[|set0| - 1] == slot && slot in set0;
    InsertedHolds(s, max, slot, later, lucky);
    var after := Inserted(s, max, slot, later, lucky);
    if slot in after {
      FindIn(after, slot);
    } else {
      assert slot.key in Sampled(set0, later);
      SampledExpired(set0, later, slot);
    }
  }

  /** Up to ten entries are never cleaned, up to nineteen are cleaned of everything expired, and a cleanup
      of more removes the oldest entry if that has expired. */
  lemma CleansFrom<V>(s: Items<V>, now: real)
    requires Distinct(s)
    ensures |s| <= 10 ==> Cleaned(s, now, true) == s
    ensures 10 < |s| < 20 ==> forall x :: x in Cleaned(s, now, true) <==> x in s && now <= x.expireAt
    ensures |s| >= 20 && now > s[0].expireAt ==> s[0] !in Cleaned(s, now, true)
    ensures Cleaned(s, now, false) == s
  {
    if 10 < |s| < 20 {
      assert Step(|s|) == 1;
      forall x | x in s && now > x.expireAt ensures x.key in Sampled(s, now) {
        var j: nat :| j < |s| && s[j] == x;
        assert j * 1 == j && IsSampled(s, now, j);
      }
      forall x | x in s && x.key in Sampled(s, now) ensures now > x.expireAt {
        SampledExpired(s, now, x);
      }
    }
    if |s| >= 20 && now > s[0].expireAt {
      assert 0 * Step(|s|) == 0 && IsSampled(s, now, 0);
      assert s[0].key in Sampled(s, now);
    }
  }

  lemma CompletePut<V>(s: Items<V>, max: int, t: Table<V>, slot: Slot<V>, clock: real)
    requires Backed(s, t) && Complete(s, t, clock) && |t[slot.key := slot]| <= max
    ensures Complete(Set(s, max, slot), t[slot.key := slot], clock)
  {
    var all := Without(s, slot.key) + [slot];
    assert Set(s, max, slot) == all by {
      AppendDistinct(s, slot);
      SizeBacked(all, t[slot.key := slot]);
    }
    forall k | k in t && k != slot.key ensures t[k] in all || clock > t[k].expireAt {
      assert t[k] in s ==> t[k] in Without(s, slot.key);
    }
  }

  /** The cleanup takes only what has expired by its clock reading. */
  lemma CompleteCleaned<V>(s: Items<V>, t: Table<V>, clock: real, later: real, lucky: bool)
    requires Distinct(s) && Complete(s, t, clock) && clock <= later
    ensures Complete(Cleaned(s, later, lucky), t, later)
  {
    if |s| > 10 && lucky {
      forall k | k in t && t[k] in s && t[k] !in Cleaned(s, later, lucky) ensures later > t[k].expireAt {
        assert t[k].key in Sampled(s, later);
        SampledExpired(s, later, t[k]);
      }
    }
  }

  lemma SampledExpired<V>(s: Items<V>, now: real, x: Slot<V>)
    requires Distinct(s) && x in s && x.key in Sampled(s, now)
    ensures now > x.expireAt
  {
    var j: nat :| j < |s| && IsSampled(s, now, j) && s[j * Step(|s|)].key == x.key;
    var i :| 0 <= i < |s| && s[i] == x;
    assert i == j * Step(|s|);
  }

  lemma CompleteLook<V>(s: Items<V>, t: Table<V>, key: string, clock: real, now: real)
    requires Backed(s, t) && Complete(s, t, clock) && clock <= now
    ensures Complete(Get(s, key, now).0, TableDo(t, Look(key, now)).0, now)
    ensures Get(s, key, now).1 == TableDo(t, Look(key, now)).1
  {
    forall k | k in t && k != key ensures t[k] in s ==> t[k] in Without(s, key) {
    }
  }

  /** The clock reading an operation takes while it holds the cache's lock, if any. */
  function Reading<V>(op: Op<V>, clock: real): real {
    match op
    case Look(_, now) => now
    case Put(_, later, _) => later
    case _ => clock
  }

  lemma CompleteStep<V>(s: Items<V>, max: int, t: Table<V>, op: Op<V>, clock: real)
    requires Backed(s, t) && Complete(s, t, clock) && |TableDo(t, op).0| <= max && clock <= Reading(op, clock)
    ensures Complete(Do(s, max, op).0, TableDo(t, op).0, Reading(op, clock))
    ensures Do(s, max, op).1 == TableDo(t, op).1
  {
    match op
    case Look(key, now) => CompleteLook(s, t, key, clock, now);
    case Put(slot, later, lucky) =>
      CompletePut(s, max, t, slot, clock);
      SetDistinct(s, max, slot);
      CompleteCleaned(Set(s, max, slot), t[slot.key := slot], clock, later, lucky);
    case Remove(key) =>
    case Empty =>
  }

  /** The map never outgrows the bound in this run, and the clock never goes back. */
  predicate Fits<V>(t: Table<V>, ops: seq<Op<V>>, max: int, clock: real)
    decreases |ops|
  {
    ops != [] ==>
      && |TableDo(t, ops[0]).0| <= max && clock <= Reading(ops[0], clock)
      && Fits(TableDo(t, ops[0]).0, ops[1..], max, Reading(ops[0], clock))
  }

  /** In every run, for every size, clock and cleanup, each hit is the hit of the plain map: nothing
      removed, overwritten or expired is ever answered. */
  lemma {:induction false} HitsAreTrue<V>(s: Items<V>, max: int, t: Table<V>, ops: seq<Op<V>>)
    requires Backed(s, t)
    ensures var rs, rt := DoAll(s, max, ops).1, TableAll(t, ops).1;
      |rs| == |rt| == |ops| && forall k :: 0 <= k < |ops| && rs[k].Some? ==> rt[k] == rs[k]
    decreases |ops|
  {
    if ops != [] {
      BackedStep(s, max, t, ops[0]);
      HitsAreTrue(Do(s, max, ops[0]).0, max, TableDo(t, ops[0]).0, ops[1..]);
    }
  }

  /** And as long as the bound is not exceeded and the clock is monotone, the cache is the plain map,
      whatever its cleanups took. */
  lemma {:induction false} ExactWhileItFits<V>(s: Items<V>, max: int, t: Table<V>, ops: seq<Op<V>>, clock: real)
    requires Backed(s, t) && Complete(s, t, clock) && Fits(t, ops, max, clock)
    ensures DoAll(s, max, ops).1 == TableAll(t, ops).1
    decreases |ops|
  {
    if ops != [] {
      BackedStep(s, max, t, ops[0]);
      CompleteStep(s, max, t, ops[0], clock);
      ExactWhileItFits(Do(s, max, ops[0]).0, max, TableDo(t, ops[0]).0, ops[1..], Reading(ops[0], clock));
    }
  }
}
