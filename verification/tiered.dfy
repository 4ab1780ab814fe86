/** The two-level cache: the local LRU in front of a Redis cache. */
module Tiered {
  import opened Wrappers
  import Lru

  /** A cached value; `Null` is a cached None, which a raw read tells apart from a miss. */
  datatype Datum = Null | Just(payload: string)

  /** What the local level holds for a key: a value, or the marker that the key was missing. */
  datatype Local = Hit(datum: Datum) | Negative

  type Contents = map<string, Datum>
  type Locals = Lru.Items<Local>

  function AsLocal(raw: Option<Datum>): Local {
    if raw.Some? then Hit(raw.value) else Negative
  }

  function AsRaw(local: Local): Option<Datum> {
    if local.Hit? then Some(local.datum) else None
  }

  /** What a caller is given: None for a miss, as for a cached None. */
  function DatumOf(raw: Option<Datum>): Datum {
    if raw.Some? then raw.value else Null
  }

  function Raw(l2: Contents, key: string): Option<Datum> {
    if key in l2 then Some(l2[key]) else None
  }

  /** What the Redis cache alone answers. */
  function Answer(l2: Contents, key: string): Datum {
    if key in l2 then l2[key] else Null
  }

  function Answers(l2: Contents, keys: seq<string>): map<string, Datum> {
    map k | k in keys :: Answer(l2, k)
  }

  lemma AnswersOneMore(l2: Contents, keys: seq<string>, i: nat)
    requires i < |keys|
    ensures Answers(l2, keys[..i + 1]) == Answers(l2, keys[..i])[keys[i] := Answer(l2, keys[i])]
  {
  }

  function Keep(l2: Contents, matching: string -> bool): Contents {
    map k | k in l2 && !matching(k) :: l2[k]
  }

  /** The Redis cache as the tiered cache uses it: no key expires and every call succeeds. */
  class Cache {
    var data: Contents

    constructor ()
      ensures data == map[]
    {
      data := map[];
    }

    method GetRaw(key: string) returns (r: Option<Datum>)
      ensures r == Raw(data, key)
    {
      r := if key in data then Some(data[key]) else None;
    }

    method Set(key: string, datum: Datum)
      modifies this
      ensures data == old(data)[key := datum]
    {
      data := data[key := datum];
    }

    method Delete(key: string)
      modifies this
      ensures data == old(data) - {key}
    {
      data := data - {key};
    }

    /** One answer per distinct key. */
    method GetManyRaw(keys: seq<string>) returns (r: map<string, Option<Datum>>)
      ensures r == map k | k in keys :: Raw(data, k)
    {
      r := map[];
      for i := 0 to |keys|
        invariant r == map k | k in keys[..i] :: Raw(data, k)
      {
        var raw := GetRaw(keys[i]);
        assert keys[..i + 1] == keys[..i] + [keys[i]];
        r := r[keys[i] := raw];
      }
      assert keys[..|keys|] == keys;
    }

    method SetMany(pairs: seq<(string, Datum)>)
      modifies this
      ensures data == Written(old(data), pairs)
    {
      var i := 0;
      while i < |pairs|
        invariant 0 <= i <= |pairs|
        invariant Written(data, pairs[i..]) == Written(old(data), pairs)
      {
        data := data[pairs[i].0 := pairs[i].1];
        assert pairs[i..][1..] == pairs[i + 1..];
        i := i + 1;
      }
    }

    /** `scanned` is what SCAN yields, which may repeat a key; every key yielded is counted. */
    method DeletePattern(matching: string -> bool, scanned: seq<string>, batchSize: int) returns (count: nat)
      requires Scan(data, matching, scanned)
      modifies this
      ensures data == Keep(old(data), matching)
      ensures count == |scanned|
    {
      count := 0;
      var batch: seq<string> := [];
      for i := 0 to |scanned|
        invariant |batch| <= i && count == i - |batch| && batch == scanned[count..i]
        invariant data == map k | k in old(data) && k !in scanned[..count] :: old(data)[k]
      {
        batch := batch + [scanned[i]];
        if |batch| >= batchSize {
          assert scanned[..i + 1] == scanned[..count] + batch;
          Flush(batch);
          count := count + |batch|;
          batch := [];
        }
      }
      assert scanned == scanned[..count] + batch;
      if batch != [] {
        Flush(batch);
        count := count + |batch|;
      }
      assert scanned[..count] == scanned;
    }

    method Flush(batch: seq<string>)
      modifies this
      ensures data == map k | k in old(data) && k !in batch :: old(data)[k]
    {
      data := map k | k in data && k !in batch :: data[k];
    }
  }

  /** What a SCAN for a pattern yields: stored matching keys, each at least once. */
  predicate Scan(l2: Contents, matching: string -> bool, scanned: seq<string>) {
    && (forall k :: k in scanned ==> k in l2 && matching(k))
    && (forall k :: k in l2 && matching(k) ==> k in scanned)
  }

  predicate Unrepeated(keys: seq<string>) {
    forall i, j :: 0 <= i < j < |keys| ==> keys[i] != keys[j]
  }

  /** The count is the number of keys deleted exactly when SCAN repeats none. */
  lemma CountExact(l2: Contents, matching: string -> bool, scanned: seq<string>)
    requires Scan(l2, matching, scanned)
    ensures |scanned| >= |l2| - |Keep(l2, matching)|
    ensures |scanned| == |l2| - |Keep(l2, matching)| <==> Unrepeated(scanned)
  {
    var gone := set k | k in scanned;
    assert l2.Keys == Keep(l2, matching).Keys + gone;
    DistinctCount(scanned);
  }

  lemma {:induction false} DistinctCount(keys: seq<string>)
    ensures var s := set k | k in keys;
      |s| <= |keys| && (|s| == |keys| <==> Unrepeated(keys))
  {
    if keys != [] {
      var n := |keys| - 1;
      var init, last := keys[..n], keys[n];
      var s := set k | k in init;
      DistinctCount(init);
      assert (set k | k in keys) == s + {last};
      assert Unrepeated(keys) ==> Unrepeated(init) && last !in s;
      assert Unrepeated(init) && last !in init ==> Unrepeated(keys);
    }
  }

  function Written(l2: Contents, pairs: seq<(string, Datum)>): Contents
    decreases |pairs|
  {
    if pairs == [] then l2 else Written(l2[pairs[0].0 := pairs[0].1], pairs[1..])
  }

  lemma {:induction false} WrittenRaw(l2: Contents, pairs: seq<(string, Datum)>)
    requires forall i, j :: 0 <= i < j < |pairs| ==> pairs[i].0 != pairs[j].0
    ensures forall k :: (forall j :: 0 <= j < |pairs| ==> pairs[j].0 != k) ==> Raw(Written(l2, pairs), k) == Raw(l2, k)
    ensures forall j :: 0 <= j < |pairs| ==> Raw(Written(l2, pairs), pairs[j].0) == Some(pairs[j].1)
    decreases |pairs|
  {
    if pairs != [] {
      var l := l2[pairs[0].0 := pairs[0].1];
      WrittenRaw(l, pairs[1..]);
      assert forall j :: 1 <= j < |pairs| ==> pairs[j] == pairs[1..][j - 1];
    }
  }

  lemma {:induction false} WrittenSnoc(l2: Contents, pairs: seq<(string, Datum)>, last: (string, Datum))
    ensures Written(l2, pairs + [last]) == Written(l2, pairs)[last.0 := last.1]
    decreases |pairs|
  {
    if pairs == [] {
      assert [] + [last] == [last] && [last][1..] == [];
    } else {
      assert (pairs + [last])[1..] == pairs[1..] + [last];
      WrittenSnoc(l2[pairs[0].0 := pairs[0].1], pairs[1..], last);
    }
  }

  // What a call does to the local level: lookups and stores, in the order of time.

  datatype LocalStep =
    | Looked(key: string, now: real, found: Option<Local>)
    | Stored(key: string, local: Local, ttl: real, at: real, later: real, lucky: bool)

  function Take(l1: Locals, max: int, step: LocalStep): Locals {
    match step
    case Looked(key, now, _) => Lru.Get(l1, key, now).0
    case Stored(key, local, ttl, at, later, lucky) =>
      Lru.Inserted(l1, max, Lru.NewSlot(key, local, at, ttl), later, lucky)
  }

  function TakeAll(l1: Locals, max: int, steps: seq<LocalStep>): Locals
    decreases |steps|
  {
    if steps == [] then l1 else TakeAll(Take(l1, max, steps[0]), max, steps[1..])
  }

  function Begins(step: LocalStep): real { if step.Looked? then step.now else step.at }
  function Ends(step: LocalStep): real { if step.Looked? then step.now else step.later }

  /** The steps happen one after the other between the two times, and every lookup finds what it says. */
  predicate Episode(l1: Locals, max: int, steps: seq<LocalStep>, t0: real, t1: real)
    decreases |steps|
  {
    if steps == [] then t0 <= t1
    else
      var step := steps[0];
      && t0 <= Begins(step) <= Ends(step)
      && (step.Looked? ==> Lru.Get(l1, step.key, step.now).1 == step.found)
      && Episode(Take(l1, max, step), max, steps[1..], Ends(step), t1)
  }

  /** The local level went from `before` to `after` by these steps between these times. */
  predicate Went(before: Locals, after: Locals, max: int, steps: seq<LocalStep>, t0: real, t1: real) {
    Episode(before, max, steps, t0, t1) && after == TakeAll(before, max, steps)
  }

  lemma {:induction false} WentOn(before: Locals, mid: Locals, after: Locals, max: int,
                                  first: seq<LocalStep>, second: seq<LocalStep>, t0: real, t1: real, t2: real)
    requires Went(before, mid, max, first, t0, t1) && Went(mid, after, max, second, t1, t2)
    ensures Went(before, after, max, first + second, t0, t2)
    decreases |first|
  {
    if first == [] {
      assert first + second == second;
      if second != [] {
        assert t0 <= Begins(second[0]);
      }
    } else {
      assert (first + second)[1..] == first[1..] + second;
      WentOn(Take(before, max, first[0]), mid, after, max, first[1..], second, Ends(first[0]), t1, t2);
    }
  }

  lemma WentOne(before: Locals, max: int, step: LocalStep, t0: real, t1: real)
    requires t0 <= Begins(step) <= Ends(step) <= t1
    requires step.Looked? ==> Lru.Get(before, step.key, step.now).1 == step.found
    ensures Went(before, Take(before, max, step), max, [step], t0, t1)
  {
    assert [step][1..] == [];
  }

  lemma TakeFew(l1: Locals, max: int, steps: seq<LocalStep>)
    ensures |steps| == 1 ==> TakeAll(l1, max, steps) == Take(l1, max, steps[0])
    ensures |steps| == 2 ==> TakeAll(l1, max, steps) == Take(Take(l1, max, steps[0]), max, steps[1])
  {
    if |steps| == 1 {
      assert steps[1..] == [];
      assert TakeAll(Take(l1, max, steps[0]), max, []) == Take(l1, max, steps[0]);
    } else if |steps| == 2 {
      var mid := Take(l1, max, steps[0]);
      assert steps[1..] == [steps[1]] && steps[1..][1..] == [];
      assert TakeAll(Take(mid, max, steps[1]), max, []) == Take(mid, max, steps[1]);
    }
  }

  /** A store of what Redis answered: a value with the local lifetime, its absence with the negative one. */
  predicate Refills(step: LocalStep, key: string, raw: Option<Datum>, ttl: real, negativeTtl: real) {
    && step.Stored? && step.key == key
    && match raw
       case Some(datum) => step.local == Hit(datum) && step.ttl == ttl
       case None => step.local == Negative && step.ttl == negativeTtl
  }

  /** A read: a live local entry answers, the marker with None; otherwise Redis does, and is stored. */
  predicate Reads(steps: seq<LocalStep>, key: string, raw: Option<Datum>, r: Datum, ttl: real, negativeTtl: real) {
    && |steps| >= 1 && steps[0].Looked? && steps[0].key == key
    && match steps[0].found
       case Some(Hit(datum)) => |steps| == 1 && r == datum
       case Some(Negative) => |steps| == 1 && r == Null
       case None => |steps| == 2 && r == DatumOf(raw) && Refills(steps[1], key, raw, ttl, negativeTtl)
  }

  /** `remember`: a live local value answers; otherwise, also under a live marker, Redis or the factory
      does, and the answer is stored. */
  predicate Remembers(steps: seq<LocalStep>, key: string, raw: Option<Datum>, made: Datum, r: Datum,
                      called: bool, ttl: real) {
    && |steps| >= 1 && steps[0].Looked? && steps[0].key == key
    && match steps[0].found
       case Some(Hit(datum)) => |steps| == 1 && r == datum && !called
       case _ =>
         && |steps| == 2 && called == raw.None? && r == (if called then made else raw.value)
         && Refills(steps[1], key, Some(r), ttl, ttl)
  }

  /** The keys whose lookup found nothing. */
  function Missing(looks: seq<LocalStep>): seq<string> {
    if looks == [] then []
    else
      var n := |looks| - 1;
      Missing(looks[..n]) + if looks[n].Looked? && looks[n].found.None? then [looks[n].key] else []
  }

  /** Each key once, where it first occurs: the order of a dictionary filled from the list. */
  function Once(keys: seq<string>): (r: seq<string>)
    ensures forall k :: k in r <==> k in keys
  {
    if keys == [] then []
    else
      var n := |keys| - 1;
      Once(keys[..n]) + if keys[n] in keys[..n] then [] else [keys[n]]
  }

  /** Without repetitions, and what comes later in the list comes later here. */
  lemma {:induction false} OnceInOrder(keys: seq<string>, n: nat)
    requires n <= |keys|
    ensures Unrepeated(Once(keys)) && Once(keys[..n]) <= Once(keys)
    decreases |keys|
  {
    if keys != [] {
      var m := |keys| - 1;
      OnceInOrder(keys[..m], if n <= m then n else m);
      if n <= m {
        assert keys[..m][..n] == keys[..n];
      } else {
        assert keys[..n] == keys;
      }
      var init := Once(keys[..m]);
      assert forall k :: 0 <= k < |init| ==> init[k] in init;
    }
  }

  /** One lookup for each key, in order. */
  predicate LooksFor(looks: seq<LocalStep>, keys: seq<string>) {
    |looks| == |keys| && forall i :: 0 <= i < |keys| ==> looks[i].Looked? && looks[i].key == keys[i]
  }

  /** One store for each key, in order, of what Redis holds for it. */
  predicate RefillsFor(fills: seq<LocalStep>, keys: seq<string>, l2: Contents, ttl: real, negativeTtl: real) {
    |fills| == |keys| && forall i :: 0 <= i < |keys| ==> Refills(fills[i], keys[i], Raw(l2, keys[i]), ttl, negativeTtl)
  }

  /** The answers found by lookups, one per key that was not missing. */
  predicate Finds(looks: seq<LocalStep>, keys: seq<string>, r: map<string, Datum>) {
    && (forall k :: k in r ==> FoundAs(looks, k, r[k]))
    && (forall k :: k in keys ==> k in r || k in Missing(looks))
    && (forall k :: k in Missing(looks) ==> k in keys)
  }

  predicate FoundAs(looks: seq<LocalStep>, key: string, datum: Datum) {
    exists i :: 0 <= i < |looks| && looks[i].Looked? && looks[i].key == key
             && looks[i].found.Some? && datum == DatumOf(AsRaw(looks[i].found.value))
  }

  lemma MissingOneMore(looks: seq<LocalStep>, step: LocalStep)
    requires step.Looked?
    ensures Missing(looks + [step]) == Missing(looks) + if step.found.None? then [step.key] else []
  {
    assert (looks + [step])[..|looks|] == looks;
  }

  lemma FoundStill(looks: seq<LocalStep>, step: LocalStep, key: string, datum: Datum)
    requires FoundAs(looks, key, datum)
    ensures FoundAs(looks + [step], key, datum)
  {
    var i :| 0 <= i < |looks| && looks[i].Looked? && looks[i].key == key
          && looks[i].found.Some? && datum == DatumOf(AsRaw(looks[i].found.value));
    assert (looks + [step])[i] == looks[i];
  }

  lemma FindsOneMore(looks: seq<LocalStep>, keys: seq<string>, r: map<string, Datum>, step: LocalStep)
    requires Finds(looks, keys, r) && step.Looked?
    ensures var r' := if step.found.None? then r else r[step.key := DatumOf(AsRaw(step.found.value))];
      Finds(looks + [step], keys + [step.key], r')
  {
    MissingOneMore(looks, step);
    var r' := if step.found.None? then r else r[step.key := DatumOf(AsRaw(step.found.value))];
    forall k | k in r' ensures FoundAs(looks + [step], k, r'[k]) {
      if step.found.Some? && k == step.key {
        assert (looks + [step])[|looks|] == step;
      } else {
        FoundStill(looks, step, k, r[k]);
      }
    }
  }

  /** The monotone clock of the process. */
  class Clock {
    var now: real

    constructor ()
    {
    }

    method Read() returns (t: real)
      modifies this
      ensures old(now) <= now && t == now
    {
      var dt: real := *;
      if dt > 0.0 {
        now := now + dt;
      }
      t := now;
    }
  }

  class TieredCache {
    const l1: Lru.LRUCache<Local>
    const l2: Cache
    const negativeTtl: real
    const clock: Clock

    constructor (cache: Cache, localMaxsize: nat, localTtl: real, negativeTtl: real, clock: Clock)
      ensures l2 == cache && fresh(l1) && l1.maxsize == localMaxsize && l1.ttl == localTtl && l1.data == []
      ensures this.negativeTtl == negativeTtl && this.clock == clock
      ensures Shaped()
    {
      l1 := new Lru.LRUCache(localMaxsize, localTtl);
      l2 := cache;
      this.negativeTtl, this.clock := negativeTtl, clock;
    }

    ghost predicate Shaped()
      reads this, l1
    {
      l1.maxsize >= 0 && Lru.Distinct(l1.data)
    }

    method Look(key: string) returns (r: Option<Local>, ghost step: LocalStep)
      requires Shaped()
      modifies l1, clock
      ensures Shaped() && step.Looked? && step.key == key && step.found == r
      ensures Went(old(l1.data), l1.data, l1.maxsize, [step], old(clock.now), clock.now)
    {
      ghost var before := l1.data;
      var now := clock.Read();
      r := l1.Lookup(key, now);
      step := Looked(key, now, r);
      WentOne(before, l1.maxsize, step, old(clock.now), clock.now);
      ShapeKept(before, l1.maxsize, step);
    }

    /** `self._l1.set(key, value, ttl=ttl)`: the clock is read for the deadline, and again by the cleanup. */
    method Fill(key: string, local: Local, ttl: Option<real>) returns (ghost step: LocalStep)
      requires Shaped()
      modifies l1, clock
      ensures Shaped() && step.Stored? && step.key == key && step.local == local
      ensures step.ttl == if ttl.Some? then ttl.value else l1.ttl
      ensures Went(old(l1.data), l1.data, l1.maxsize, [step], old(clock.now), clock.now)
    {
      ghost var before := l1.data;
      var now := clock.Read();
      var later := clock.Read();
      var lucky: bool := *;
      var _ := l1.Insert(key, local, ttl, now, later, lucky);
      step := Stored(key, local, l1.Life(ttl), now, later, lucky);
      WentOne(before, l1.maxsize, step, old(clock.now), clock.now);
    }

    method Get(key: string) returns (r: Datum, ghost steps: seq<LocalStep>)
      requires Shaped()
      modifies l1, clock
      ensures Shaped()
      ensures Went(old(l1.data), l1.data, l1.maxsize, steps, old(clock.now), clock.now)
      ensures Reads(steps, key, Raw(l2.data, key), r, l1.ttl, negativeTtl)
    {
      var local, look := Look(key);
      ghost var mid, t := l1.data, clock.now;
      steps := [look];
      match local {
        case Some(Negative) => r := Null;
        case Some(Hit(datum)) => r := datum;
        case None =>
          var raw := l2.GetRaw(key);
          ghost var fill := Refill(key, raw);
          WentOn(old(l1.data), mid, l1.data, l1.maxsize, [look], [fill], old(clock.now), t, clock.now);
          steps := [look] + [fill];
          r := if raw.Some? then raw.value else Null;
      }
    }

    /** What a read that missed the local level stores there. */
    method Refill(key: string, raw: Option<Datum>) returns (ghost step: LocalStep)
      requires Shaped()
      modifies l1, clock
      ensures Shaped()
      ensures Refills(step, key, raw, l1.ttl, negativeTtl)
      ensures Went(old(l1.data), l1.data, l1.maxsize, [step], old(clock.now), clock.now)
    {
      if raw.Some? {
        step := Fill(key, Hit(raw.value), None);
      } else {
        step := Fill(key, Negative, Some(negativeTtl));
      }
    }

    method Set(key: string, datum: Datum) returns (ghost step: LocalStep)
      requires Shaped()
      modifies l1, l2, clock
      ensures Shaped()
      ensures l2.data == old(l2.data)[key := datum]
      ensures Refills(step, key, Some(datum), l1.ttl, negativeTtl)
      ensures Went(old(l1.data), l1.data, l1.maxsize, [step], old(clock.now), clock.now)
    {
      l2.Set(key, datum);
      step := Fill(key, Hit(datum), None);
    }

    method Delete(key: string)
      requires Shaped()
      modifies l1, l2
      ensures Shaped()
      ensures l2.data == old(l2.data) - {key}
      ensures l1.data == Lru.Without(old(l1.data), key)
    {
      l1.Delete(key);
      l2.Delete(key);
    }

    /** `made` is what the factory would return; `called` tells whether it was asked. */
    method Remember(key: string, made: Datum) returns (r: Datum, called: bool, ghost steps: seq<LocalStep>)
      requires Shaped()
      modifies l1, l2, clock
      ensures Shaped()
      ensures Remembers(steps, key, Raw(old(l2.data), key), made, r, called, l1.ttl)
      ensures l2.data == if called then old(l2.data)[key := made] else old(l2.data)
      ensures Went(old(l1.data), l1.data, l1.maxsize, steps, old(clock.now), clock.now)
    {
      var local, look := Look(key);
      ghost var mid, t := l1.data, clock.now;
      steps, called := [look], false;
      match local {
        case Some(Hit(datum)) => r := datum;
        case _ =>
          ghost var fill;
          r, called, fill := Load(key, made);
          WentOn(old(l1.data), mid, l1.data, l1.maxsize, [look], [fill], old(clock.now), t, clock.now);
          steps := [look] + [fill];
      }
    }

    /** The part of `remember` after the local level had no value. */
    method Load(key: string, made: Datum) returns (r: Datum, called: bool, ghost step: LocalStep)
      requires Shaped()
      modifies l1, l2, clock
      ensures Shaped()
      ensures called == Raw(old(l2.data), key).None? && r == (if called then made else Raw(old(l2.data), key).value)
      ensures l2.data == if called then old(l2.data)[key := made] else old(l2.data)
      ensures Refills(step, key, Some(r), l1.ttl, l1.ttl)
      ensures Went(old(l1.data), l1.data, l1.maxsize, [step], old(clock.now), clock.now)
    {
      var raw := l2.GetRaw(key);
      called := raw.None?;
      r := if called then made else raw.value;
      if called {
        l2.Set(key, made);
      }
      step := Fill(key, Hit(r), None);
    }

    /** Keys with a live local entry are answered from it; the others are asked of Redis once each and
        stored in the order of their first occurrence. */
    method GetMany(keys: seq<string>)
      returns (r: map<string, Datum>, ghost looks: seq<LocalStep>, ghost fills: seq<LocalStep>)
      requires Shaped()
      modifies l1, clock
      ensures Shaped()
      ensures Went(old(l1.data), l1.data, l1.maxsize, looks + fills, old(clock.now), clock.now)
      ensures LooksFor(looks, keys)
      ensures RefillsFor(fills, Once(Missing(looks)), l2.data, l1.ttl, negativeTtl)
      ensures forall k :: k in r <==> k in keys
      ensures forall k :: k in Missing(looks) ==> k in r && r[k] == Answer(l2.data, k)
      ensures forall k :: k in r && k !in Missing(looks) ==> FoundAs(looks, k, r[k])
    {
      var missing;
      r, missing, looks := LookMany(keys);
      ghost var mid, t := l1.data, clock.now;
      fills := [];
      if missing != [] {
        var more;
        more, fills := RefillMany(missing);
        r := r + more;
      }
      WentOn(old(l1.data), mid, l1.data, l1.maxsize, looks, fills, old(clock.now), t, clock.now);
    }

    method LookMany(keys: seq<string>)
      returns (r: map<string, Datum>, missing: seq<string>, ghost looks: seq<LocalStep>)
      requires Shaped()
      modifies l1, clock
      ensures Shaped()
      ensures Went(old(l1.data), l1.data, l1.maxsize, looks, old(clock.now), clock.now)
      ensures LooksFor(looks, keys) && missing == Missing(looks) && Finds(looks, keys, r)
      ensures forall k :: k in r ==> k in keys
    {
      r, missing, looks := map[], [], [];
      for i := 0 to |keys|
        invariant Shaped()
        invariant Went(old(l1.data), l1.data, l1.maxsize, looks, old(clock.now), clock.now)
        invariant LooksFor(looks, keys[..i]) && missing == Missing(looks) && Finds(looks, keys[..i], r)
        invariant forall k :: k in r ==> k in keys
      {
        ghost var mid, t := l1.data, clock.now;
        var local, look := Look(keys[i]);
        Prefix(keys, i);
        WentOn(old(l1.data), mid, l1.data, l1.maxsize, looks, [look], old(clock.now), t, clock.now);
        MissingOneMore(looks, look);
        FindsOneMore(looks, keys[..i], r, look);
        looks := looks + [look];
        match local {
          case Some(Negative) => r := r[keys[i] := Null];
          case Some(Hit(datum)) => r := r[keys[i] := datum];
          case None => missing := missing + [keys[i]];
        }
      }
      assert keys[..|keys|] == keys;
    }

    method RefillMany(missing: seq<string>) returns (r: map<string, Datum>, ghost fills: seq<LocalStep>)
      requires Shaped()
      modifies l1, clock
      ensures Shaped()
      ensures Went(old(l1.data), l1.data, l1.maxsize, fills, old(clock.now), clock.now)
      ensures r == Answers(l2.data, missing)
      ensures RefillsFor(fills, Once(missing), l2.data, l1.ttl, negativeTtl)
    {
      r, fills := map[], [];
      var found := l2.GetManyRaw(missing);
      var order := Once(missing);
      for i := 0 to |order|
        invariant Shaped()
        invariant Went(old(l1.data), l1.data, l1.maxsize, fills, old(clock.now), clock.now)
        invariant r == Answers(l2.data, order[..i])
        invariant RefillsFor(fills, order[..i], l2.data, l1.ttl, negativeTtl)
      {
        ghost var mid, t := l1.data, clock.now;
        ghost var fill := Refill(order[i], found[order[i]]);
        Prefix(order, i);
        AnswersOneMore(l2.data, order, i);
        WentOn(old(l1.data), mid, l1.data, l1.maxsize, fills, [fill], old(clock.now), t, clock.now);
        fills := fills + [fill];
        r := r[order[i] := if found[order[i]].Some? then found[order[i]].value else Null];
      }
      assert order[..|order|] == order;
    }

    method SetMany(pairs: seq<(string, Datum)>) returns (ghost fills: seq<LocalStep>)
      requires Shaped()
      modifies l1, l2, clock
      ensures Shaped()
      ensures l2.data == Written(old(l2.data), pairs)
      ensures Went(old(l1.data), l1.data, l1.maxsize, fills, old(clock.now), clock.now)
      ensures StoresFor(fills, pairs, l1.ttl)
    {
      l2.SetMany(pairs);
      fills := [];
      for i := 0 to |pairs|
        invariant Shaped()
        invariant Went(old(l1.data), l1.data, l1.maxsize, fills, old(clock.now), clock.now)
        invariant StoresFor(fills, pairs[..i], l1.ttl) && l2.data == Written(old(l2.data), pairs)
      {
        ghost var mid, t := l1.data, clock.now;
        ghost var fill := Fill(pairs[i].0, Hit(pairs[i].1), None);
        Prefix(pairs, i);
        WentOn(old(l1.data), mid, l1.data, l1.maxsize, fills, [fill], old(clock.now), t, clock.now);
        fills := fills + [fill];
      }
      assert pairs[..|pairs|] == pairs;
    }

    method DeletePattern(matching: string -> bool, scanned: seq<string>, batchSize: int) returns (count: nat)
      requires Shaped() && Scan(l2.data, matching, scanned)
      modifies l1, l2
      ensures Shaped()
      ensures l2.data == Keep(old(l2.data), matching)
      ensures count == |scanned|
      ensures l1.data == []
    {
      l1.Clear();
      count := l2.DeletePattern(matching, scanned, batchSize);
    }
  }

  /** One store for each pair, in order, with the local lifetime. */
  predicate StoresFor(fills: seq<LocalStep>, pairs: seq<(string, Datum)>, ttl: real) {
    |fills| == |pairs| && forall i :: 0 <= i < |pairs| ==> Refills(fills[i], pairs[i].0, Some(pairs[i].1), ttl, ttl)
  }

  lemma ShapeKept(l1: Locals, max: int, step: LocalStep)
    requires Lru.Distinct(l1)
    ensures Lru.Distinct(Take(l1, max, step))
  {
    match step
    case Looked(key, now, _) =>
      if Lru.Find(l1, key).Some? {
        Lru.AppendDistinct(l1, Lru.Find(l1, key).value);
      }
    case Stored(key, local, ttl, at, later, lucky) =>
      Lru.InsertedHolds(l1, max, Lru.NewSlot(key, local, at, ttl), later, lucky);
  }

  lemma Prefix<T>(s: seq<T>, i: nat)
    requires i < |s|
    ensures s[..i + 1] == s[..i] + [s[i]]
  {
  }
}
