/** The two-level cache of a sole user against the Redis cache alone. */
module Transparency {
  import opened Wrappers
  import Lru
  import opened Tiered

  /** The local level never contradicts the Redis cache. */
  predicate Coherent(l1: Locals, l2: Contents) {
    CoherentBut(l1, l2, {})
  }

  /** The same but for these keys. */
  predicate CoherentBut(l1: Locals, l2: Contents, stale: set<string>) {
    forall slot :: slot in l1 ==> AsRaw(slot.value) == Raw(l2, slot.key) || slot.key in stale
  }

  /** What a step stores is what Redis holds. */
  predicate Agrees(step: LocalStep, l2: Contents) {
    step.Stored? ==> AsRaw(step.local) == Raw(l2, step.key)
  }

  function Renewed(step: LocalStep): set<string> {
    if step.Stored? then {step.key} else {}
  }

  lemma StepCoherent(l1: Locals, l2: Contents, max: int, step: LocalStep, stale: set<string>)
    requires Lru.Distinct(l1) && CoherentBut(l1, l2, stale) && Agrees(step, l2)
    ensures Lru.Distinct(Take(l1, max, step)) && CoherentBut(Take(l1, max, step), l2, stale - Renewed(step))
  {
    ShapeKept(l1, max, step);
    match step
    case Looked(key, now, _) =>
    case Stored(key, local, ttl, at, later, lucky) =>
      Lru.InsertedHolds(l1, max, Lru.NewSlot(key, local, at, ttl), later, lucky);
  }

  function AllRenewed(steps: seq<LocalStep>): set<string> {
    if steps == [] then {} else Renewed(steps[0]) + AllRenewed(steps[1..])
  }

  lemma {:induction false} EpisodeCoherent(before: Locals, after: Locals, l2: Contents, max: int,
                                           steps: seq<LocalStep>, t0: real, t1: real, stale: set<string>)
    requires Lru.Distinct(before) && CoherentBut(before, l2, stale) && Went(before, after, max, steps, t0, t1)
    requires forall i :: 0 <= i < |steps| ==> Agrees(steps[i], l2)
    ensures CoherentBut(after, l2, stale - AllRenewed(steps))
    ensures stale == {} ==> forall i :: 0 <= i < |steps| && steps[i].Looked? && steps[i].found.Some? ==>
      AsRaw(steps[i].found.value) == Raw(l2, steps[i].key)
    decreases |steps|
  {
    if steps == [] {
      assert stale - {} == stale;
    } else {
      var step := steps[0];
      var mid := Take(before, max, step);
      StepCoherent(before, l2, max, step, stale);
      EpisodeCoherent(mid, after, l2, max, steps[1..], Ends(step), t1, stale - Renewed(step));
      assert stale - Renewed(step) - AllRenewed(steps[1..]) == stale - AllRenewed(steps);
      assert forall i :: 1 <= i < |steps| ==> steps[i] == steps[1..][i - 1];
    }
  }

  datatype Op =
    | OpGet(key: string)
    | OpSet(key: string, datum: Datum)
    | OpDelete(key: string)
    | OpRemember(key: string, made: Datum)
    | OpGetMany(keys: seq<string>)
    | OpSetMany(pairs: seq<(string, Datum)>)
    | OpDeletePattern(matching: string -> bool, scanned: seq<string>, batchSize: int)

  datatype Out =
    | Nothing
    | One(datum: Datum)
    | Made(datum: Datum, called: bool)
    | Many(data: map<string, Datum>)
    | Count(n: int)

  /** The same operation on the Redis cache alone. */
  function Plain(l2: Contents, op: Op): (Contents, Out) {
    match op
    case OpGet(key) => (l2, One(Answer(l2, key)))
    case OpSet(key, datum) => (l2[key := datum], Nothing)
    case OpDelete(key) => (l2 - {key}, Nothing)
    case OpRemember(key, made) => if key in l2 then (l2, Made(l2[key], false)) else (l2[key := made], Made(made, true))
    case OpGetMany(keys) => (l2, Many(Answers(l2, keys)))
    case OpSetMany(pairs) => (Written(l2, pairs), Nothing)
    case OpDeletePattern(matching, scanned, _) => (Keep(l2, matching), Count(|scanned|))
  }

  function PlainRun(l2: Contents, ops: seq<Op>): (Contents, seq<Out>)
    decreases |ops|
  {
    if ops == [] then (l2, [])
    else
      var (l, out) := Plain(l2, ops[0]);
      var (l', outs) := PlainRun(l, ops[1..]);
      (l', [out] + outs)
  }

  /** A mapping is passed as its pairs, one per key, and a pattern with what SCAN yields for it. */
  predicate Allowed(l2: Contents, op: Op) {
    && (op.OpSetMany? ==> forall i, j :: 0 <= i < j < |op.pairs| ==> op.pairs[i].0 != op.pairs[j].0)
    && (op.OpDeletePattern? ==> Scan(l2, op.matching, op.scanned))
  }

  predicate AllAllowed(l2: Contents, ops: seq<Op>)
    decreases |ops|
  {
    ops == [] || (Allowed(l2, ops[0]) && AllAllowed(Plain(l2, ops[0]).0, ops[1..]))
  }

  ghost predicate Transparent(cache: TieredCache)
    reads cache, cache.l1, cache.l2
  {
    cache.Shaped() && Coherent(cache.l1.data, cache.l2.data)
  }

  method Perform(cache: TieredCache, op: Op) returns (out: Out)
    requires Transparent(cache) && Allowed(cache.l2.data, op)
    modifies cache.l1, cache.l2, cache.clock
    ensures Transparent(cache)
    ensures (cache.l2.data, out) == Plain(old(cache.l2.data), op)
  {
    ghost var before, t0, max := cache.l1.data, cache.clock.now, cache.l1.maxsize;
    out := Nothing;
    match op {
      case OpGet(key) =>
        var r, steps := cache.Get(key);
        EpisodeCoherent(before, cache.l1.data, cache.l2.data, max, steps, t0, cache.clock.now, {});
        out := One(r);
      case OpSet(key, datum) =>
        ghost var step := cache.Set(key, datum);
        SetCoherent(before, cache.l1.data, cache.l2.data, max, step, t0, cache.clock.now);
      case OpDelete(key) =>
        cache.Delete(key);
      case OpRemember(key, made) =>
        var r, called := PerformRemember(cache, key, made);
        out := Made(r, called);
      case OpGetMany(keys) =>
        var r := PerformGetMany(cache, keys);
        out := Many(r);
      case OpSetMany(pairs) =>
        PerformSetMany(cache, pairs);
      case OpDeletePattern(matching, scanned, batchSize) =>
        var n := cache.DeletePattern(matching, scanned, batchSize);
        out := Count(n);
    }
  }

  lemma SetCoherent(before: Locals, after: Locals, l2: Contents, max: int, step: LocalStep, t0: real, t1: real)
    requires Lru.Distinct(before) && step.Stored? && Agrees(step, l2) && CoherentBut(before, l2, {step.key})
    requires Went(before, after, max, [step], t0, t1)
    ensures Coherent(after, l2)
  {
    EpisodeCoherent(before, after, l2, max, [step], t0, t1, {step.key});
    assert AllRenewed([step]) == {step.key};
    assert {step.key} - {step.key} == {};
  }

  method PerformRemember(cache: TieredCache, key: string, made: Datum) returns (r: Datum, called: bool)
    requires Transparent(cache)
    modifies cache.l1, cache.l2, cache.clock
    ensures Transparent(cache)
    ensures called <==> key !in old(cache.l2.data)
    ensures cache.l2.data == if called then old(cache.l2.data)[key := made] else old(cache.l2.data)
    ensures r == Answer(cache.l2.data, key)
  {
    ghost var before, l2, t0, max := cache.l1.data, cache.l2.data, cache.clock.now, cache.l1.maxsize;
    ghost var steps;
    r, called, steps := cache.Remember(key, made);
    RememberCoherent(before, cache.l1.data, l2, max, steps, t0, cache.clock.now, key, made, r, called, cache.l1.ttl);
  }

  /** A live local value is what Redis holds, so the factory is asked exactly if Redis lacks the key. */
  lemma RememberCoherent(before: Locals, after: Locals, l2: Contents, max: int, steps: seq<LocalStep>,
                         t0: real, t1: real, key: string, made: Datum, r: Datum, called: bool, ttl: real)
    requires Lru.Distinct(before) && Coherent(before, l2) && Went(before, after, max, steps, t0, t1)
    requires Remembers(steps, key, Raw(l2, key), made, r, called, ttl)
    ensures called <==> key !in l2
    ensures var l2' := if called then l2[key := made] else l2;
      Coherent(after, l2') && r == Answer(l2', key)
  {
    var look := steps[0];
    var mid := Take(before, max, look);
    assert CoherentBut(before, l2, {});
    StepCoherent(before, l2, max, look, {});
    assert {} - Renewed(look) == {};
    if look.found.Some? {
      var slot := Lru.Find(before, key).value;
      assert slot in before && look.found == Some(slot.value);
    }
    if |steps| == 2 {
      assert steps == [look] + [steps[1]] && steps[1..] == [steps[1]];
      var l2' := if called then l2[key := made] else l2;
      assert CoherentBut(mid, l2', {key});
      SetCoherent(mid, after, l2', max, steps[1], Ends(look), t1);
    } else {
      TakeFew(before, max, steps);
      assert CoherentBut(mid, l2, {});
    }
  }

  method PerformGetMany(cache: TieredCache, keys: seq<string>) returns (r: map<string, Datum>)
    requires Transparent(cache)
    modifies cache.l1, cache.clock
    ensures Transparent(cache)
    ensures r == Answers(cache.l2.data, keys)
  {
    ghost var before, t0, max := cache.l1.data, cache.clock.now, cache.l1.maxsize;
    ghost var looks, fills;
    r, looks, fills := cache.GetMany(keys);
    ghost var l2, steps := cache.l2.data, looks + fills;
    forall i | 0 <= i < |steps| ensures Agrees(steps[i], l2) {
      assert steps[i] == if i < |looks| then looks[i] else fills[i - |looks|];
    }
    EpisodeCoherent(before, cache.l1.data, l2, max, steps, t0, cache.clock.now, {});
    forall k | k in r ensures r[k] == Answer(l2, k) {
      if k !in Missing(looks) {
        var i :| 0 <= i < |looks| && looks[i].Looked? && looks[i].key == k
              && looks[i].found.Some? && r[k] == DatumOf(AsRaw(looks[i].found.value));
        assert steps[i] == looks[i];
      }
    }
  }

  method PerformSetMany(cache: TieredCache, pairs: seq<(string, Datum)>)
    requires Transparent(cache)
    requires forall i, j :: 0 <= i < j < |pairs| ==> pairs[i].0 != pairs[j].0
    modifies cache.l1, cache.l2, cache.clock
    ensures Transparent(cache)
    ensures cache.l2.data == Written(old(cache.l2.data), pairs)
  {
    ghost var before, l2, t0, max := cache.l1.data, cache.l2.data, cache.clock.now, cache.l1.maxsize;
    ghost var fills := cache.SetMany(pairs);
    ghost var stale := set i | 0 <= i < |pairs| :: pairs[i].0;
    WrittenRaw(l2, pairs);
    assert CoherentBut(before, cache.l2.data, stale);
    EpisodeCoherent(before, cache.l1.data, cache.l2.data, max, fills, t0, cache.clock.now, stale);
    AllPairsRenewed(fills, pairs, cache.l1.ttl);
    assert stale - AllRenewed(fills) == {};
  }

  lemma {:induction false} AllPairsRenewed(fills: seq<LocalStep>, pairs: seq<(string, Datum)>, ttl: real)
    requires StoresFor(fills, pairs, ttl)
    ensures AllRenewed(fills) == set i | 0 <= i < |pairs| :: pairs[i].0
    decreases |fills|
  {
    if fills != [] {
      AllPairsRenewed(fills[1..], pairs[1..], ttl);
      var rest := pairs[1..];
      assert (set i | 0 <= i < |pairs| :: pairs[i].0) == {pairs[0].0} + set i | 0 <= i < |rest| :: rest[i].0;
    }
  }

  /** Transparency: for a sole user every sequence of operations returns exactly what the Redis cache
      alone would return, and leaves it as that would, for every size of the local level, all TTLs,
      clock readings, evictions and cleanups. */
  method Replay(cache: TieredCache, ops: seq<Op>) returns (outs: seq<Out>)
    requires Transparent(cache) && AllAllowed(cache.l2.data, ops)
    modifies cache.l1, cache.l2, cache.clock
    ensures Transparent(cache)
    ensures (cache.l2.data, outs) == PlainRun(old(cache.l2.data), ops)
  {
    outs := [];
    var left := ops;
    ghost var expected := PlainRun(cache.l2.data, ops);
    while left != []
      invariant Transparent(cache) && AllAllowed(cache.l2.data, left)
      invariant PlainRun(cache.l2.data, left).0 == expected.0
      invariant outs + PlainRun(cache.l2.data, left).1 == expected.1
      decreases |left|
    {
      ghost var rest := PlainRun(cache.l2.data, left).1;
      var out := Perform(cache, left[0]);
      assert rest == [out] + PlainRun(cache.l2.data, left[1..]).1;
      outs, left := outs + [out], left[1..];
    }
    assert outs + [] == outs;
  }
}
