/** Inclusion: the same operations at the same times on a smaller and a larger local cache. */
module LruInclusion {
  import opened Wrappers
  import opened Lru

  predicate Subsequence<V(==)>(a: seq<V>, b: seq<V>) {
    a == [] || (b != [] && (if a[0] == b[0] then Subsequence(a[1..], b[1..]) else Subsequence(a, b[1..])))
  }

  /** The smaller cache is a subsequence of the larger, which has at least as much room left. */
  predicate Included<V(==)>(small: Items<V>, large: Items<V>, n: int, m: int) {
    && Subsequence(small, large) && Distinct(small) && Distinct(large)
    && |small| <= n && |large| <= m && n - |small| <= m - |large|
  }

  lemma {:induction false} SubsequenceMember<V>(a: seq<V>, b: seq<V>, x: V)
    requires Subsequence(a, b) && x in a
    ensures x in b
    decreases |b|
  {
    if a[0] == b[0] {
      if x != a[0] {
        SubsequenceMember(a[1..], b[1..], x);
      }
    } else {
      SubsequenceMember(a, b[1..], x);
    }
  }

  lemma {:induction false} DropFirst<V>(a: seq<V>, b: seq<V>)
    requires Subsequence(a, b) && a != []
    ensures Subsequence(a[1..], b[1..]) && Subsequence(a[1..], b)
    decreases |b|, 1
  {
    if a[0] == b[0] {
      WeakenRight(a[1..], b);
    } else {
      DropFirst(a, b[1..]);
      WeakenRight(a[1..], b[1..]);
      WeakenRight(a[1..], b);
    }
  }

  lemma {:induction false} WeakenRight<V>(a: seq<V>, b: seq<V>)
    requires b != [] && Subsequence(a, b[1..])
    ensures Subsequence(a, b)
    decreases |b|, 0
  {
    if a != [] && a[0] == b[0] {
      DropFirst(a, b[1..]);
    }
  }

  lemma {:induction false} Append<V>(a: seq<V>, b: seq<V>, x: V)
    requires Subsequence(a, b)
    ensures Subsequence(a + [x], b + [x]) && Subsequence(a, b + [x])
    decreases |b|
  {
    if b == [] {
    } else if a == [] {
      Append([], b[1..], x);
      assert (b + [x])[1..] == b[1..] + [x];
      assert [x][1..] == [];
    } else if a[0] == b[0] {
      Append(a[1..], b[1..], x);
      assert (a + [x])[1..] == a[1..] + [x] && (b + [x])[1..] == b[1..] + [x];
    } else {
      Append(a, b[1..], x);
      assert (b + [x])[1..] == b[1..] + [x];
    }
  }

  lemma {:induction false} RemoveBoth<V>(a: Items<V>, b: Items<V>, key: string)
    requires Subsequence(a, b)
    ensures Subsequence(Without(a, key), Without(b, key))
    decreases |b|
  {
    if a != [] {
      if a[0] == b[0] {
        RemoveBoth(a[1..], b[1..], key);
        assert b[0].key != key ==>
          Without(b, key)[1..] == Without(b[1..], key) && Without(a, key)[1..] == Without(a[1..], key);
      } else {
        RemoveBoth(a, b[1..], key);
        if b[0].key != key {
          assert Without(b, key)[1..] == Without(b[1..], key);
          WeakenRight(Without(a, key), Without(b, key));
        }
      }
    }
  }

  lemma FindIncluded<V>(small: Items<V>, large: Items<V>, key: string)
    requires Subsequence(small, large) && Distinct(large) && Find(small, key).Some?
    ensures Find(large, key) == Find(small, key)
  {
    SubsequenceMember(small, large, Find(small, key).value);
    var x, y := Find(small, key).value, Find(large, key).value;
    var i :| 0 <= i < |large| && large[i] == x;
    var j :| 0 <= j < |large| && large[j] == y;
  }

  lemma GetIncluded<V>(small: Items<V>, large: Items<V>, n: int, m: int, key: string, now: real)
    requires Included(small, large, n, m)
    ensures var (s, r) := Get(small, key, now);
      var (l, r') := Get(large, key, now);
      Included(s, l, n, m) && (r.Some? ==> r' == r)
  {
    RemoveBoth(small, large, key);
    SizeWithout(small, key);
    SizeWithout(large, key);
    if Find(small, key).Some? {
      FindIncluded(small, large, key);
    }
    if Find(large, key).Some? {
      var slot := Find(large, key).value;
      Append(Without(small, key), Without(large, key), slot);
      AppendDistinct(small, slot);
      AppendDistinct(large, slot);
    }
  }

  /** One too many on either side is the oldest, on the larger side only together with the smaller. */
  lemma NewestIncluded<V>(a: Items<V>, b: Items<V>, n: int, m: int)
    requires Subsequence(a, b) && 0 <= n && 0 <= m && |a| <= n + 1 && |b| <= m + 1 && (|b| > m ==> |a| > n)
    ensures Subsequence(Newest(a, n), Newest(b, m))
  {
    if |a| > n {
      DropFirst(a, b);
      assert Newest(a, n) == a[1..];
    }
    if |b| > m {
      assert Newest(b, m) == b[1..];
    }
  }

  lemma SetIncluded<V>(small: Items<V>, large: Items<V>, n: int, m: int, slot: Slot<V>)
    requires Included(small, large, n, m) && 0 <= n <= m
    ensures Included(Set(small, n, slot), Set(large, m, slot), n, m)
  {
    SizeWithout(small, slot.key);
    SizeWithout(large, slot.key);
    if Find(small, slot.key).Some? {
      FindIncluded(small, large, slot.key);
    }
    assert Distinct(Set(small, n, slot)) && Distinct(Set(large, m, slot)) by {
      SetDistinct(small, n, slot);
      SetDistinct(large, m, slot);
    }
    assert Subsequence(Set(small, n, slot), Set(large, m, slot)) by {
      RemoveBoth(small, large, slot.key);
      Append(Without(small, slot.key), Without(large, slot.key), slot);
      NewestIncluded(Without(small, slot.key) + [slot], Without(large, slot.key) + [slot], n, m);
    }
  }

  // The cleanup.

  /** The keys a `set` cleans up once it has inserted and evicted. */
  function Dropped<V>(s: Items<V>, later: real, lucky: bool): set<string> {
    if |s| > 10 && lucky then Sampled(s, later) else {}
  }

  lemma CleanedDrops<V>(s: Items<V>, later: real, lucky: bool)
    ensures Cleaned(s, later, lucky) == WithoutAll(s, Dropped(s, later, lucky))
  {
    KeepAll(s);
  }

  lemma {:induction false} SizeWithoutAll<V>(s: Items<V>, keys: set<string>)
    requires Distinct(s) && keys <= Keys(s)
    ensures |WithoutAll(s, keys)| == |s| - |keys|
  {
    if s != [] {
      var head, rest := s[0], s[1..];
      assert Keys(s) == Keys(rest) + {head.key} && head.key !in Keys(rest);
      SizeWithoutAll(rest, keys - {head.key});
      SameWithoutAll(rest, keys, keys - {head.key});
    }
  }

  lemma {:induction false} SameWithoutAll<V>(s: Items<V>, a: set<string>, b: set<string>)
    requires forall x :: x in s ==> (x.key in a <==> x.key in b)
    ensures WithoutAll(s, a) == WithoutAll(s, b)
  {
    if s != [] {
      SameWithoutAll(s[1..], a, b);
    }
  }

  /** Nothing that stays in the smaller list goes from the larger one. */
  predicate Spares<V(==)>(small: Items<V>, a: set<string>, b: set<string>) {
    forall x :: x in small && x.key in b ==> x.key in a
  }

  lemma {:induction false} RemoveAllBoth<V>(small: Items<V>, large: Items<V>, a: set<string>, b: set<string>)
    requires Subsequence(small, large) && Spares(small, a, b)
    ensures Subsequence(WithoutAll(small, a), WithoutAll(large, b))
    decreases |large|
  {
    if small != [] {
      if small[0] == large[0] {
        RemoveAllBoth(small[1..], large[1..], a, b);
        RemoveAllHead(small, large, a, b);
      } else {
        RemoveAllBoth(small, large[1..], a, b);
        if large[0].key !in b {
          WeakenHead(WithoutAll(small, a), large[0], WithoutAll(large[1..], b));
        }
      }
    }
  }

  lemma RemoveAllHead<V>(small: Items<V>, large: Items<V>, a: set<string>, b: set<string>)
    requires small != [] && large != [] && small[0] == large[0] && Spares(small, a, b)
    requires Subsequence(WithoutAll(small[1..], a), WithoutAll(large[1..], b))
    ensures Subsequence(WithoutAll(small, a), WithoutAll(large, b))
  {
    var head, s, l := small[0], WithoutAll(small[1..], a), WithoutAll(large[1..], b);
    assert small[0] in small;
    if head.key !in a {
      assert ([head] + s)[1..] == s && ([head] + l)[1..] == l;
    } else if head.key !in b {
      WeakenHead(s, head, l);
    }
  }

  lemma WeakenHead<V>(a: seq<V>, head: V, b: seq<V>)
    requires Subsequence(a, b)
    ensures Subsequence(a, [head] + b)
  {
    assert ([head] + b)[1..] == b;
    WeakenRight(a, [head] + b);
  }

  /** After this cleanup of both the smaller list has lost what the larger one has lost of it, and the
      larger has not fallen behind in room. */
  predicate SweepKeeps<V(==)>(small: Items<V>, large: Items<V>, n: int, m: int, later: real, a: bool, b: bool) {
    var dropA, dropB := Dropped(small, later, a), Dropped(large, later, b);
    Spares(small, dropA, dropB) && n - |small| + |dropA| <= m - |large| + |dropB|
  }

  lemma DroppedKeys<V>(s: Items<V>, later: real, lucky: bool)
    ensures Dropped(s, later, lucky) <= Keys(s)
  {
  }

  /** A cleanup, with a coin of its own in each cache, keeps the inclusion exactly under that condition. */
  lemma SweepExact<V>(small: Items<V>, large: Items<V>, n: int, m: int, later: real, a: bool, b: bool)
    requires Included(small, large, n, m)
    ensures Included(Cleaned(small, later, a), Cleaned(large, later, b), n, m)
       <==> SweepKeeps(small, large, n, m, later, a, b)
  {
    var dropA, dropB := Dropped(small, later, a), Dropped(large, later, b);
    var small', large' := WithoutAll(small, dropA), WithoutAll(large, dropB);
    CleanedDrops(small, later, a);
    CleanedDrops(large, later, b);
    assert |small'| == |small| - |dropA| && |large'| == |large| - |dropB| by {
      DroppedKeys(small, later, a);
      DroppedKeys(large, later, b);
      SizeWithoutAll(small, dropA);
      SizeWithoutAll(large, dropB);
    }
    if Spares(small, dropA, dropB) {
      RemoveAllBoth(small, large, dropA, dropB);
    } else {
      var x :| x in small && x.key in dropB && x.key !in dropA;
      if Subsequence(small', large') {
        SubsequenceMember(small', large', x);
        assert false;
      }
    }
  }

  // Runs.

  /** The same operation at the same clock readings; each cache tosses its own coin. */
  predicate Alike<V(==)>(a: Op<V>, b: Op<V>) {
    a == b || (a.Put? && b.Put? && a.slot == b.slot && a.later == b.later)
  }

  /** In this step no cleanup breaks the inclusion. */
  predicate Gentle<V(==)>(small: Items<V>, large: Items<V>, n: int, m: int, a: Op<V>, b: Op<V>) {
    && Alike(a, b)
    && (a.Put? ==> SweepKeeps(Set(small, n, a.slot), Set(large, m, a.slot), n, m, a.later, a.lucky, b.lucky))
  }

  /** One step keeps the inclusion exactly when its cleanups do. */
  lemma StepExact<V>(small: Items<V>, large: Items<V>, n: int, m: int, a: Op<V>, b: Op<V>)
    requires Included(small, large, n, m) && 0 <= n <= m && Alike(a, b)
    ensures Included(Do(small, n, a).0, Do(large, m, b).0, n, m) <==> Gentle(small, large, n, m, a, b)
    ensures Do(small, n, a).1.Some? ==> Do(large, m, b).1 == Do(small, n, a).1
  {
    match a
    case Look(key, now) => GetIncluded(small, large, n, m, key, now);
    case Put(slot, later, lucky) =>
      SetIncluded(small, large, n, m, slot);
      SweepExact(Set(small, n, slot), Set(large, m, slot), n, m, later, lucky, b.lucky);
    case Remove(key) => RemoveIncluded(small, large, n, m, key);
    case Empty =>
  }

  lemma RemoveIncluded<V>(small: Items<V>, large: Items<V>, n: int, m: int, key: string)
    requires Included(small, large, n, m)
    ensures Included(Without(small, key), Without(large, key), n, m)
  {
    RemoveBoth(small, large, key);
    SizeWithout(small, key);
    SizeWithout(large, key);
    if Find(small, key).Some? {
      FindIncluded(small, large, key);
    }
  }

  predicate GentleRun<V(==)>(small: Items<V>, large: Items<V>, n: int, m: int, a: seq<Op<V>>, b: seq<Op<V>>)
    decreases |a|
  {
    && |a| == |b|
    && (a != [] ==>
      && Gentle(small, large, n, m, a[0], b[0])
      && GentleRun(Do(small, n, a[0]).0, Do(large, m, b[0]).0, n, m, a[1..], b[1..]))
  }

  /** Inclusion: in every run of the same operations at the same times in which no cleanup breaks it,
      the larger cache answers whenever the smaller one does, with the same value, and the smaller one
      stays a subsequence of it. */
  lemma {:induction false} InclusionRun<V>(small: Items<V>, large: Items<V>, n: int, m: int,
                                           a: seq<Op<V>>, b: seq<Op<V>>)
    requires 0 <= n <= m && Included(small, large, n, m) && GentleRun(small, large, n, m, a, b)
    ensures var (s, rs) := DoAll(small, n, a);
      var (l, rl) := DoAll(large, m, b);
      && Included(s, l, n, m)
      && |rs| == |rl| == |a|
      && forall k :: 0 <= k < |a| && rs[k].Some? ==> rl[k] == rs[k]
    decreases |a|
  {
    if a != [] {
      var (s1, r) := Do(small, n, a[0]);
      var (l1, r') := Do(large, m, b[0]);
      StepExact(small, large, n, m, a[0], b[0]);
      assert r.Some? ==> r' == r;
      InclusionRun(s1, l1, n, m, a[1..], b[1..]);
    }
  }

  /** No `set` takes the cleanup branch. */
  predicate NoCleanup<V>(ops: seq<Op<V>>) {
    forall k :: 0 <= k < |ops| && ops[k].Put? ==> !ops[k].lucky
  }

  lemma {:induction false} NoCleanupIsGentle<V>(small: Items<V>, large: Items<V>, n: int, m: int, ops: seq<Op<V>>)
    requires 0 <= n <= m && Included(small, large, n, m) && NoCleanup(ops)
    ensures GentleRun(small, large, n, m, ops, ops)
    decreases |ops|
  {
    if ops != [] {
      var op := ops[0];
      if op.Put? {
        SetIncluded(small, large, n, m, op.slot);
      }
      assert Gentle(small, large, n, m, op, op);
      StepExact(small, large, n, m, op, op);
      NoCleanupIsGentle(Do(small, n, op).0, Do(large, m, op).0, n, m, ops[1..]);
    }
  }

  /** In particular in every run from empty caches that never takes the cleanup branch. */
  lemma InclusionWithoutCleanup<V>(n: int, m: int, ops: seq<Op<V>>)
    requires 0 <= n <= m && NoCleanup(ops)
    ensures var (s, rs) := DoAll([], n, ops);
      var (l, rl) := DoAll([], m, ops);
      && Subsequence(s, l)
      && |rs| == |rl| == |ops|
      && forall k :: 0 <= k < |ops| && rs[k].Some? ==> rl[k] == rs[k]
  {
    NoCleanupIsGentle([], [], n, m, ops);
    InclusionRun([], [], n, m, ops, ops);
  }

  // A run that cleanup breaks, with equal coins.

  function Name(i: nat): string
    requires i < 26
  {
    [('a' as int + i) as char]
  }

  /** Entries 4 and 6 live briefly. */
  function Entry(i: nat): Slot<int>
    requires i < 26
  {
    Slot(Name(i), i, if i == 4 || i == 6 then 1.0 else 9.0)
  }

  function Puts<V>(slots: Items<V>, later: real, lucky: bool): seq<Op<V>> {
    if slots == [] then [] else [Put(slots[0], later, lucky)] + Puts(slots[1..], later, lucky)
  }

  /** 20 insertions, one with a lucky coin after the brief entries expired, two more, and a lookup. */
  function Breaking(first: Items<int>, last: Items<int>): seq<Op<int>> {
    Puts(first, 2.0, false) + ([Put(Entry(20), 2.0, true)] + (Puts(last, 2.0, false) + [Look(Name(2), 3.0)]))
  }

  lemma {:induction false} DoAllConcat<V>(s: Items<V>, max: int, a: seq<Op<V>>, b: seq<Op<V>>)
    ensures var (s1, r1) := DoAll(s, max, a);
      var (s2, r2) := DoAll(s1, max, b);
      |r1| == |a| && DoAll(s, max, a + b) == (s2, r1 + r2)
    decreases |a|
  {
    if a == [] {
      assert a + b == b;
      assert [] + DoAll(s, max, b).1 == DoAll(s, max, b).1;
    } else {
      assert (a + b)[1..] == a[1..] + b;
      var (s1, r) := Do(s, max, a[0]);
      DoAllConcat(s1, max, a[1..], b);
      var (s2, r1) := DoAll(s1, max, a[1..]);
      var r2 := DoAll(s2, max, b).1;
      assert [r] + (r1 + r2) == ([r] + r1) + r2;
    }
  }

  /** Fresh entries inserted without cleanup pile up, and the newest stay. */
  lemma {:induction false} Filling<V>(s: Items<V>, max: nat, slots: Items<V>, later: real)
    requires |s| <= max && Distinct(s + slots)
    ensures DoAll(s, max, Puts(slots, later, false)).0 == Newest(s + slots, max)
    decreases |slots|
  {
    if slots == [] {
      assert s + slots == s;
    } else {
      var x, rest := slots[0], slots[1..];
      assert s + slots == s + [x] + rest;
      FillOne(s, max, x, rest);
      Filling(Newest(s + [x], max), max, rest, later);
      assert Puts(slots, later, false) == [Put(x, later, false)] + Puts(rest, later, false);
    }
  }

  lemma FillOne<V>(s: Items<V>, max: nat, x: Slot<V>, rest: Items<V>)
    requires |s| <= max && Distinct(s + [x] + rest)
    ensures Set(s, max, x) == Newest(s + [x], max)
    ensures Distinct(Newest(s + [x], max) + rest)
    ensures Newest(Newest(s + [x], max) + rest, max) == Newest(s + [x] + rest, max)
  {
    assert Set(s, max, x) == Newest(s + [x], max) by {
      assert forall i :: 0 <= i < |s| ==> (s + [x] + rest)[i] == s[i];
      assert (s + [x] + rest)[|s|] == x;
      SetFresh(s, max, x);
    }
    NewestTwice(s + [x], rest, max);
  }

  lemma NewestTwice<V>(a: Items<V>, b: Items<V>, max: nat)
    ensures Newest(Newest(a, max) + b, max) == Newest(a + b, max)
    ensures Distinct(a + b) ==> Distinct(Newest(a, max) + b)
  {
    var kept := Newest(a, max) + b;
    assert kept == (a + b)[|a + b| - |kept|..];
  }

  lemma SetFresh<V>(s: Items<V>, max: nat, x: Slot<V>)
    requires Distinct(s) && forall i :: 0 <= i < |s| ==> s[i].key != x.key
    ensures Set(s, max, x) == Newest(s + [x], max)
  {
    SizeWithout(s, x.key);
  }

  /** A stretch of the entries. */
  predicate Row(s: Items<int>, from: nat, to: nat) {
    from <= to <= 26 && |s| == to - from && forall i :: 0 <= i < |s| ==> s[i] == Entry(from + i)
  }

  lemma JoinRows(a: Items<int>, b: Items<int>, from: nat, mid: nat, to: nat)
    requires Row(a, from, mid) && Row(b, mid, to)
    ensures Row(a + b, from, to)
  {
  }

  lemma DropRow(s: Items<int>, from: nat, to: nat, k: nat)
    requires Row(s, from, to) && k <= |s|
    ensures Row(s[k..], from + k, to)
  {
  }

  lemma RowDistinct(s: Items<int>, from: nat, to: nat)
    requires Row(s, from, to)
    ensures Distinct(s)
    ensures forall k :: 0 <= k < 26 ==> (Find(s, Name(k)).Some? <==> from <= k < to)
  {
    forall i, j | 0 <= i < j < |s| ensures s[i].key != s[j].key {
      assert Name(from + i)[0] != Name(from + j)[0];
    }
    forall k | 0 <= k < 26 ensures Find(s, Name(k)).Some? <==> from <= k < to {
      if from <= k < to {
        assert s[k - from] in s;
      }
      if Find(s, Name(k)).Some? {
        var i :| 0 <= i < |s| && s[i] == Find(s, Name(k)).value;
        assert Name(from + i)[0] == Name(k)[0];
      }
    }
  }

  lemma RowSet(s: Items<int>, from: nat, to: nat, max: nat)
    requires Row(s, from, to) && |s| <= max && to < 26
    ensures Set(s, max, Entry(to)) == Newest(s + [Entry(to)], max)
  {
    RowDistinct(s, from, to);
    assert Find(s, Name(to)).None?;
    SetFresh(s, max, Entry(to));
  }

  /** Of 19 entries the cleanup samples every one, brief ones included. */
  lemma SmallSamples(s: Items<int>)
    requires Row(s, 2, 21)
    ensures Sampled(s, 2.0) == {Name(4), Name(6)}
  {
    assert |s| == 19 && Step(|s|) == 1;
    assert forall j: nat :: IsSampled(s, 2.0, j) <==> j == 2 || j == 4;
    assert IsSampled(s, 2.0, 2) && IsSampled(s, 2.0, 4);
    assert s[2].key == Name(4) && s[4].key == Name(6);
  }

  /** Of 20 it samples every other one, and misses both brief ones. */
  lemma LargeSamples(s: Items<int>)
    requires Row(s, 1, 21)
    ensures Sampled(s, 2.0) == {}
  {
    assert |s| == 20 && Step(|s|) == 2;
    assert forall j: nat :: !IsSampled(s, 2.0, j);
  }

  lemma SmallSweeps(s: Items<int>)
    requires Row(s, 2, 21)
    ensures var swept := Cleaned(s, 2.0, true);
      Distinct(swept) && |swept| == 17 && Entry(2) in swept && forall x :: x in swept ==> x in s
  {
    RowDistinct(s, 2, 21);
    SmallSamples(s);
    var keys := {Name(4), Name(6)};
    assert s[2] in s && s[4] in s;
    assert keys <= Keys(s);
    assert Name(2)[0] != Name(4)[0] && Name(2)[0] != Name(6)[0] && Name(4)[0] != Name(6)[0];
    SizeWithoutAll(s, keys);
    assert s[0] in s;
  }

  lemma {:induction false} PutsLength<V>(slots: Items<V>, later: real, lucky: bool)
    ensures |Puts(slots, later, lucky)| == |slots|
  {
    if slots != [] {
      PutsLength(slots[1..], later, lucky);
    }
  }

  /** A run taken apart at one of its operations and at its last lookup. */
  lemma RunEnds<V>(max: nat, first: seq<Op<V>>, x: Op<V>, second: seq<Op<V>>, key: string, now: real)
    ensures var swept := Do(DoAll([], max, first).0, max, x).0;
      var r := DoAll([], max, first + ([x] + (second + [Look(key, now)]))).1;
      && |r| == |first| + |second| + 2
      && r[|r| - 1] == Get(DoAll(swept, max, second).0, key, now).1
  {
    var filled := DoAll([], max, first).0;
    var swept := Do(filled, max, x).0;
    var final := DoAll(swept, max, second).0;
    var look := Look(key, now);
    DoAllConcat([], max, first, [x] + (second + [look]));
    DoAllConcat(swept, max, second, [look]);
    assert ([x] + (second + [look]))[1..] == second + [look];
    assert [look][1..] == [];
  }

  /** The run on a cache of either size, from what it holds after the lucky insertion. */
  lemma BreakingEnds(max: nat, first: Items<int>, swept: Items<int>, last: Items<int>)
    requires Row(first, 0, 20) && Row(last, 21, 23) && 1 <= max
    requires swept == Cleaned(Newest(Newest(first, max) + [Entry(20)], max), 2.0, true)
    requires |swept| <= max && Distinct(swept + last)
    ensures var r := DoAll([], max, Breaking(first, last)).1;
      |r| == 24 && r[23] == Get(Newest(swept + last, max), Name(2), 3.0).1
  {
    assert DoAll([], max, Puts(first, 2.0, false)).0 == Newest(first, max) by {
      RowDistinct(first, 0, 20);
      assert [] + first == first;
      Filling([], max, first, 2.0);
    }
    LuckyPut(first, max);
    Filling(swept, max, last, 2.0);
    PutsLength(first, 2.0, false);
    PutsLength(last, 2.0, false);
    RunEnds(max, Puts(first, 2.0, false), Put(Entry(20), 2.0, true), Puts(last, 2.0, false), Name(2), 3.0);
  }

  lemma LuckyPut(first: Items<int>, max: nat)
    requires Row(first, 0, 20) && 1 <= max
    ensures Do(Newest(first, max), max, Put(Entry(20), 2.0, true)).0
         == Cleaned(Newest(Newest(first, max) + [Entry(20)], max), 2.0, true)
  {
    var from := if max < 20 then 20 - max else 0;
    DropRow(first, 0, 20, from);
    assert first[0..] == first;
    RowSet(Newest(first, max), from, 20, max);
  }

  lemma DistinctJoin(before: Items<int>, swept: Items<int>, last: Items<int>)
    requires Row(before, 2, 21) && Row(last, 21, 23) && Distinct(swept) && forall x :: x in swept ==> x in before
    ensures Distinct(swept + last)
  {
    RowDistinct(last, 21, 23);
    forall i, j | 0 <= i < |swept| && 0 <= j < |last| ensures swept[i].key != last[j].key {
      assert swept[i] in before;
      var k :| 0 <= k < |before| && before[k] == swept[i];
      assert Name(2 + k)[0] != Name(21 + j)[0];
    }
  }

  lemma SmallEnds(first: Items<int>, last: Items<int>)
    requires Row(first, 0, 20) && Row(last, 21, 23)
    ensures var r := DoAll([], 19, Breaking(first, last)).1;
      |r| == 24 && r[23] == Some(2)
  {
    var before := first[2..] + [Entry(20)];
    DropRow(first, 0, 20, 2);
    JoinRows(first[2..], [Entry(20)], 2, 20, 21);
    assert Newest(Newest(first, 19) + [Entry(20)], 19) == before;
    SmallSweeps(before);
    var swept := Cleaned(before, 2.0, true);
    var all := swept + last;
    DistinctJoin(before, swept, last);
    BreakingEnds(19, first, swept, last);
    FindIn(all, Entry(2));
  }

  lemma LargeEnds(first: Items<int>, last: Items<int>)
    requires Row(first, 0, 20) && Row(last, 21, 23)
    ensures var r := DoAll([], 20, Breaking(first, last)).1;
      |r| == 24 && r[23] == None
  {
    var before := first[1..] + [Entry(20)];
    var all := before + last;
    DropRow(first, 0, 20, 1);
    JoinRows(first[1..], [Entry(20)], 1, 20, 21);
    JoinRows(before, last, 1, 21, 23);
    DropRow(all, 1, 23, 2);
    assert Newest(Newest(first, 20) + [Entry(20)], 20) == before;
    assert Cleaned(before, 2.0, true) == before by {
      LargeSamples(before);
      KeepAll(before);
    }
    assert Distinct(all) by { RowDistinct(all, 1, 23); }
    BreakingEnds(20, first, before, last);
    assert Find(all[2..], Name(2)).None? by { RowDistinct(all[2..], 3, 23); }
  }

  /** With cleanup the inclusion fails, even with equal coins: the smaller cache samples every entry and
      drops both expired ones, the larger samples every other one and drops none, and two insertions later
      only the smaller still has an entry that both had. */
  lemma CleanupBreaksInclusion()
    ensures var ops := Breaking(seq(20, i requires 0 <= i < 20 => Entry(i)), [Entry(21), Entry(22)]);
      var rs, rl := DoAll([], 19, ops).1, DoAll([], 20, ops).1;
      |rs| == |rl| == 24 && rs[23] == Some(2) && rl[23] == None
  {
    var first, last := seq(20, i requires 0 <= i < 20 => Entry(i)), [Entry(21), Entry(22)];
    SmallEnds(first, last);
    LargeEnds(first, last);
  }
}
