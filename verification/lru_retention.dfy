/** Least recently used: how long the local cache keeps a key. */
module LruRetention {
  import opened Wrappers
  import opened Lru
  import R = LruReference

  /** The entries newer than a key's own. */
  function After<V>(s: Items<V>, key: string): Option<Items<V>> {
    if s == [] then None
    else if s[0].key == key then Some(s[1..])
    else After(s[1..], key)
  }

  /** The other keys put or hit since the last use of `key`, without those removed or found expired since;
      None if the key itself is gone.  A key is gone as soon as there are `max` of them. */
  type Since = Option<set<string>>

  function Bounded(others: set<string>, max: int): Since {
    if |others| < max then Some(others) else None
  }

  function Use(since: Since, key: string, used: string, max: int): Since {
    if used == key then Bounded({}, max)
    else if since.None? then None
    else Bounded(since.value + {used}, max)
  }

  function Gone(since: Since, key: string, gone: string): Since {
    if gone == key || since.None? then None else Some(since.value - {gone})
  }

  /** One operation and what it answered. */
  function Track<V>(since: Since, key: string, op: Op<V>, answer: Option<V>, max: int): Since {
    match op
    case Look(k, _) => if answer.Some? then Use(since, key, k, max) else Gone(since, key, k)
    case Put(slot, _, _) => Use(since, key, slot.key, max)
    case Remove(k) => Gone(since, key, k)
    case Empty => None
  }

  function TrackAll<V>(since: Since, key: string, ops: seq<Op<V>>, answers: seq<Option<V>>, max: int): Since
    requires |answers| == |ops|
    decreases |ops|
  {
    if ops == [] then since
    else TrackAll(Track(since, key, ops[0], answers[0], max), key, ops[1..], answers[1..], max)
  }

  // What the list says.

  function SinceOf<V(==)>(s: Items<V>, key: string): Since {
    var after := After(s, key);
    if after.Some? then Some(Keys(after.value)) else None
  }

  lemma {:induction false} AfterWithout<V>(s: Items<V>, key: string, gone: string)
    ensures After(Without(s, gone), key) ==
      if gone == key || After(s, key).None? then None else Some(Without(After(s, key).value, gone))
    decreases |s|
  {
    if s != [] {
      var head, rest := s[0], s[1..];
      AfterWithout(rest, key, gone);
      assert head.key != gone ==> ([head] + Without(rest, gone))[1..] == Without(rest, gone);
    }
  }

  lemma {:induction false} AfterAppend<V>(s: Items<V>, key: string, x: Slot<V>)
    ensures After(s + [x], key) ==
      if After(s, key).Some? then Some(After(s, key).value + [x])
      else if x.key == key then Some([]) else None
    decreases |s|
  {
    if s != [] {
      assert (s + [x])[0] == s[0] && (s + [x])[1..] == s[1..] + [x];
      AfterAppend(s[1..], key, x);
    } else {
      assert (s + [x])[1..] == [];
    }
  }

  /** Dropping the oldest keeps a key exactly if enough of the newer ones fit with it. */
  lemma {:induction false} AfterDrop<V>(s: Items<V>, key: string, n: nat)
    requires n <= |s| && Distinct(s)
    ensures After(s[n..], key) ==
      if After(s, key).Some? && |After(s, key).value| < |s| - n then After(s, key) else None
    decreases |s|
  {
    if n == 0 {
      assert s[0..] == s;
      AfterShorter(s, key);
    } else {
      var rest := s[1..];
      assert s[n..] == rest[n - 1..];
      AfterDrop(rest, key, n - 1);
      if s[0].key == key {
        AfterAbsent(rest, key);
      }
    }
  }

  lemma {:induction false} AfterShorter<V>(s: Items<V>, key: string)
    ensures After(s, key).Some? ==> |After(s, key).value| < |s|
    decreases |s|
  {
    if s != [] {
      AfterShorter(s[1..], key);
    }
  }

  lemma {:induction false} AfterAbsent<V>(s: Items<V>, key: string)
    requires forall i :: 0 <= i < |s| ==> s[i].key != key
    ensures After(s, key).None?
    decreases |s|
  {
    if s != [] {
      AfterAbsent(s[1..], key);
    }
  }

  lemma {:induction false} AfterFinds<V>(s: Items<V>, key: string)
    ensures After(s, key).Some? <==> Find(s, key).Some?
    decreases |s|
  {
    if s != [] {
      AfterFinds(s[1..], key);
    }
  }

  lemma {:induction false} AfterDistinct<V>(s: Items<V>, key: string)
    requires Distinct(s) && After(s, key).Some?
    ensures Distinct(After(s, key).value)
    decreases |s|
  {
    if s[0].key != key {
      AfterDistinct(s[1..], key);
    }
  }

  lemma {:induction false} KeyCount<V>(s: Items<V>)
    requires Distinct(s)
    ensures |Keys(s)| == |s|
  {
    if s != [] {
      var rest := s[1..];
      KeyCount(rest);
      assert Keys(s) == Keys(rest) + {s[0].key};
      assert forall x :: x in rest ==> x.key != s[0].key;
    }
  }

  lemma KeysWithout<V>(s: Items<V>, gone: string)
    ensures Keys(Without(s, gone)) == Keys(s) - {gone}
  {
  }

  lemma KeysAppend<V>(s: Items<V>, x: Slot<V>)
    ensures Keys(s + [x]) == Keys(s) + {x.key}
  {
  }

  // One step.

  lemma GoneStep<V>(s: Items<V>, key: string, gone: string)
    ensures SinceOf(Without(s, gone), key) == Gone(SinceOf(s, key), key, gone)
  {
    AfterWithout(s, key, gone);
    if After(s, key).Some? {
      KeysWithout(After(s, key).value, gone);
    }
  }

  /** Moving to the end, or storing, before anything is evicted. */
  lemma MovedStep<V>(s: Items<V>, key: string, slot: Slot<V>)
    ensures SinceOf(Without(s, slot.key) + [slot], key) ==
      if slot.key == key then Some({})
      else if SinceOf(s, key).None? then None
      else Some(SinceOf(s, key).value + {slot.key})
  {
    var rest := Without(s, slot.key);
    AfterWithout(s, key, slot.key);
    AfterAppend(rest, key, slot);
    if After(rest, key).Some? {
      var a := After(s, key).value;
      KeysAppend(Without(a, slot.key), slot);
      KeysWithout(a, slot.key);
      assert Keys(a) - {slot.key} + {slot.key} == Keys(a) + {slot.key};
    } else if slot.key == key {
      assert Keys<V>([]) == {};
    }
  }

  lemma SinceFits<V>(s: Items<V>, key: string)
    requires Distinct(s)
    ensures SinceOf(s, key).Some? ==> |SinceOf(s, key).value| == |After(s, key).value| < |s|
  {
    if After(s, key).Some? {
      AfterDistinct(s, key);
      KeyCount(After(s, key).value);
      AfterShorter(s, key);
    }
  }

  lemma NewestStep<V>(s: Items<V>, key: string, max: nat)
    requires Distinct(s)
    ensures SinceOf(Newest(s, max), key) == if SinceOf(s, key).Some? then Bounded(SinceOf(s, key).value, max) else None
  {
    SinceFits(s, key);
    if |s| > max {
      AfterDrop(s, key, |s| - max);
    }
  }

  lemma UseStep<V>(s: Items<V>, key: string, slot: Slot<V>, max: nat)
    requires Distinct(s)
    ensures SinceOf(Set(s, max, slot), key) == Use(SinceOf(s, key), key, slot.key, max)
  {
    AppendDistinct(s, slot);
    MovedStep(s, key, slot);
    NewestStep(Without(s, slot.key) + [slot], key, max);
  }

  /** A hit moves the entry; the size stays, so nothing is evicted. */
  lemma HitStep<V>(s: Items<V>, key: string, slot: Slot<V>, max: nat)
    requires Distinct(s) && |s| <= max && Find(s, slot.key) == Some(slot)
    ensures SinceOf(Without(s, slot.key) + [slot], key) == Use(SinceOf(s, key), key, slot.key, max)
  {
    UseStep(s, key, slot, max);
    SizeWithout(s, slot.key);
  }

  predicate NoCleanup<V>(op: Op<V>) {
    op.Put? ==> !op.lucky
  }

  lemma TrackStep<V>(s: Items<V>, key: string, op: Op<V>, max: nat)
    requires Distinct(s) && |s| <= max && NoCleanup(op)
    ensures var (s', answer) := Do(s, max, op);
      Distinct(s') && |s'| <= max && SinceOf(s', key) == Track(SinceOf(s, key), key, op, answer, max)
  {
    match op
    case Look(k, now) =>
      var found := Find(s, k);
      if found.Some? && now <= found.value.expireAt {
        HitStep(s, key, found.value, max);
        AppendDistinct(s, found.value);
        SizeWithout(s, k);
      } else {
        GoneStep(s, key, k);
        if found.None? { SizeWithout(s, k); }
      }
    case Put(slot, _, _) =>
      UseStep(s, key, slot, max);
      SetDistinct(s, max, slot);
    case Remove(k) => GoneStep(s, key, k);
    case Empty =>
  }

  /** In every run without cleanup a key is held exactly as long as, since its last use and without its
      removal or expiry, fewer than `max` distinct other keys have been put or hit. */
  lemma {:induction false} Retention<V>(s: Items<V>, key: string, ops: seq<Op<V>>, max: nat)
    requires Distinct(s) && |s| <= max && forall i :: 0 <= i < |ops| ==> NoCleanup(ops[i])
    ensures var (s', answers) := DoAll(s, max, ops);
      && |answers| == |ops|
      && (Find(s', key).Some? <==> TrackAll(SinceOf(s, key), key, ops, answers, max).Some?)
    decreases |ops|
  {
    if ops == [] {
      AfterFinds(s, key);
    } else {
      var (s1, answer) := Do(s, max, ops[0]);
      TrackStep(s, key, ops[0], max);
      Retention(s1, key, ops[1..], max);
      var rest := DoAll(s1, max, ops[1..]).1;
      assert ([answer] + rest)[1..] == rest;
    }
  }

  /** So a lookup after any such run hits exactly if the key is held in that sense and the deadline of
      its last `set` has not passed. */
  lemma HitsIff<V>(ops: seq<Op<V>>, key: string, now: real, max: nat)
    requires forall i :: 0 <= i < |ops| ==> NoCleanup(ops[i])
    ensures var (s, answers) := DoAll([], max, ops);
      var table := R.TableAll(map[], ops).0;
      && |answers| == |ops|
      && (Get(s, key, now).1.Some? <==>
            TrackAll(None, key, ops, answers, max).Some? && key in table && now <= table[key].expireAt)
  {
    Retention([], key, ops, max);
    R.BackedRun([], max, map[], ops);
  }

  // The same in terms of the keys used since, when nothing else goes in between.

  /** These operations use other keys only, and find none of them expired. */
  predicate OthersOnly<V>(s: Items<V>, key: string, ops: seq<Op<V>>, max: int)
    decreases |ops|
  {
    ops != [] ==>
      && (match ops[0]
          case Look(k, now) => k != key && (Find(s, k).Some? ==> Get(s, k, now).1.Some?)
          case Put(slot, _, lucky) => slot.key != key && !lucky
          case _ => false)
      && OthersOnly(Do(s, max, ops[0]).0, key, ops[1..], max)
  }

  /** The distinct keys put or hit. */
  function Used<V>(ops: seq<Op<V>>, answers: seq<Option<V>>): set<string>
    requires |answers| == |ops|
    decreases |ops|
  {
    if ops == [] then {}
    else
      UsedBy(ops[0], answers[0]) + Used(ops[1..], answers[1..])
  }

  lemma UsedCons<V>(op: Op<V>, answer: Option<V>, ops: seq<Op<V>>, answers: seq<Option<V>>)
    requires |answers| == |ops|
    ensures Used([op] + ops, [answer] + answers) == UsedBy(op, answer) + Used(ops, answers)
  {
    assert ([op] + ops)[1..] == ops && ([answer] + answers)[1..] == answers;
  }

  function UsedBy<V>(op: Op<V>, answer: Option<V>): set<string> {
    if op.Put? then {op.slot.key} else if op.Look? && answer.Some? then {op.key} else {}
  }

  lemma {:induction false} KeptWhile<V>(s: Items<V>, key: string, ops: seq<Op<V>>, max: nat, others: set<string>)
    requires Distinct(s) && |s| <= max && OthersOnly(s, key, ops, max)
    requires SinceOf(s, key) == Bounded(others, max)
    ensures var (s', answers) := DoAll(s, max, ops);
      |answers| == |ops| && SinceOf(s', key) == Bounded(others + Used(ops, answers), max)
    decreases |ops|
  {
    if ops == [] {
      assert others + {} == others;
    } else {
      var op := ops[0];
      var (s1, answer) := Do(s, max, op);
      var used := UsedBy(op, answer);
      TrackStep(s, key, op, max);
      KeptStep(s, key, op, max, others);
      KeptWhile(s1, key, ops[1..], max, others + used);
      var rest := DoAll(s1, max, ops[1..]).1;
      UsedCons(op, answer, ops[1..], rest);
      assert ops == [op] + ops[1..];
      assert others + used + Used(ops[1..], rest) == others + (used + Used(ops[1..], rest));
    }
  }

  lemma KeptStep<V>(s: Items<V>, key: string, op: Op<V>, max: nat, others: set<string>)
    requires Distinct(s) && |s| <= max && OthersOnly(s, key, [op], max) && SinceOf(s, key) == Bounded(others, max)
    ensures var answer := Do(s, max, op).1;
      Track(SinceOf(s, key), key, op, answer, max) == Bounded(others + UsedBy(op, answer), max)
  {
    var used := UsedBy(op, Do(s, max, op).1);
    if |others| >= max {
      Grows(others, used);
    }
    if op.Look? && Do(s, max, op).1.None? {
      assert Find(s, op.key).None? && others + used == others;
      AbsentSince(s, key, op.key);
      assert |others| < max ==> others - {op.key} == others;
    }
  }

  lemma Grows(a: set<string>, b: set<string>)
    ensures |a + b| >= |a|
  {
    assert a + b == a + (b - a);
  }

  lemma AbsentSince<V>(s: Items<V>, key: string, k: string)
    requires Find(s, k).None?
    ensures SinceOf(s, key).Some? ==> k !in SinceOf(s, key).value
  {
    if After(s, key).Some? {
      AfterPart(s, key);
    }
  }

  lemma {:induction false} AfterPart<V>(s: Items<V>, key: string)
    requires After(s, key).Some?
    ensures forall x :: x in After(s, key).value ==> x in s
    decreases |s|
  {
    if s[0].key != key {
      AfterPart(s[1..], key);
    }
  }

  /** After a `set` or a hit of a key, and operations on other keys that find nothing expired, a lookup
      within the deadline hits if and only if fewer than `max` distinct other keys were put or hit. */
  lemma LeastRecentlyUsed<V>(s: Items<V>, use: Op<V>, between: seq<Op<V>>, key: string, now: real, max: nat)
    requires Distinct(s) && |s| <= max
    requires (use.Put? && use.slot.key == key && !use.lucky)
          || (use.Look? && use.key == key && Do(s, max, use).1.Some?)
    requires OthersOnly(Do(s, max, use).0, key, between, max)
    ensures var (s', answers) := DoAll(Do(s, max, use).0, max, between);
      && |answers| == |between|
      && (Find(s', key).Some? <==> |Used(between, answers)| < max)
      && (Find(s', key).Some? && now <= Find(s', key).value.expireAt ==> Get(s', key, now).1.Some?)
  {
    TrackStep(s, key, use, max);
    var s1 := Do(s, max, use).0;
    KeptWhile(s1, key, between, max, {});
    var (s', answers) := DoAll(s1, max, between);
    assert {} + Used(between, answers) == Used(between, answers);
    AfterFinds(s', key);
  }
}
