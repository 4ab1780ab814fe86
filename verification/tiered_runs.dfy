/** The calls of the two-level cache as runs of the machine in which others write the Redis cache between
    any two steps, so that what is proved of those runs is about these calls. */
module TieredRuns {
  import opened Wrappers
  import Lru
  import opened Tiered
  import S = Staleness

  lemma {:induction false} Join(s: S.State, c: S.Config, a: seq<S.Event>, b: seq<S.Event>)
    requires S.Valid(s, c, a) && S.Valid(S.Run(s, c, a), c, b)
    ensures S.Valid(s, c, a + b) && S.Run(s, c, a + b) == S.Run(S.Run(s, c, a), c, b)
    decreases |a|
  {
    if a == [] {
      assert a + b == b;
    } else {
      assert (a + b)[1..] == a[1..] + b;
      Join(S.Next(s, c, a[0]), c, a[1..], b);
    }
  }

  lemma One(s: S.State, c: S.Config, e: S.Event)
    requires S.Enabled(s, c, e)
    ensures S.Valid(s, c, [e]) && S.Run(s, c, [e]) == S.Next(s, c, e)
  {
    assert [e][1..] == [];
  }

  /** The machine stands where a call begins or ends: nothing of it is pending. */
  predicate Stands(s: S.State, l1: Locals, l2: Contents, t: real) {
    s.l1 == l1 && s.l2 == l2 && s.time == t && s.pending == multiset{}
  }

  /** Lookups and stores of one call, the stores with the lifetimes of this configuration, of what the
      Redis cache holds. */
  predicate Lawful(step: LocalStep, l2: Contents, c: S.Config) {
    step.Stored? ==>
      && AsRaw(step.local) == Raw(l2, step.key)
      && step.ttl == match step.local case Hit(_) => c.localTtl case Negative => c.negativeTtl
  }

  lemma LookRun(s: S.State, c: S.Config, step: LocalStep) returns (run: seq<S.Event>)
    requires step.Looked? && s.time <= step.now && s.pending == multiset{}
    ensures S.Valid(s, c, run)
    ensures Stands(S.Run(s, c, run), Take(s.l1, c.maxsize, step), s.l2, step.now)
  {
    var wait, look := S.Pass(step.now - s.time), S.LocalGet(step.key);
    var s1 := S.Next(s, c, wait);
    One(s, c, wait);
    One(s1, c, look);
    Join(s, c, [wait], [look]);
    run := [wait] + [look];
  }

  /** The Redis cache is read, and the deadline fixed within the delay. */
  lemma StampRun(s: S.State, c: S.Config, key: string, at: real) returns (run: seq<S.Event>)
    requires s.time <= at && at - s.time <= c.delay && s.pending == multiset{}
    ensures S.Valid(s, c, run)
    ensures var s', raw := S.Run(s, c, run), Raw(s.l2, key);
      && s'.l1 == s.l1 && s'.l2 == s.l2 && s'.time == at
      && s'.pending == multiset{S.Stamped(key, raw, at + S.TtlOf(c, raw))}
  {
    var p := S.Seen(key, Raw(s.l2, key), s.time);
    var read, wait, stamp := S.Read(key), S.Pass(at - s.time), S.Stamp(p);
    var s1 := S.Next(s, c, read);
    assert s1.pending == multiset{p};
    var s2 := S.Next(s1, c, wait);
    assert S.Enabled(s2, c, stamp);
    var s3 := S.Next(s2, c, stamp);
    assert multiset{p} - multiset{p} == multiset{};
    One(s, c, read);
    One(s1, c, wait);
    One(s2, c, stamp);
    Join(s1, c, [wait], [stamp]);
    Join(s, c, [read], [wait] + [stamp]);
    run := [read] + ([wait] + [stamp]);
  }

  /** The entry is stored, and the cleanup looks at the clock. */
  lemma ApplyRun(s: S.State, c: S.Config, q: S.Pending, later: real, lucky: bool) returns (run: seq<S.Event>)
    requires q.Stamped? && s.pending == multiset{q} && s.time <= later
    ensures S.Valid(s, c, run)
    ensures var slot := Lru.Slot(q.key, AsLocal(q.raw), q.deadline);
      Stands(S.Run(s, c, run), Lru.Inserted(s.l1, c.maxsize, slot, later, lucky), s.l2, later)
  {
    var wait, apply := S.Pass(later - s.time), S.Apply(q, lucky);
    var s1 := S.Next(s, c, wait);
    assert multiset{q} - multiset{q} == multiset{};
    One(s, c, wait);
    One(s1, c, apply);
    Join(s, c, [wait], [apply]);
    run := [wait] + [apply];
  }

  /** A store. */
  lemma StoreRun(s: S.State, c: S.Config, step: LocalStep) returns (run: seq<S.Event>)
    requires step.Stored? && Lawful(step, s.l2, c) && s.time <= step.at <= step.later && s.pending == multiset{}
    requires step.at - s.time <= c.delay
    ensures S.Valid(s, c, run)
    ensures Stands(S.Run(s, c, run), Take(s.l1, c.maxsize, step), s.l2, step.later)
  {
    var raw := Raw(s.l2, step.key);
    var first := StampRun(s, c, step.key, step.at);
    var s1 := S.Run(s, c, first);
    var q := S.Stamped(step.key, raw, step.at + S.TtlOf(c, raw));
    assert AsLocal(raw) == step.local && S.TtlOf(c, raw) == step.ttl;
    assert Lru.NewSlot(step.key, step.local, step.at, step.ttl) == Lru.Slot(q.key, AsLocal(q.raw), q.deadline);
    var second := ApplyRun(s1, c, q, step.later, step.lucky);
    Join(s, c, first, second);
    run := first + second;
  }

  /** What a call does to the local level is a run, if the delay allows for its length. */
  lemma {:induction false} EpisodeRun(s: S.State, c: S.Config, steps: seq<LocalStep>, t1: real)
    returns (run: seq<S.Event>)
    requires Episode(s.l1, c.maxsize, steps, s.time, t1) && s.pending == multiset{} && t1 - s.time <= c.delay
    requires forall i :: 0 <= i < |steps| ==> Lawful(steps[i], s.l2, c)
    ensures S.Valid(s, c, run)
    ensures Stands(S.Run(s, c, run), TakeAll(s.l1, c.maxsize, steps), s.l2, t1)
    decreases |steps|
  {
    if steps == [] {
      One(s, c, S.Pass(t1 - s.time));
      run := [S.Pass(t1 - s.time)];
    } else {
      EpisodeLasts(Take(s.l1, c.maxsize, steps[0]), c.maxsize, steps[1..], Ends(steps[0]), t1);
      var first;
      if steps[0].Looked? {
        first := LookRun(s, c, steps[0]);
      } else {
        first := StoreRun(s, c, steps[0]);
      }
      var s1 := S.Run(s, c, first);
      var rest := EpisodeRun(s1, c, steps[1..], t1);
      Join(s, c, first, rest);
      run := first + rest;
    }
  }

  lemma {:induction false} EpisodeLasts(l1: Locals, max: int, steps: seq<LocalStep>, t0: real, t1: real)
    requires Episode(l1, max, steps, t0, t1)
    ensures t0 <= t1
    decreases |steps|
  {
    if steps != [] {
      EpisodeLasts(Take(l1, max, steps[0]), max, steps[1..], Ends(steps[0]), t1);
    }
  }

  /** `Get` is a run. */
  lemma GetIsRun(s: S.State, c: S.Config, after: Locals, steps: seq<LocalStep>, t1: real, key: string, r: Datum)
    returns (run: seq<S.Event>)
    requires s.pending == multiset{} && t1 - s.time <= c.delay
    requires Went(s.l1, after, c.maxsize, steps, s.time, t1)
    requires Reads(steps, key, Raw(s.l2, key), r, c.localTtl, c.negativeTtl)
    ensures S.Valid(s, c, run) && Stands(S.Run(s, c, run), after, s.l2, t1)
  {
    run := EpisodeRun(s, c, steps, t1);
  }

  /** So is `Set`: the write, then the store. */
  lemma SetIsRun(s: S.State, c: S.Config, after: Locals, step: LocalStep, t1: real, key: string, datum: Datum)
    returns (run: seq<S.Event>)
    requires s.pending == multiset{} && t1 - s.time <= c.delay
    requires Went(s.l1, after, c.maxsize, [step], s.time, t1)
    requires Refills(step, key, Some(datum), c.localTtl, c.negativeTtl)
    ensures S.Valid(s, c, run) && Stands(S.Run(s, c, run), after, s.l2[key := datum], t1)
  {
    var write := S.Outside(key, Some(datum));
    var s1 := S.Next(s, c, write);
    One(s, c, write);
    var rest := EpisodeRun(s1, c, [step], t1);
    Join(s, c, [write], rest);
    run := [write] + rest;
  }

  /** So is `Delete`: first locally, then in the Redis cache. */
  lemma DeleteIsRun(s: S.State, c: S.Config, key: string) returns (run: seq<S.Event>)
    requires s.pending == multiset{}
    ensures S.Valid(s, c, run) && Stands(S.Run(s, c, run), Lru.Without(s.l1, key), s.l2 - {key}, s.time)
  {
    var s1 := S.Next(s, c, S.LocalDelete(key));
    One(s, c, S.LocalDelete(key));
    One(s1, c, S.Outside(key, None));
    Join(s, c, [S.LocalDelete(key)], [S.Outside(key, None)]);
    run := [S.LocalDelete(key)] + [S.Outside(key, None)];
  }

  /** So is `Remember`: the lookup, the factory's value written if Redis lacks the key, then the store. */
  lemma RememberIsRun(s: S.State, c: S.Config, after: Locals, steps: seq<LocalStep>, t1: real,
                      key: string, made: Datum, r: Datum, called: bool) returns (run: seq<S.Event>)
    requires s.pending == multiset{} && t1 - s.time <= c.delay
    requires Went(s.l1, after, c.maxsize, steps, s.time, t1)
    requires Remembers(steps, key, Raw(s.l2, key), made, r, called, c.localTtl)
    ensures S.Valid(s, c, run)
    ensures Stands(S.Run(s, c, run), after, if called then s.l2[key := made] else s.l2, t1)
  {
    if called {
      assert steps == [steps[0]] + [steps[1]] && steps[1..] == [steps[1]];
      EpisodeLasts(Take(s.l1, c.maxsize, steps[0]), c.maxsize, steps[1..], Ends(steps[0]), t1);
      var first := LookRun(s, c, steps[0]);
      var s1 := S.Run(s, c, first);
      var rest := SetIsRun(s1, c, after, steps[1], t1, key, made);
      Join(s, c, first, rest);
      run := first + rest;
    } else {
      run := EpisodeRun(s, c, steps, t1);
    }
  }

  /** So is `GetMany`. */
  lemma GetManyIsRun(s: S.State, c: S.Config, after: Locals, looks: seq<LocalStep>, fills: seq<LocalStep>, t1: real,
                     keys: seq<string>) returns (run: seq<S.Event>)
    requires s.pending == multiset{} && t1 - s.time <= c.delay
    requires Went(s.l1, after, c.maxsize, looks + fills, s.time, t1)
    requires LooksFor(looks, keys) && RefillsFor(fills, Once(Missing(looks)), s.l2, c.localTtl, c.negativeTtl)
    ensures S.Valid(s, c, run) && Stands(S.Run(s, c, run), after, s.l2, t1)
  {
    var steps := looks + fills;
    forall i | 0 <= i < |steps| ensures Lawful(steps[i], s.l2, c) {
      assert steps[i] == if i < |looks| then looks[i] else fills[i - |looks|];
    }
    run := EpisodeRun(s, c, steps, t1);
  }

  /** The writes of a batch. */
  lemma {:induction false} WritesRun(s: S.State, c: S.Config, pairs: seq<(string, Datum)>) returns (run: seq<S.Event>)
    requires s.pending == multiset{}
    ensures S.Valid(s, c, run) && Stands(S.Run(s, c, run), s.l1, Written(s.l2, pairs), s.time)
    decreases |pairs|
  {
    if pairs == [] {
      run := [];
    } else {
      var write := S.Outside(pairs[0].0, Some(pairs[0].1));
      var s1 := S.Next(s, c, write);
      One(s, c, write);
      var rest := WritesRun(s1, c, pairs[1..]);
      Join(s, c, [write], rest);
      run := [write] + rest;
    }
  }

  /** So is `SetMany`: all writes, then all stores. */
  lemma SetManyIsRun(s: S.State, c: S.Config, after: Locals, fills: seq<LocalStep>, t1: real,
                     pairs: seq<(string, Datum)>) returns (run: seq<S.Event>)
    requires s.pending == multiset{} && t1 - s.time <= c.delay
    requires Went(s.l1, after, c.maxsize, fills, s.time, t1) && StoresFor(fills, pairs, c.localTtl)
    requires forall i, j :: 0 <= i < j < |pairs| ==> pairs[i].0 != pairs[j].0
    ensures S.Valid(s, c, run) && Stands(S.Run(s, c, run), after, Written(s.l2, pairs), t1)
  {
    var first := WritesRun(s, c, pairs);
    var s1 := S.Run(s, c, first);
    WrittenRaw(s.l2, pairs);
    var rest := EpisodeRun(s1, c, fills, t1);
    Join(s, c, first, rest);
    run := first + rest;
  }

  /** So is `DeletePattern`: the local level is emptied, then the matching keys go one by one. */
  lemma DeletePatternIsRun(s: S.State, c: S.Config, matching: string -> bool, scanned: seq<string>)
    returns (run: seq<S.Event>)
    requires s.pending == multiset{} && Scan(s.l2, matching, scanned)
    ensures S.Valid(s, c, run) && Stands(S.Run(s, c, run), [], Keep(s.l2, matching), s.time)
  {
    var s1 := S.Next(s, c, S.LocalClear);
    One(s, c, S.LocalClear);
    var rest := DeletesRun(s1, c, scanned);
    Join(s, c, [S.LocalClear], rest);
    run := [S.LocalClear] + rest;
    assert Keep(s.l2, matching) == map k | k in s.l2 && k !in scanned :: s.l2[k];
  }

  lemma {:induction false} DeletesRun(s: S.State, c: S.Config, keys: seq<string>) returns (run: seq<S.Event>)
    requires s.pending == multiset{}
    ensures S.Valid(s, c, run)
    ensures Stands(S.Run(s, c, run), s.l1, map k | k in s.l2 && k !in keys :: s.l2[k], s.time)
    decreases |keys|
  {
    if keys == [] {
      run := [];
      assert (map k | k in s.l2 && k !in keys :: s.l2[k]) == s.l2;
    } else {
      var delete := S.Outside(keys[0], None);
      var s1 := S.Next(s, c, delete);
      One(s, c, delete);
      var rest := DeletesRun(s1, c, keys[1..]);
      Join(s, c, [delete], rest);
      run := [delete] + rest;
    }
  }

  // How old an answer of a call can be.

  /** A datum, or its absence, that a call at this state may answer with: what the Redis cache holds now,
      or held no longer ago than the lifetime of its kind and the delay. */
  ghost predicate Recent(s: S.State, c: S.Config, key: string, r: Datum, now: real) {
    || r == Answer(s.l2, key)
    || S.HeldSince(s.past, key, Some(r), now - c.localTtl - c.delay)
    || (r == Null && S.HeldSince(s.past, key, None, now - c.negativeTtl - c.delay))
  }

  /** Bounded staleness of `Get`: at the end of any run of the machine, among them those of earlier calls
      with anything others do in between, whatever `Get` answers is recent at the time of its lookup. */
  lemma GetIsRecent(start: S.State, c: S.Config, run: seq<S.Event>, after: Locals, steps: seq<LocalStep>, t1: real,
                    key: string, r: Datum)
    requires S.Fresh(start) && S.Valid(start, c, run)
    requires var s := S.Run(start, c, run);
      && Went(s.l1, after, c.maxsize, steps, s.time, t1)
      && Reads(steps, key, Raw(s.l2, key), r, c.localTtl, c.negativeTtl)
    ensures var s := S.Run(start, c, run);
      s.time <= steps[0].now <= t1 && Recent(s, c, key, r, steps[0].now)
  {
    var s := S.Run(start, c, run);
    var look := steps[0];
    EpisodeLasts(Take(s.l1, c.maxsize, look), c.maxsize, steps[1..], Ends(look), t1);
    if look.found.Some? {
      LookIsRecent(start, c, run, look);
    }
  }

  /** What a lookup some time after a run finds. */
  lemma LookIsRecent(start: S.State, c: S.Config, run: seq<S.Event>, look: LocalStep)
    requires S.Fresh(start) && S.Valid(start, c, run) && look.Looked? && look.found.Some?
    requires var s := S.Run(start, c, run);
      s.time <= look.now && Lru.Get(s.l1, look.key, look.now).1 == look.found
    ensures var s := S.Run(start, c, run);
      match look.found.value
      case Hit(datum) => S.HeldSince(s.past, look.key, Some(datum), look.now - c.localTtl - c.delay)
      case Negative => S.HeldSince(s.past, look.key, None, look.now - c.negativeTtl - c.delay)
  {
    var s := S.Run(start, c, run);
    var wait := S.Pass(look.now - s.time);
    One(s, c, wait);
    Join(start, c, run, [wait]);
    S.BoundedStaleness(start, c, run + [wait], look.key);
  }

  /** The same of `Remember`, whose answers from the local level are never of the marker. */
  lemma RememberIsRecent(start: S.State, c: S.Config, run: seq<S.Event>, after: Locals, steps: seq<LocalStep>, t1: real,
                         key: string, made: Datum, r: Datum, called: bool)
    requires S.Fresh(start) && S.Valid(start, c, run)
    requires var s := S.Run(start, c, run);
      && Went(s.l1, after, c.maxsize, steps, s.time, t1)
      && Remembers(steps, key, Raw(s.l2, key), made, r, called, c.localTtl)
    ensures var s := S.Run(start, c, run);
      && (called ==> r == made && key !in s.l2)
      && (!called ==> r == Answer(s.l2, key) || S.HeldSince(s.past, key, Some(r), steps[0].now - c.localTtl - c.delay))
  {
    var s := S.Run(start, c, run);
    if steps[0].found.Some? {
      LookIsRecent(start, c, run, steps[0]);
    }
  }

  /** Every entry that a call adds is one of its stores, and lives from a moment of the call on for exactly
      the lifetime of that store. */
  lemma {:induction false} NewEntry(before: Locals, after: Locals, max: int, steps: seq<LocalStep>, t0: real, t1: real,
                                    slot: Lru.Slot<Local>) returns (i: nat)
    requires Lru.Distinct(before) && Went(before, after, max, steps, t0, t1) && slot in after && slot !in before
    ensures i < |steps| && steps[i].Stored? && t0 <= steps[i].at <= t1
    ensures slot.key == steps[i].key && slot.value == steps[i].local && slot.expireAt == steps[i].at + steps[i].ttl
    decreases |steps|
  {
    var step, mid := steps[0], Take(before, max, steps[0]);
    EpisodeLasts(mid, max, steps[1..], Ends(step), t1);
    ShapeKept(before, max, step);
    if slot in mid {
      OnlyNew(before, max, step, slot);
      i := 0;
    } else {
      var rest := steps[1..];
      assert Went(mid, after, max, rest, Ends(step), t1);
      var j := NewEntry(mid, after, max, rest, Ends(step), t1, slot);
      i := j + 1;
      assert steps[i] == rest[j] && t0 <= Ends(step);
    }
  }

  lemma OnlyNew(l1: Locals, max: int, step: LocalStep, slot: Lru.Slot<Local>)
    requires Lru.Distinct(l1) && slot in Take(l1, max, step) && slot !in l1
    ensures step.Stored? && slot == Lru.NewSlot(step.key, step.local, step.at, step.ttl)
  {
    if step.Stored? {
      Lru.InsertedHolds(l1, max, Lru.NewSlot(step.key, step.local, step.at, step.ttl), step.later, step.lucky);
    }
  }

  /** So what a `Get` stores lives from a moment of the call on, a value for the local lifetime and the
      marker for the negative one. */
  lemma StoredDeadline(before: Locals, after: Locals, max: int, steps: seq<LocalStep>, t0: real, t1: real,
                       key: string, raw: Option<Datum>, r: Datum, ttl: real, negativeTtl: real, slot: Lru.Slot<Local>)
    requires Lru.Distinct(before) && Went(before, after, max, steps, t0, t1)
    requires Reads(steps, key, raw, r, ttl, negativeTtl) && slot in after && slot !in before
    ensures slot.key == key && slot.value == AsLocal(raw)
    ensures var life := if raw.Some? then ttl else negativeTtl;
      t0 + life <= slot.expireAt <= t1 + life
  {
    var i := NewEntry(before, after, max, steps, t0, t1, slot);
  }
}
