/** Any number of owners nesting blocks of one reentrant lock, with leases, expiry and renewals. */
module ReentrantProtocol {
  import opened Wrappers
  import opened Redis
  import opened LockSpec

  /** `depth` is how many blocks each owner is inside of, and `leases` the time up to which each owner's
      last successful enter or renewal reaches. */
  datatype State = State(now: int, cell: Cell, depth: map<string, nat>, leases: map<string, int>)

  datatype Event =
    | Tick(ms: nat)
    | Enter(owner: string, timeout: int)
    | Renew(owner: string, timeout: int)
    | Exit(owner: string)

  const Init := State(0, None, map[], map[])

  function Depth(s: State, owner: string): nat {
    if owner in s.depth then s.depth[owner] else 0
  }

  function Record(owner: string, count: int, deadline: int): Cell {
    Some(Entry(Hash(map["owner" := Text(owner), "count" := Num(count)]), Some(deadline)))
  }

  predicate Enabled(s: State, e: Event) {
    && IsReentrant(s.cell)
    && (e.Exit? ==> Depth(s, e.owner) > 0)
  }

  function Next(s: State, e: Event): State
    requires Enabled(s, e)
  {
    match e
    case Tick(ms) => s.(now := s.now + ms, cell := Aged(s.cell, s.now + ms))
    case Enter(owner, timeout) =>
      var (cell, code) := ReentrantAcquire(s.cell, owner, s.now, timeout);
      if code == 0 then s
      else s.(cell := cell, depth := s.depth[owner := Depth(s, owner) + 1],
              leases := s.leases[owner := s.now + 1000 * timeout])
    case Renew(owner, timeout) =>
      var (cell, code) := ExtendReentrant(s.cell, owner, s.now, timeout);
      if code == 0 then s else s.(cell := cell, leases := s.leases[owner := s.now + 1000 * timeout])
    case Exit(owner) =>
      s.(cell := ReentrantRelease(s.cell, owner).0, depth := s.depth[owner := Depth(s, owner) - 1])
  }

  /** The stored record is `owner`'s, with this count. */
  predicate Owns(s: State, owner: string, count: int) {
    && s.cell.Some? && s.cell.value.deadline.Some?
    && s.cell == Record(owner, count, s.cell.value.deadline.value)
  }

  /** Always, lapses included: a stored record belongs to an owner that is inside, and never counts
      more blocks than it is inside of. */
  ghost predicate Bounded(s: State) {
    s.cell.Some? ==> exists owner, count :: Owns(s, owner, count) && 1 <= count <= Depth(s, owner)
  }

  lemma AcquireRecord(owner: string, count: int, deadline: int, now: int, timeout: int)
    ensures ReentrantAcquire(None, owner, now, timeout)
         == (if timeout > 0 then Record(owner, 1, now + 1000 * timeout) else None, 1)
    ensures ReentrantAcquire(Record(owner, count, deadline), owner, now, timeout)
         == (if timeout > 0 then Record(owner, count + 1, now + 1000 * timeout) else None, 1)
  {
    var fields := map["owner" := Text(owner), "count" := Num(count)];
    var first := map["owner" := Text(owner), "count" := Num(1)];
    assert FieldsOf(None) + first == first;
    assert fields["count" := Num(count + 1)] == map["owner" := Text(owner), "count" := Num(count + 1)];
  }

  lemma ReleaseRecord(owner: string, count: int, deadline: int)
    ensures ReentrantRelease(Record(owner, count, deadline), owner)
         == (if count <= 1 then None else Record(owner, count - 1, deadline), 1)
  {
    var fields := map["owner" := Text(owner), "count" := Num(count)];
    assert fields["count" := Num(count - 1)] == map["owner" := Text(owner), "count" := Num(count - 1)];
  }

  /** Whoever does not own the record changes nothing, by any operation. */
  lemma StrangersChangeNothing(s: State, e: Event, holder: string, count: int)
    requires Owns(s, holder, count) && Enabled(s, e) && !e.Tick? && e.owner != holder
    ensures Next(s, e).cell == s.cell
    ensures e.Exit? ==> ReentrantRelease(s.cell, e.owner).1 == 0
    ensures e.Enter? ==> Next(s, e) == s
  {
  }

  lemma HolderStep(s: State, e: Event, holder: string, count: int)
    requires Owns(s, holder, count) && Enabled(s, e) && !e.Tick? && e.owner == holder
    ensures var s' := Next(s, e);
      match e
      case Exit(_) => if count <= 1 then s'.cell == None else Owns(s', holder, count - 1)
      case Enter(_, timeout) => if timeout > 0 then Owns(s', holder, count + 1) else s'.cell == None
      case Renew(_, timeout) => if timeout > 0 then Owns(s', holder, count) else s'.cell == None
    ensures Next(s, e).depth == match e
      case Exit(_) => s.depth[holder := Depth(s, holder) - 1]
      case Enter(_, _) => s.depth[holder := Depth(s, holder) + 1]
      case Renew(_, _) => s.depth
  {
    var deadline := s.cell.value.deadline.value;
    ReleaseRecord(holder, count, deadline);
    if e.Enter? {
      AcquireRecord(holder, count, deadline, s.now, e.timeout);
    }
  }

  lemma FreeStep(s: State, e: Event)
    requires s.cell == None && Enabled(s, e) && !e.Tick?
    ensures var s' := Next(s, e);
      match e
      case Enter(owner, timeout) => if timeout > 0 then Owns(s', owner, 1) else s'.cell == None
      case _ => s'.cell == None
    ensures e.Enter? ==> Next(s, e).depth == s.depth[e.owner := Depth(s, e.owner) + 1]
    ensures e.Exit? ==> ReentrantRelease(s.cell, e.owner).1 == 0
  {
    if e.Enter? {
      AcquireRecord(e.owner, 0, 0, s.now, e.timeout);
    }
  }

  lemma BoundedStep(s: State, e: Event)
    requires Bounded(s) && Enabled(s, e)
    ensures Bounded(Next(s, e)) && IsReentrant(Next(s, e).cell)
  {
    var s' := Next(s, e);
    if s.cell.Some? {
      var holder, count :| Owns(s, holder, count) && 1 <= count <= Depth(s, holder);
      if e.Tick? {
        assert s'.cell.Some? ==> Owns(s', holder, count);
      } else if e.owner != holder {
        StrangersChangeNothing(s, e, holder, count);
        assert Owns(s', holder, count) && Depth(s', holder) == Depth(s, holder);
      } else {
        HolderStep(s, e, holder, count);
        assert s'.cell.Some? ==>
          Owns(s', holder, match e case Exit(_) => count - 1 case Enter(_, _) => count + 1 case Renew(_, _) => count);
      }
    } else if !e.Tick? {
      FreeStep(s, e);
      assert s'.cell.Some? ==> Owns(s', e.owner, 1);
    }
  }

  predicate Valid(s: State, run: seq<Event>)
    decreases |run|
  {
    run == [] || (Enabled(s, run[0]) && Valid(Next(s, run[0]), run[1..]))
  }

  function Run(s: State, run: seq<Event>): State
    requires Valid(s, run)
    decreases |run|
  {
    if run == [] then s else Run(Next(s, run[0]), run[1..])
  }

  lemma {:induction false} AlwaysBounded(s: State, run: seq<Event>)
    requires Bounded(s) && Valid(s, run)
    ensures Bounded(Run(s, run))
    decreases |run|
  {
    if run != [] {
      BoundedStep(s, run[0]);
      AlwaysBounded(Next(s, run[0]), run[1..]);
    }
  }

  /** In every run, lapses included, a stored record is owned by somebody inside, and no operation of
      anybody else, in particular no stale release, changes it. */
  lemma RecordIsSafe(run: seq<Event>, e: Event)
    requires Valid(Init, run) && Run(Init, run).cell.Some? && Enabled(Run(Init, run), e) && !e.Tick?
    ensures var s := Run(Init, run);
      exists holder, count ::
        && Owns(s, holder, count) && 1 <= count <= Depth(s, holder)
        && (e.owner != holder ==> Next(s, e).cell == s.cell && (e.Exit? ==> ReentrantRelease(s.cell, e.owner).1 == 0))
  {
    AlwaysBounded(Init, run);
    var s := Run(Init, run);
    var holder, count :| Owns(s, holder, count) && 1 <= count <= Depth(s, holder);
    if e.owner != holder {
      StrangersChangeNothing(s, e, holder, count);
    }
  }

  // Leases.

  /** A stored record lives exactly as long as its owner's last successful enter or renewal says. */
  predicate Leased(s: State, holder: string) {
    && s.cell.Some? && holder in s.leases
    && s.cell.value.deadline == Some(s.leases[holder]) && s.now <= s.leases[holder]
  }

  ghost predicate AllLeased(s: State) {
    forall holder, count :: Owns(s, holder, count) ==> Leased(s, holder)
  }

  lemma OneOwner(s: State, a: string, m: int, b: string, n: int)
    requires Owns(s, a, m) && Owns(s, b, n)
    ensures a == b && m == n
  {
    assert FieldsOf(s.cell)["owner"] == Text(a) && FieldsOf(s.cell)["owner"] == Text(b);
    assert FieldsOf(s.cell)["count"] == Num(m) && FieldsOf(s.cell)["count"] == Num(n);
  }

  /** The lease after a step of the holder or of the clock. */
  lemma HolderLease(s: State, e: Event, holder: string, count: int)
    requires Owns(s, holder, count) && Leased(s, holder) && Enabled(s, e) && (e.Tick? || e.owner == holder)
    requires Next(s, e).cell.Some?
    ensures Leased(Next(s, e), holder)
  {
    assert FieldsOf(s.cell)["owner"] == Text(holder);
  }

  lemma FreeLease(s: State, e: Event)
    requires s.cell == None && Enabled(s, e) && Next(s, e).cell.Some?
    ensures e.Enter? && Leased(Next(s, e), e.owner)
  {
    if e.Enter? {
      AcquireRecord(e.owner, 0, 0, s.now, e.timeout);
    }
  }

  lemma LeaseStep(s: State, e: Event)
    requires Bounded(s) && AllLeased(s) && Enabled(s, e)
    ensures AllLeased(Next(s, e))
  {
    var s' := Next(s, e);
    forall owner, count | Owns(s', owner, count) ensures Leased(s', owner) {
      if s.cell == None {
        FreeLease(s, e);
        FreeStep(s, e);
        OneOwner(s', owner, count, e.owner, 1);
      } else {
        var holder, n :| Owns(s, holder, n) && 1 <= n <= Depth(s, holder);
        assert FieldsOf(s.cell)["owner"] == Text(holder);
        if !e.Tick? && e.owner != holder {
          StrangersChangeNothing(s, e, holder, n);
          OneOwner(s', owner, count, holder, n);
        } else {
          HolderLease(s, e, holder, n);
          SameOwner(s, e, holder, n);
          assert FieldsOf(s'.cell)["owner"] == Text(owner);
        }
      }
    }
  }

  lemma SameOwner(s: State, e: Event, holder: string, count: int)
    requires Owns(s, holder, count) && Enabled(s, e) && (e.Tick? || e.owner == holder) && Next(s, e).cell.Some?
    ensures "owner" in FieldsOf(Next(s, e).cell) && FieldsOf(Next(s, e).cell)["owner"] == Text(holder)
  {
    if !e.Tick? {
      HolderStep(s, e, holder, count);
    }
  }

  lemma {:induction false} AlwaysLeased(s: State, run: seq<Event>)
    requires Bounded(s) && AllLeased(s) && Valid(s, run)
    ensures AllLeased(Run(s, run))
    decreases |run|
  {
    if run != [] {
      BoundedStep(s, run[0]);
      LeaseStep(s, run[0]);
      AlwaysLeased(Next(s, run[0]), run[1..]);
    }
  }

  /** In every run the stored deadline is the time of the owner's last successful enter or renewal plus
      its timeout, and has not passed. */
  lemma LeaseInForce(run: seq<Event>, holder: string, count: int)
    requires Valid(Init, run) && Owns(Run(Init, run), holder, count)
    ensures var s := Run(Init, run);
      holder in s.leases && s.cell == Record(holder, count, s.leases[holder]) && s.now <= s.leases[holder]
  {
    AlwaysLeased(Init, run);
  }

  /** A successful renewal moves the deadline, and an enter does too. */
  lemma RenewalMoves(s: State, holder: string, count: int, timeout: int)
    requires Owns(s, holder, count) && timeout > 0
    ensures Enabled(s, Renew(holder, timeout)) && Enabled(s, Enter(holder, timeout))
    ensures Next(s, Renew(holder, timeout)).cell == Record(holder, count, s.now + 1000 * timeout)
    ensures Next(s, Enter(holder, timeout)).cell == Record(holder, count + 1, s.now + 1000 * timeout)
  {
    AcquireRecord(holder, count, s.cell.value.deadline.value, s.now, timeout);
    assert FieldsOf(s.cell)["owner"] == Text(holder);
  }

  function Nested(count: int, e: Event, holder: string): int {
    match e
    case Enter(owner, _) => if owner == holder then count + 1 else count
    case Exit(owner) => if owner == holder then count - 1 else count
    case _ => count
  }

  function NestedAll(count: int, run: seq<Event>, holder: string): int
    decreases |run|
  {
    if run == [] then count else NestedAll(Nested(count, run[0], holder), run[1..], holder)
  }

  /** Time never passes the holder's lease in force, the holder asks for positive timeouts, and it never
      leaves its outermost block. */
  predicate OnTime(s: State, run: seq<Event>, holder: string, count: int)
    requires Valid(s, run)
    decreases |run|
  {
    run != [] ==>
      && (match run[0]
          case Tick(ms) => holder in s.leases && s.now + ms <= s.leases[holder]
          case Enter(owner, timeout) => owner == holder ==> timeout > 0
          case Renew(owner, timeout) => owner == holder ==> timeout > 0
          case Exit(owner) => owner == holder ==> count > 1)
      && OnTime(Next(s, run[0]), run[1..], holder, Nested(count, run[0], holder))
  }

  lemma OnTimeStep(s: State, e: Event, holder: string, count: int)
    requires Owns(s, holder, count) && Leased(s, holder) && Valid(s, [e]) && OnTime(s, [e], holder, count)
    ensures Owns(Next(s, e), holder, Nested(count, e, holder))
  {
    assert [e][1..] == [];
    if !e.Tick? {
      if e.owner == holder {
        HolderStep(s, e, holder, count);
      } else {
        StrangersChangeNothing(s, e, holder, count);
      }
    }
  }

  /** If every renewal lands before the lease in force ends, the record stays through the run, counting
      the blocks the holder enters and leaves. */
  lemma {:induction false} NeverLapses(s: State, run: seq<Event>, holder: string, count: int)
    requires Bounded(s) && AllLeased(s) && Owns(s, holder, count) && Valid(s, run) && OnTime(s, run, holder, count)
    ensures Owns(Run(s, run), holder, NestedAll(count, run, holder))
    decreases |run|
  {
    if run != [] {
      BoundedStep(s, run[0]);
      LeaseStep(s, run[0]);
      OnTimeStep(s, run[0], holder, count);
      NeverLapses(Next(s, run[0]), run[1..], holder, Nested(count, run[0], holder));
    }
  }

  /** The key exists exactly while one owner is inside, its count is that owner's nesting depth, and
      nobody else is inside. */
  ghost predicate Exact(s: State) {
    if s.cell == None then forall o :: Depth(s, o) == 0
    else exists holder :: ExactFor(s, holder)
  }

  ghost predicate ExactFor(s: State, holder: string) {
    && Depth(s, holder) > 0 && Owns(s, holder, Depth(s, holder))
    && forall o :: o != holder ==> Depth(s, o) == 0
  }

  /** No lease lapses, and whoever gets in or renews asks for a positive timeout. */
  predicate Safe(s: State, e: Event)
    requires IsReentrant(s.cell)
  {
    match e
    case Tick(ms) => Aged(s.cell, s.now + ms) == s.cell
    case Enter(owner, timeout) => timeout > 0 || ReentrantAcquire(s.cell, owner, s.now, timeout).1 == 0
    case Renew(owner, timeout) => timeout > 0 || ExtendReentrant(s.cell, owner, s.now, timeout).1 == 0
    case Exit(_) => true
  }

  /** One step keeps the bookkeeping exact precisely when no lease lapses in it. */
  lemma ExactStep(s: State, e: Event)
    requires Exact(s) && Enabled(s, e)
    ensures Exact(Next(s, e)) <==> Safe(s, e)
  {
    var s' := Next(s, e);
    assert forall o :: e.Tick? || o != e.owner ==> Depth(s', o) == Depth(s, o);
    if s.cell == None {
      if !e.Tick? {
        FreeStep(s, e);
        assert e.Enter? ==> Depth(s', e.owner) == 1;
        assert e.Enter? && e.timeout > 0 ==> ExactFor(s', e.owner);
      }
    } else {
      var holder :| ExactFor(s, holder);
      if e.Tick? {
        assert Depth(s', holder) > 0;
        assert s'.cell.Some? ==> ExactFor(s', holder);
      } else if e.owner != holder {
        StrangersChangeNothing(s, e, holder, Depth(s, holder));
        assert s' == s;
      } else {
        HolderStep(s, e, holder, Depth(s, holder));
        assert s'.cell.Some? ==> ExactFor(s', holder);
      }
    }
  }

  predicate NoLapse(s: State, run: seq<Event>)
    requires Valid(s, run)
    decreases |run|
  {
    run != [] ==> Safe(s, run[0]) && NoLapse(Next(s, run[0]), run[1..])
  }

  /** While no lease lapses the count is the holder's depth, and nobody else is or gets inside. */
  lemma {:induction false} AlwaysExact(s: State, run: seq<Event>)
    requires Exact(s) && Valid(s, run) && NoLapse(s, run)
    ensures Exact(Run(s, run))
    decreases |run|
  {
    if run != [] {
      ExactStep(s, run[0]);
      AlwaysExact(Next(s, run[0]), run[1..]);
    }
  }

  /** Hence while no lease lapses every release succeeds. */
  lemma ReleasesSucceed(run: seq<Event>, owner: string)
    requires Valid(Init, run) && NoLapse(Init, run) && Enabled(Run(Init, run), Exit(owner))
    ensures ReentrantRelease(Run(Init, run).cell, owner).1 == 1
  {
    AlwaysExact(Init, run);
    var s := Run(Init, run);
    if s.cell != None {
      var holder :| ExactFor(s, holder);
    }
  }
}
