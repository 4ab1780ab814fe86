/** Any number of clients using one lock name: basic locks, or readers and writers, with leases,
    expiry, stale releases, and a watchdog for every holder.  Each event is one atomic server step
    or one step of a client thread; every interleaving is a run. */
module LockProtocol {
  import opened Wrappers
  import opened Redis
  import opened LockSpec
  import W = Watchdog

  /** One `with` block, keyed by its unique owner token.  `lease` is the server time up to which the
      last successful acquire or renewal reaches; `late` counts renewals attempted after the release. */
  datatype Session =
    | Reader(lease: int)
    | Left
    | Writer(lease: int, timeout: int, released: bool, watch: W.Watch, late: nat)

  datatype State = State(now: int, readers: Cell, lock: Cell, sessions: map<string, Session>)

  datatype Event =
    | Tick(ms: nat)
    | LockEnter(token: string, timeout: int, renewing: bool)
    | WriteEnter(token: string, timeout: int, renewing: bool)
    | ReadEnter(token: string, timeout: int)
    | ReadExit(token: string)
    | Watching(token: string, act: W.Act)
    | Leave(token: string)

  const Init := State(0, None, None, map[])

  predicate IsWriter(s: State, token: string) {
    token in s.sessions && s.sessions[token].Writer?
  }

  predicate InBlock(s: State, token: string) {
    IsWriter(s, token) && !s.sessions[token].released
  }

  predicate Reading(s: State, token: string) {
    token in s.sessions && s.sessions[token].Reader?
  }

  function ReadersIn(s: State): set<string> {
    set token | token in s.sessions && s.sessions[token].Reader?
  }

  /** Tokens are fresh; a renewal gets the answer the server gives; leaving follows `cancel`. */
  predicate Enabled(s: State, e: Event) {
    match e
    case Tick(_) => true
    case LockEnter(token, timeout, _) => token !in s.sessions && timeout > 0
    case WriteEnter(token, timeout, _) => token !in s.sessions && timeout > 0 && IsCounter(s.readers, "readers")
    case ReadEnter(token, timeout) => token !in s.sessions && IsCounter(s.readers, "readers")
    case ReadExit(token) => Reading(s, token) && IsCounter(s.readers, "readers")
    case Watching(token, a) =>
      && IsWriter(s, token) && W.Enabled(s.sessions[token].watch, a)
      && (a.Renew? ==> a.ok == (RenewResult(s, token).1 == 1))
    case Leave(token) => InBlock(s, token) && s.sessions[token].watch.main.Done?
  }

  function RenewResult(s: State, token: string): (Cell, int)
    requires IsWriter(s, token)
  {
    Extend(s.lock, token, s.now, s.sessions[token].timeout)
  }

  function Entered(s: State, result: (Cell, int), token: string, timeout: int, renewing: bool): State {
    var (cell, code) := result;
    if code == 0 then s
    else
      var watch := if renewing then W.Started else W.Off;
      s.(lock := cell, sessions := s.sessions[token := Writer(s.now + 1000 * timeout, timeout, false, watch, 0)])
  }

  function Next(s: State, e: Event): State
    requires Enabled(s, e)
  {
    match e
    case Tick(ms) => s.(now := s.now + ms, readers := Aged(s.readers, s.now + ms), lock := Aged(s.lock, s.now + ms))
    case LockEnter(token, timeout, renewing) =>
      Entered(s, SetNx(s.lock, token, s.now, timeout), token, timeout, renewing)
    case WriteEnter(token, timeout, renewing) =>
      Entered(s, WriteAcquire(s.readers, s.lock, token, s.now, timeout), token, timeout, renewing)
    case ReadEnter(token, timeout) =>
      var (cell, code) := ReadAcquire(s.readers, s.lock, s.now, timeout);
      if code == 0 then s
      else s.(readers := cell, sessions := s.sessions[token := Reader(s.now + 1000 * timeout)])
    case ReadExit(token) =>
      s.(readers := ReadRelease(s.readers), sessions := s.sessions[token := Left])
    case Watching(token, a) =>
      var session := s.sessions[token];
      var after := session.(watch := W.Next(session.watch, a));
      if !a.Renew? then s.(sessions := s.sessions[token := after])
      else
        var lease := if a.ok then s.now + 1000 * session.timeout else session.lease;
        var late := if session.released then session.late + 1 else session.late;
        s.(lock := RenewResult(s, token).0, sessions := s.sessions[token := after.(lease := lease, late := late)])
    case Leave(token) =>
      s.(lock := Release(s.lock, token).0, sessions := s.sessions[token := s.sessions[token].(released := true)])
  }

  predicate Valid(s: State, run: seq<Event>)
    decreases |run|
  {
    run == [] || (Enabled(s, run[0]) && Valid(Next(s, run[0]), run[1..]))
  }

  function Run(s: State, run: seq<Event>): State
    requires Valid(s, run)
    decreases |run|
  {
    if run == [] then s else Run(Next(s, run[0]), run[1..])
  }

  // Part 1: leases.

  /** The stored record belongs to a block that has not been left, carries that block's lease, and
      every block whose lease has not ended is the stored one. */
  ghost predicate Leased(s: State) {
    && (s.lock.Some? ==> exists token :: Stored(s, token))
    && (forall token :: InBlock(s, token) && s.now <= s.sessions[token].lease ==> Stored(s, token))
  }

  predicate Stored(s: State, token: string) {
    InBlock(s, token) && s.lock == Held(token, s.sessions[token].lease) && s.now <= s.sessions[token].lease
  }

  predicate Watched(session: Session) {
    session.Writer? ==>
      && session.timeout > 0
      && W.Inv(session.watch)
      && (session.released ==> session.watch.main.Done?)
      && (!session.released ==> session.late == 0)
      && session.late <= 1
      && (session.late == 1 ==> W.Dead(session.watch))
  }

  ghost predicate Inv(s: State) {
    Leased(s) && forall token :: token in s.sessions ==> Watched(s.sessions[token])
  }

  lemma StoredIsUnique(s: State, a: string, b: string)
    requires Stored(s, a) && Stored(s, b)
    ensures a == b
  {
  }

  lemma EnterLeased(s: State, e: Event)
    requires Inv(s) && Enabled(s, e) && (e.LockEnter? || e.WriteEnter?)
    ensures Leased(Next(s, e))
  {
    var s' := Next(s, e);
    if s' != s {
      assert s.lock == None && Stored(s', e.token);
    }
  }

  lemma HeldLeased(s: State, e: Event)
    requires Inv(s) && Enabled(s, e) && (e.Watching? || e.Leave?)
    ensures Leased(Next(s, e))
  {
    var s' := Next(s, e);
    if s.lock.Some? {
      var holder :| Stored(s, holder);
      assert s'.lock.Some? ==> Stored(s', holder);
    }
  }

  lemma LeasedStep(s: State, e: Event)
    requires Inv(s) && Enabled(s, e)
    ensures Leased(Next(s, e))
  {
    if e.LockEnter? || e.WriteEnter? {
      EnterLeased(s, e);
    } else if e.Watching? || e.Leave? {
      HeldLeased(s, e);
    } else if s.lock.Some? {
      var holder :| Stored(s, holder);
      assert Next(s, e).lock.Some? ==> Stored(Next(s, e), holder);
    }
  }

  lemma WatchedStep(s: State, e: Event, token: string)
    requires Inv(s) && Enabled(s, e) && token in Next(s, e).sessions
    ensures Watched(Next(s, e).sessions[token])
  {
    W.StartInv();
    if e.Watching? && e.token == token {
      var watch := s.sessions[token].watch;
      W.InvStep(watch, e.act);
      if W.Dead(watch) {
        W.DeadStays(watch, e.act);
      } else if e.act.Renew? && s.sessions[token].released {
        assert !e.act.ok;
        W.RefusalEndsChain(watch, e.act.i);
      }
    }
  }

  lemma InvStep(s: State, e: Event)
    requires Inv(s) && Enabled(s, e)
    ensures Inv(Next(s, e))
  {
    LeasedStep(s, e);
    forall token | token in Next(s, e).sessions ensures Watched(Next(s, e).sessions[token]) {
      WatchedStep(s, e, token);
    }
  }

  lemma {:induction false} AlwaysInv(s: State, run: seq<Event>)
    requires Inv(s) && Valid(s, run)
    ensures Inv(Run(s, run))
    decreases |run|
  {
    if run != [] {
      InvStep(s, run[0]);
      AlwaysInv(Next(s, run[0]), run[1..]);
    }
  }

  /** In every run, a block whose lease has not ended is the stored owner, so there is at most one. */
  lemma LeaseSafety(run: seq<Event>, a: string, b: string)
    requires Valid(Init, run)
    requires var s := Run(Init, run);
      InBlock(s, a) && s.now <= s.sessions[a].lease && InBlock(s, b) && s.now <= s.sessions[b].lease
    ensures a == b
    ensures Run(Init, run).lock == Held(a, Run(Init, run).sessions[a].lease)
  {
    AlwaysInv(Init, run);
    StoredIsUnique(Run(Init, run), a, b);
  }

  /** The release of a block succeeds, and a renewal for it succeeds, exactly while its lease lasts. */
  lemma VerdictsAreLeases(run: seq<Event>, token: string)
    requires Valid(Init, run) && IsWriter(Run(Init, run), token)
    ensures var s := Run(Init, run);
      && (InBlock(s, token) ==> (Release(s.lock, token).1 == 1 <==> s.now <= s.sessions[token].lease))
      && (RenewResult(s, token).1 == 1 <==> InBlock(s, token) && s.now <= s.sessions[token].lease)
  {
    AlwaysInv(Init, run);
    var s := Run(Init, run);
    if s.lock.Some? {
      var holder :| Stored(s, holder);
    }
  }

  /** While a block's record is stored, only that block's own release or renewal, or time passing its
      deadline, changes it: no stale release or renewal of anybody else does. */
  lemma OnlyHolderChangesRecord(s: State, e: Event, holder: string)
    requires Inv(s) && Stored(s, holder) && Enabled(s, e) && Next(s, e).lock != s.lock
    ensures match e
      case Leave(token) => token == holder
      case Watching(token, a) => token == holder && a.Renew?
      case Tick(ms) => s.now + ms > s.sessions[holder].lease
      case _ => false
  {
  }

  /** An attempt gets in exactly if no record stands in its way, and its lease then starts anew: a free
      basic lock is entered, a writer needs no writer and no reader, a reader needs no writer. */
  lemma EntersIff(run: seq<Event>, token: string, timeout: int, renewing: bool)
    requires Valid(Init, run) && timeout > 0 && token !in Run(Init, run).sessions
    requires IsCounter(Run(Init, run).readers, "readers")
    ensures var s := Run(Init, run);
      && (InBlock(Next(s, LockEnter(token, timeout, renewing)), token) <==> s.lock == None)
      && (InBlock(Next(s, WriteEnter(token, timeout, renewing)), token)
          <==> s.lock == None && CountOf(s.readers, "readers") <= 0)
      && (Reading(Next(s, ReadEnter(token, timeout)), token) <==> s.lock == None)
      && (s.lock == None ==>
            Next(s, LockEnter(token, timeout, renewing)).lock == Held(token, s.now + 1000 * timeout))
  {
  }

  /** Time never passes the current lease of `token`, and its block is not left. */
  predicate OnTime(s: State, run: seq<Event>, token: string)
    requires Valid(s, run)
    decreases |run|
  {
    run != [] ==>
      && (run[0].Tick? ==> IsWriter(s, token) && s.now + run[0].ms <= s.sessions[token].lease)
      && run[0] != Leave(token)
      && OnTime(Next(s, run[0]), run[1..], token)
  }

  /** If every renewal lands before the lease in force ends, the lease never lapses. */
  lemma {:induction false} NeverLapses(s: State, run: seq<Event>, token: string)
    requires Inv(s) && Stored(s, token) && Valid(s, run) && OnTime(s, run, token)
    ensures Stored(Run(s, run), token)
    decreases |run|
  {
    if run != [] {
      InvStep(s, run[0]);
      assert InBlock(Next(s, run[0]), token);
      NeverLapses(Next(s, run[0]), run[1..], token);
    }
  }

  /** After a block was released no renewal for it succeeds, at most one more is attempted, and that
      attempt ends its chain of timers. */
  lemma NoLateRenewal(run: seq<Event>, token: string)
    requires Valid(Init, run)
    requires IsWriter(Run(Init, run), token) && Run(Init, run).sessions[token].released
    ensures var s := Run(Init, run);
      var session := s.sessions[token];
      && RenewResult(s, token) == (s.lock, 0)
      && session.late <= 1
      && (session.late == 1 ==> W.Dead(session.watch))
      && (session.watch.main == W.Done(false) ==> session.late == 0)
  {
    AlwaysInv(Init, run);
    VerdictsAreLeases(run, token);
    QuietRun(Init, run, token);
  }

  /** A block whose `cancel` met no renewal under way sees no renewal attempt after its release. */
  predicate Quiet(s: State, token: string) {
    IsWriter(s, token) && s.sessions[token].watch.main == W.Done(false) ==> s.sessions[token].late == 0
  }

  lemma {:induction false} QuietRun(s: State, run: seq<Event>, token: string)
    requires Inv(s) && Valid(s, run) && Quiet(s, token)
    ensures Quiet(Run(s, run), token)
    decreases |run|
  {
    if run != [] {
      InvStep(s, run[0]);
      QuietRun(Next(s, run[0]), run[1..], token);
    }
  }

  // Part 2: readers and writers.

  /** The reader count, as the scripts store it. */
  function Counted(n: int, deadline: Option<int>): Cell {
    Some(Entry(Hash(map["readers" := Num(n)]), deadline))
  }

  lemma CountUp(n: nat, deadline: Option<int>, now: int, timeout: int)
    ensures var before := if n == 0 then None else Counted(n, deadline);
      ReadAcquire(before, None, now, timeout)
      == (if timeout > 0 then Counted(n + 1, Some(now + 1000 * timeout)) else None, 1)
  {
    var before := if n == 0 then None else Counted(n, deadline);
    assert FieldsOf(before)["readers" := Num(n + 1)] == map["readers" := Num(n + 1)];
  }

  lemma CountDown(n: nat, deadline: Option<int>)
    requires n > 0
    ensures ReadRelease(Counted(n, deadline)) == if n == 1 then None else Counted(n - 1, deadline)
  {
    var fields := FieldsOf(Counted(n, deadline));
    assert fields - {"readers"} == map[];
    assert fields["readers" := Num(n - 1)] == map["readers" := Num(n - 1)];
  }

  /** The `readers` field is the number of readers inside, and while it is positive no writer is stored. */
  predicate Exact(s: State) {
    var n := |ReadersIn(s)|;
    if n == 0 then s.readers == None
    else s.readers == Counted(n, Some(SharedDeadline(s))) && s.lock == None && s.now <= SharedDeadline(s)
  }

  function SharedDeadline(s: State): int {
    if DeadlineOf(s.readers).Some? then DeadlineOf(s.readers).value else 0
  }

  /** Time does not pass the shared deadline while a reader is inside, and a reader that gets in asks
      for a positive timeout. */
  predicate Safe(s: State, e: Event) {
    match e
    case Tick(ms) => ReadersIn(s) == {} || s.now + ms <= SharedDeadline(s)
    case ReadEnter(_, timeout) => s.lock.Some? || timeout > 0
    case _ => true
  }

  lemma ReaderEntered(s: State, token: string, timeout: int)
    requires Enabled(s, ReadEnter(token, timeout))
    ensures var before, after := ReadersIn(s), ReadersIn(Next(s, ReadEnter(token, timeout)));
      && after == (if s.lock.Some? then before else before + {token})
      && |after| == (if s.lock.Some? then |before| else |before| + 1)
  {
  }

  lemma ReaderLeft(s: State, token: string)
    requires Enabled(s, ReadExit(token))
    ensures var before, after := ReadersIn(s), ReadersIn(Next(s, ReadExit(token)));
      after == before - {token} && |after| == |before| - 1
  {
  }

  lemma ReadersStay(s: State, e: Event)
    requires Enabled(s, e) && !e.ReadEnter? && !e.ReadExit?
    ensures ReadersIn(Next(s, e)) == ReadersIn(s)
  {
  }

  lemma ReadEnterExact(s: State, token: string, timeout: int)
    requires Exact(s) && Enabled(s, ReadEnter(token, timeout))
    ensures Exact(Next(s, ReadEnter(token, timeout))) <==> Safe(s, ReadEnter(token, timeout))
  {
    ReaderEntered(s, token, timeout);
    CountUp(|ReadersIn(s)|, DeadlineOf(s.readers), s.now, timeout);
  }

  lemma ReadExitExact(s: State, token: string)
    requires Exact(s) && Enabled(s, ReadExit(token))
    ensures Exact(Next(s, ReadExit(token)))
  {
    ReaderLeft(s, token);
    assert token in ReadersIn(s);
    CountDown(|ReadersIn(s)|, DeadlineOf(s.readers));
  }

  /** One step of the read-write protocol keeps the exclusion exactly when it is safe in the sense above. */
  lemma ExactStep(s: State, e: Event)
    requires Exact(s) && Enabled(s, e) && !e.LockEnter?
    ensures Exact(Next(s, e)) <==> Safe(s, e)
  {
    match e
    case ReadExit(token) => ReadExitExact(s, token);
    case ReadEnter(token, timeout) => ReadEnterExact(s, token, timeout);
    case _ => ReadersStay(s, e);
  }

  /** Every reader inside has a lease that the shared deadline covers. */
  predicate Covered(s: State) {
    forall token :: token in ReadersIn(s) ==> s.sessions[token].lease <= SharedDeadline(s)
  }

  /** A new reader keeps everyone covered exactly when its own lease ends no earlier than theirs. */
  lemma CoverExact(s: State, token: string, timeout: int)
    requires Exact(s) && Covered(s) && Enabled(s, ReadEnter(token, timeout)) && s.lock == None && timeout > 0
    ensures Covered(Next(s, ReadEnter(token, timeout))) <==>
      forall other :: other in ReadersIn(s) ==> s.sessions[other].lease <= s.now + 1000 * timeout
  {
    var s' := Next(s, ReadEnter(token, timeout));
    ReaderEntered(s, token, timeout);
    forall other | other in ReadersIn(s) ensures other in ReadersIn(s') && s'.sessions[other] == s.sessions[other] {
    }
  }

  /** All readers use one timeout, and each leaves before its own time is up; writers may overrun. */
  predicate Timely(s: State, run: seq<Event>, timeout: int)
    requires Valid(s, run)
    decreases |run|
  {
    run != [] ==>
      && (match run[0]
          case Tick(ms) => forall token :: token in ReadersIn(s) ==> s.now + ms <= s.sessions[token].lease
          case ReadEnter(_, t) => t == timeout
          case LockEnter(_, _, _) => false
          case _ => true)
      && Timely(Next(s, run[0]), run[1..], timeout)
  }

  predicate Bounded(s: State, timeout: int) {
    forall token :: token in ReadersIn(s) ==> s.sessions[token].lease <= s.now + 1000 * timeout
  }

  lemma {:induction false} ExclusionFrom(s: State, run: seq<Event>, timeout: int)
    requires timeout > 0 && Exact(s) && Covered(s) && Bounded(s, timeout)
    requires Valid(s, run) && Timely(s, run, timeout)
    ensures Exact(Run(s, run)) && Covered(Run(s, run))
    decreases |run|
  {
    if run != [] {
      var e, s' := run[0], Next(s, run[0]);
      match e {
        case ReadEnter(token, t) => ReaderEntered(s, token, t);
        case ReadExit(token) => ReaderLeft(s, token);
        case _ => ReadersStay(s, e);
      }
      if e.Tick? && ReadersIn(s) != {} {
        var token :| token in ReadersIn(s);
        assert s.now + e.ms <= SharedDeadline(s);
      }
      ExactStep(s, e);
      if e.ReadEnter? && s.lock == None {
        CoverExact(s, e.token, timeout);
      } else {
        assert forall token :: token in ReadersIn(s') ==>
          token in ReadersIn(s) && s'.sessions[token] == s.sessions[token];
      }
      ExclusionFrom(s', run[1..], timeout);
    }
  }

  /** Read-write exclusion: with one reader timeout and punctual readers, the count is exact in every
      reachable state, and a reader inside excludes every stored writer, hence every unexpired one. */
  lemma ReadWriteExclusion(run: seq<Event>, timeout: int)
    requires timeout > 0 && Valid(Init, run) && Timely(Init, run, timeout)
    ensures var s := Run(Init, run);
      && Exact(s)
      && (ReadersIn(s) != {} ==> s.lock == None)
      && (ReadersIn(s) != {} ==> forall token :: InBlock(s, token) ==> s.sessions[token].lease < s.now)
  {
    assert ReadersIn(Init) == {};
    ExclusionFrom(Init, run, timeout);
    AlwaysInv(Init, run);
  }

  // Both hypotheses are needed.

  /** Differing timeouts: a reader with a shorter one pulls the shared deadline in, and a writer then
      gets in beside a reader whose own lease has not ended. */
  lemma ShorterTimeoutBreaks()
    ensures var run := [ReadEnter("a", 10), ReadEnter("b", 1), Tick(500), ReadExit("b"), Tick(1000),
                        WriteEnter("w", 10, false)];
      && Valid(Init, run)
      && var s := Run(Init, run);
        Reading(s, "a") && s.now < s.sessions["a"].lease && Stored(s, "w")
  {
  }

  /** An overrun reader: its late release takes away the count of a reader still within its lease. */
  lemma OverrunReaderBreaks()
    ensures var run := [ReadEnter("a", 1), Tick(1500), ReadEnter("b", 1), ReadExit("a"), WriteEnter("w", 1, false)];
      && Valid(Init, run)
      && var s := Run(Init, run);
        Reading(s, "b") && s.now < s.sessions["b"].lease && Stored(s, "w")
  {
  }
}
