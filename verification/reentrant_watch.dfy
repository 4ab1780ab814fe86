/** The blocks of a reentrant lock with their watchdogs: every block of an owner has a renewal chain of
    its own, and all of them renew the one record of that owner. */
module ReentrantWatchdog {
  import opened Wrappers
  import opened Redis
  import opened LockSpec
  import P = ReentrantProtocol
  import W = Watchdog

  /** One `with` block; `late` counts the renewals that succeeded after its release. */
  datatype Block = Block(owner: string, timeout: int, released: bool, watch: W.Watch, late: nat)

  datatype State = State(base: P.State, blocks: map<string, Block>)

  datatype Event =
    | Tick(ms: nat)
    | Enter(id: string, owner: string, timeout: int, renewing: bool)
    | Watching(id: string, act: W.Act)
    | Leave(id: string)

  const Init := State(P.Init, map[])

  /** The stored record is this owner's. */
  predicate Recorded(s: State, owner: string) {
    IsReentrant(s.base.cell) && Owner(s.base.cell) == Some(Text(owner))
  }

  /** A renewal gets the answer of its script, and leaving follows `cancel`. */
  predicate Enabled(s: State, e: Event) {
    && IsReentrant(s.base.cell)
    && match e
       case Tick(_) => true
       case Enter(id, _, _, _) => id !in s.blocks
       case Watching(id, a) =>
         && id in s.blocks && W.Enabled(s.blocks[id].watch, a)
         && (a.Renew? ==> a.ok == (Renewal(s, s.blocks[id]) == 1))
       case Leave(id) =>
         && id in s.blocks && !s.blocks[id].released && s.blocks[id].watch.main.Done?
         && P.Depth(s.base, s.blocks[id].owner) > 0
  }

  function Renewal(s: State, block: Block): int
    requires IsReentrant(s.base.cell)
  {
    ExtendReentrant(s.base.cell, block.owner, s.base.now, block.timeout).1
  }

  /** The script an event runs, or the passing of time. */
  function Effect(s: State, e: Event): Option<P.Event>
    requires Enabled(s, e)
  {
    match e
    case Tick(ms) => Some(P.Tick(ms))
    case Enter(_, owner, timeout, _) => Some(P.Enter(owner, timeout))
    case Watching(id, a) =>
      if a.Renew? then Some(P.Renew(s.blocks[id].owner, s.blocks[id].timeout)) else None
    case Leave(id) => Some(P.Exit(s.blocks[id].owner))
  }

  function Blocks(s: State, e: Event): map<string, Block>
    requires Enabled(s, e)
  {
    match e
    case Tick(_) => s.blocks
    case Enter(id, owner, timeout, renewing) =>
      if ReentrantAcquire(s.base.cell, owner, s.base.now, timeout).1 == 0 then s.blocks
      else s.blocks[id := Block(owner, timeout, false, if renewing then W.Started else W.Off, 0)]
    case Watching(id, a) =>
      var block := s.blocks[id];
      var late := if a.Renew? && a.ok && block.released then block.late + 1 else block.late;
      s.blocks[id := block.(watch := W.Next(block.watch, a), late := late)]
    case Leave(id) => s.blocks[id := s.blocks[id].(released := true)]
  }

  function Next(s: State, e: Event): State
    requires Enabled(s, e)
  {
    var effect := Effect(s, e);
    State(if effect.Some? then P.Next(s.base, effect.value) else s.base, Blocks(s, e))
  }

  predicate Valid(s: State, run: seq<Event>)
    decreases |run|
  {
    run == [] || (Enabled(s, run[0]) && Valid(Next(s, run[0]), run[1..]))
  }

  function Run(s: State, run: seq<Event>): State
    requires Valid(s, run)
    decreases |run|
  {
    if run == [] then s else Run(Next(s, run[0]), run[1..])
  }

  /** The blocks this owner is inside of. */
  function Inside(s: State, owner: string): set<string> {
    set id | id in s.blocks && s.blocks[id].owner == owner && !s.blocks[id].released
  }

  predicate Watched(block: Block) {
    && W.Inv(block.watch)
    && (block.released ==> block.watch.main.Done?)
    && (block.late > 0 ==> block.released && block.watch.main == W.Done(true))
  }

  ghost predicate Counted(s: State) {
    forall owner :: P.Depth(s.base, owner) == |Inside(s, owner)|
  }

  ghost predicate Inv(s: State) {
    P.Bounded(s.base) && Counted(s) && forall id :: id in s.blocks ==> Watched(s.blocks[id])
  }

  lemma WatchedStep(s: State, e: Event, id: string)
    requires Inv(s) && Enabled(s, e) && id in Next(s, e).blocks
    ensures Watched(Next(s, e).blocks[id])
  {
    W.StartInv();
    if e.Watching? && e.id == id {
      WatchedAct(s.blocks[id], e.act);
    }
  }

  lemma WatchedAct(block: Block, a: W.Act)
    requires Watched(block) && W.Enabled(block.watch, a)
    ensures W.Inv(W.Next(block.watch, a))
    ensures block.watch.main.Done? ==> W.Next(block.watch, a).main == block.watch.main
    ensures a.Renew? ==> block.watch.main != W.Done(false)
  {
    W.InvStep(block.watch, a);
    if a.Renew? {
      assert W.Live(block.watch.timers[a.i]) && W.Renewing(block.watch.timers[a.i]);
    }
  }

  lemma EnterCounted(s: State, e: Event, owner: string)
    requires Counted(s) && Enabled(s, e) && e.Enter?
    ensures P.Depth(Next(s, e).base, owner) == |Inside(Next(s, e), owner)|
  {
    var before, after := Inside(s, owner), Inside(Next(s, e), owner);
    assert P.Depth(s.base, owner) == |before|;
    if Blocks(s, e) == s.blocks || owner != e.owner {
      assert after == before;
    } else {
      assert after == before + {e.id};
    }
  }

  lemma LeaveCounted(s: State, e: Event, owner: string)
    requires Counted(s) && Enabled(s, e) && e.Leave?
    ensures P.Depth(Next(s, e).base, owner) == |Inside(Next(s, e), owner)|
  {
    var before, after := Inside(s, owner), Inside(Next(s, e), owner);
    assert P.Depth(s.base, owner) == |before|;
    if owner == s.blocks[e.id].owner {
      assert after == before - {e.id} && e.id in before;
    } else {
      assert after == before;
    }
  }

  lemma CountedStep(s: State, e: Event, owner: string)
    requires Counted(s) && Enabled(s, e)
    ensures P.Depth(Next(s, e).base, owner) == |Inside(Next(s, e), owner)|
  {
    match e
    case Enter(_, _, _, _) => EnterCounted(s, e, owner);
    case Leave(_) => LeaveCounted(s, e, owner);
    case _ => assert Inside(Next(s, e), owner) == Inside(s, owner);
  }

  lemma InvStep(s: State, e: Event)
    requires Inv(s) && Enabled(s, e)
    ensures Inv(Next(s, e))
  {
    if Effect(s, e).Some? {
      P.BoundedStep(s.base, Effect(s, e).value);
    }
    forall owner ensures P.Depth(Next(s, e).base, owner) == |Inside(Next(s, e), owner)| {
      CountedStep(s, e, owner);
    }
    forall id | id in Next(s, e).blocks ensures Watched(Next(s, e).blocks[id]) {
      WatchedStep(s, e, id);
    }
  }

  lemma {:induction false} AlwaysInv(s: State, run: seq<Event>)
    requires Inv(s) && Valid(s, run)
    ensures Inv(Run(s, run))
    decreases |run|
  {
    if run != [] {
      InvStep(s, run[0]);
      AlwaysInv(Next(s, run[0]), run[1..]);
    }
  }

  lemma InitInv()
    ensures Inv(Init)
  {
    forall owner ensures Inside(Init, owner) == {} {
    }
  }

  /** In every run an owner's depth is the number of blocks it is inside of. */
  lemma DepthIsBlocks(run: seq<Event>, owner: string)
    requires Valid(Init, run)
    ensures P.Depth(Run(Init, run).base, owner) == |Inside(Run(Init, run), owner)|
  {
    InitInv();
    AlwaysInv(Init, run);
  }

  /** Leaving is possible as soon as `cancel` is done. */
  lemma MayLeave(run: seq<Event>, id: string)
    requires Valid(Init, run) && id in Run(Init, run).blocks
    requires var block := Run(Init, run).blocks[id];
      !block.released && block.watch.main.Done?
    ensures Enabled(Run(Init, run), Leave(id))
  {
    InitInv();
    AlwaysInv(Init, run);
    var s := Run(Init, run);
    assert id in Inside(s, s.blocks[id].owner);
  }

  /** What the run does to the record. */
  function Effects(s: State, run: seq<Event>): seq<P.Event>
    requires Valid(s, run)
    decreases |run|
  {
    if run == [] then []
    else
      var effect := Effect(s, run[0]);
      (if effect.Some? then [effect.value] else []) + Effects(Next(s, run[0]), run[1..])
  }

  /** So the record goes through a run of the protocol without watchdogs. */
  lemma {:induction false} Projects(s: State, run: seq<Event>)
    requires Valid(s, run)
    ensures P.Valid(s.base, Effects(s, run)) && P.Run(s.base, Effects(s, run)) == Run(s, run).base
    decreases |run|
  {
    if run != [] {
      var effect, rest := Effect(s, run[0]), Effects(Next(s, run[0]), run[1..]);
      Projects(Next(s, run[0]), run[1..]);
      if effect.Some? {
        assert ([effect.value] + rest)[1..] == rest;
      } else {
        assert [] + rest == rest;
      }
    }
  }

  /** A firing timer ends its chain exactly when its owner's record is gone by then, whether or not its
      own block was left. */
  lemma ChainEndsExact(run: seq<Event>, id: string, i: nat, ok: bool)
    requires Valid(Init, run) && Enabled(Run(Init, run), Watching(id, W.Renew(i, ok)))
    ensures var s := Run(Init, run);
      W.Dead(Next(s, Watching(id, W.Renew(i, ok))).blocks[id].watch) <==> !Recorded(s, s.blocks[id].owner)
  {
    InitInv();
    AlwaysInv(Init, run);
    var s := Run(Init, run);
    var watch := s.blocks[id].watch;
    if ok {
      assert W.Live(W.Next(watch, W.Renew(i, ok)).timers[i]);
    } else {
      W.RefusalEndsChain(watch, i);
    }
  }

  /** While no lease lapses that is exactly when the owner has left all its blocks: a chain that escaped
      `cancel` of an inner block lives on as long as an outer one does. */
  lemma ChainEndsOutside(run: seq<Event>, id: string, i: nat, ok: bool)
    requires Valid(Init, run) && P.Valid(P.Init, Effects(Init, run)) && P.NoLapse(P.Init, Effects(Init, run))
    requires Enabled(Run(Init, run), Watching(id, W.Renew(i, ok)))
    ensures var s := Run(Init, run);
      W.Dead(Next(s, Watching(id, W.Renew(i, ok))).blocks[id].watch) <==> Inside(s, s.blocks[id].owner) == {}
  {
    var s := Run(Init, run);
    var owner := s.blocks[id].owner;
    ChainEndsExact(run, id, i, ok);
    DepthIsBlocks(run, owner);
    Projects(Init, run);
    P.AlwaysExact(P.Init, Effects(Init, run));
    RecordedInside(s.base, owner);
  }

  /** In every run a stored record is leased up to its owner's last successful enter or renewal. */
  lemma LeaseInForce(run: seq<Event>, owner: string, count: int)
    requires Valid(Init, run) && P.Owns(Run(Init, run).base, owner, count)
    ensures var base := Run(Init, run).base;
      owner in base.leases && base.cell == P.Record(owner, count, base.leases[owner]) && base.now <= base.leases[owner]
  {
    Projects(Init, run);
    P.LeaseInForce(Effects(Init, run), owner, count);
  }

  /** Time never passes the lease of the block's owner, which asks for positive timeouts, and the block is
      not left. */
  predicate OnTime(s: State, run: seq<Event>, id: string)
    requires Valid(s, run) && id in s.blocks
    decreases |run|
  {
    run != [] ==>
      var owner := s.blocks[id].owner;
      && (match run[0]
          case Tick(ms) => owner in s.base.leases && s.base.now + ms <= s.base.leases[owner]
          case Enter(_, other, timeout, _) => other == owner ==> timeout > 0
          case Watching(x, a) => a.Renew? && s.blocks[x].owner == owner ==> s.blocks[x].timeout > 0
          case Leave(x) => x != id)
      && id in Next(s, run[0]).blocks && OnTime(Next(s, run[0]), run[1..], id)
  }

  lemma OnTimeIsSafe(s: State, e: Event, id: string)
    requires P.AllLeased(s.base) && Enabled(s, e) && Effect(s, e).Some? && id in s.blocks
    requires P.ExactFor(s.base, s.blocks[id].owner) && OnTime(s, [e], id)
    ensures P.Safe(s.base, Effect(s, e).value)
  {
    var owner := s.blocks[id].owner;
    assert P.Leased(s.base, owner);
    assert FieldsOf(s.base.cell)["owner"] == Text(owner);
  }

  lemma StaysInside(s: State, e: Event, id: string)
    requires Inv(s) && Enabled(s, e) && id in s.blocks && !s.blocks[id].released && e != Leave(id)
    ensures id in Next(s, e).blocks && !Next(s, e).blocks[id].released
    ensures Next(s, e).blocks[id].owner == s.blocks[id].owner
    ensures P.Depth(Next(s, e).base, s.blocks[id].owner) > 0
  {
    var owner := s.blocks[id].owner;
    InvStep(s, e);
    assert id in Inside(Next(s, e), owner);
    assert |Inside(Next(s, e), owner)| > 0;
  }

  lemma OnTimeStep(s: State, e: Event, id: string)
    requires Inv(s) && P.AllLeased(s.base) && Enabled(s, e) && id in s.blocks && !s.blocks[id].released
    requires P.ExactFor(s.base, s.blocks[id].owner) && OnTime(s, [e], id)
    ensures id in Next(s, e).blocks && !Next(s, e).blocks[id].released
    ensures Next(s, e).blocks[id].owner == s.blocks[id].owner
    ensures P.ExactFor(Next(s, e).base, s.blocks[id].owner)
  {
    StaysInside(s, e, id);
    if Effect(s, e).Some? {
      OnTimeIsSafe(s, e, id);
      P.ExactStep(s.base, Effect(s, e).value);
    }
  }

  /** If every renewal of the owner lands before the lease in force ends, the record stays the owner's,
      with the exact count, for as long as any one of its blocks is not left. */
  lemma {:induction false} NeverLapses(s: State, run: seq<Event>, id: string)
    requires Inv(s) && P.AllLeased(s.base) && Valid(s, run) && id in s.blocks && !s.blocks[id].released
    requires P.ExactFor(s.base, s.blocks[id].owner) && OnTime(s, run, id)
    ensures P.ExactFor(Run(s, run).base, s.blocks[id].owner)
    decreases |run|
  {
    if run != [] {
      assert Valid(s, [run[0]]) && OnTime(s, [run[0]], id) by { assert [run[0]][1..] == []; }
      OnTimeStep(s, run[0], id);
      InvStep(s, run[0]);
      if Effect(s, run[0]).Some? {
        P.LeaseStep(s.base, Effect(s, run[0]).value);
      }
      NeverLapses(Next(s, run[0]), run[1..], id);
    }
  }

  lemma RecordedInside(base: P.State, owner: string)
    requires P.Exact(base) && IsReentrant(base.cell)
    ensures Owner(base.cell) == Some(Text(owner)) <==> P.Depth(base, owner) > 0
  {
    if base.cell != None {
      var holder :| P.ExactFor(base, holder);
      assert FieldsOf(base.cell)["owner"] == Text(holder);
    }
  }

  /** Once ended, a chain never renews again. */
  lemma {:induction false} EndedForGood(s: State, run: seq<Event>, id: string)
    requires Inv(s) && Valid(s, run) && id in s.blocks && W.Dead(s.blocks[id].watch)
    ensures id in Run(s, run).blocks && W.Dead(Run(s, run).blocks[id].watch)
    ensures Run(s, run).blocks[id].late == s.blocks[id].late
    decreases |run|
  {
    if run != [] {
      InvStep(s, run[0]);
      if run[0].Watching? && run[0].id == id {
        W.DeadStays(s.blocks[id].watch, run[0].act);
      }
      EndedForGood(Next(s, run[0]), run[1..], id);
    }
  }

  /** No renewal succeeds after the release of a block whose `cancel` met none under way. */
  lemma LateOnlyIfEscaped(run: seq<Event>, id: string)
    requires Valid(Init, run) && id in Run(Init, run).blocks && Run(Init, run).blocks[id].late > 0
    ensures Run(Init, run).blocks[id].released && Run(Init, run).blocks[id].watch.main == W.Done(true)
  {
    InitInv();
    AlwaysInv(Init, run);
  }

  // A chain that escapes and goes on for as long as one likes.

  function Lifted(id: string, acts: seq<W.Act>): seq<Event> {
    seq(|acts|, k requires 0 <= k < |acts| => Watching(id, acts[k]))
  }

  /** Steps of one watchdog that run no script. */
  lemma {:induction false} Lift(s: State, id: string, acts: seq<W.Act>)
    requires IsReentrant(s.base.cell) && id in s.blocks && W.Valid(s.blocks[id].watch, acts)
    requires forall k :: 0 <= k < |acts| ==> !acts[k].Renew?
    ensures Valid(s, Lifted(id, acts))
    ensures Run(s, Lifted(id, acts))
         == s.(blocks := s.blocks[id := s.blocks[id].(watch := W.Run(s.blocks[id].watch, acts))])
    decreases |acts|
  {
    if acts == [] {
      assert s.blocks == s.blocks[id := s.blocks[id]];
    } else {
      var e := Watching(id, acts[0]);
      Lift(Next(s, e), id, acts[1..]);
      assert Lifted(id, acts)[1..] == Lifted(id, acts[1..]);
    }
  }

  lemma {:induction false} Join(s: State, a: seq<Event>, b: seq<Event>)
    requires Valid(s, a) && Valid(Run(s, a), b)
    ensures Valid(s, a + b) && Run(s, a + b) == Run(Run(s, a), b)
    decreases |a|
  {
    if a == [] {
      assert a + b == b;
    } else {
      assert (a + b)[1..] == a[1..] + b;
      Join(Next(s, a[0]), a[1..], b);
    }
  }

  /** The newest timer, number `k`, has fired, and the handle was cancelled around it. */
  predicate Firing(w: W.Watch, k: nat) {
    W.Inv(w) && w.main == W.Done(true) && |w.timers| == k + 1 && w.timers[k].phase.Fired?
  }

  function RestOfRound(k: nat): seq<W.Act> {
    [W.Prune(k)] + ([W.Spawn(k)] + ([W.Start(k)] + ([W.Exit(k)] + ([W.Fire(k + 1)] + []))))
  }

  /** After a successful renewal the successor is made and started, ... */
  lemma Succeeds(w: W.Watch, k: nat, acts: seq<W.Act>)
    requires W.Inv(w) && w.main == W.Done(true) && |w.timers| == k + 1 && w.timers[k].phase.Renewed?
    ensures var w1 := W.Next(w, W.Prune(k));
      var w2 := W.Next(w1, W.Spawn(k));
      var w3 := W.Next(w2, W.Start(k));
      && W.Inv(w3) && w3.main == W.Done(true) && |w3.timers| == k + 2
      && w3.timers[k].phase == W.Leaving && w3.timers[k + 1] == W.Timer(W.Waiting, false)
      && (W.Valid(w3, acts) ==>
            var run := [W.Prune(k)] + ([W.Spawn(k)] + ([W.Start(k)] + acts));
            W.Valid(w, run) && W.Run(w, run) == W.Run(w3, acts))
  {
    var w1 := W.Next(w, W.Prune(k));
    W.InvStep(w, W.Prune(k));
    var w2 := W.Next(w1, W.Spawn(k));
    W.InvStep(w1, W.Spawn(k));
    var w3 := W.Next(w2, W.Start(k));
    W.InvStep(w2, W.Start(k));
    if W.Valid(w3, acts) {
      W.Cons(w2, W.Start(k), acts);
      W.Cons(w1, W.Spawn(k), [W.Start(k)] + acts);
      W.Cons(w, W.Prune(k), [W.Spawn(k)] + ([W.Start(k)] + acts));
    }
  }

  /** ... and fires in turn. */
  lemma RoundGoes(w: W.Watch, k: nat)
    requires Firing(w, k)
    ensures var w1 := W.Next(w, W.Renew(k, true));
      W.Valid(w1, RestOfRound(k)) && Firing(W.Run(w1, RestOfRound(k)), k + 1)
  {
    var w1 := W.Next(w, W.Renew(k, true));
    W.InvStep(w, W.Renew(k, true));
    var rest := [W.Exit(k)] + ([W.Fire(k + 1)] + []);
    Succeeds(w1, k, rest);
    var w4 := W.Next(W.Next(W.Next(w1, W.Prune(k)), W.Spawn(k)), W.Start(k));
    var w5 := W.Next(w4, W.Exit(k));
    W.InvStep(w4, W.Exit(k));
    W.InvStep(w5, W.Fire(k + 1));
    W.Cons(w5, W.Fire(k + 1), []);
    W.Cons(w4, W.Exit(k), [W.Fire(k + 1)] + []);
  }

  /** The inner block was left while its chain escaped; the outer block is still held; `n` renewals of the
      inner chain have succeeded since. */
  predicate Escaped(s: State, n: nat) {
    && "inner" in s.blocks && "outer" in s.blocks
    && s.blocks["inner"] == Block("o", 10, true, s.blocks["inner"].watch, n)
    && s.blocks["outer"].owner == "o" && !s.blocks["outer"].released
    && Firing(s.blocks["inner"].watch, n)
    && s.base.cell == P.Record("o", 1, s.base.now + 10000)
  }

  lemma Round(s: State, n: nat) returns (run: seq<Event>)
    requires Escaped(s, n)
    ensures Valid(s, run) && Escaped(Run(s, run), n + 1)
  {
    var e := Watching("inner", W.Renew(n, true));
    assert FieldsOf(s.base.cell)["owner"] == Text("o");
    var s1 := Next(s, e);
    assert s1.base.cell == s.base.cell;
    RoundGoes(s.blocks["inner"].watch, n);
    Lift(s1, "inner", RestOfRound(n));
    One(s, e);
    Join(s, [e], Lifted("inner", RestOfRound(n)));
    run := [e] + Lifted("inner", RestOfRound(n));
  }

  function Around(): seq<W.Act> {
    [W.Fire(0)] + ([W.CancelBegin] + ([W.CancelOne] + ([W.CancelEnd] + [])))
  }

  /** The timer fires just before its handle is cancelled. */
  lemma CancelledAround()
    ensures W.Valid(W.Started, Around()) && Firing(W.Run(W.Started, Around()), 0)
  {
    W.StartInv();
    var w1 := W.Next(W.Started, W.Fire(0));
    W.InvStep(W.Started, W.Fire(0));
    var w2 := W.Next(w1, W.CancelBegin);
    W.InvStep(w1, W.CancelBegin);
    var w3 := W.Next(w2, W.CancelOne);
    W.InvStep(w2, W.CancelOne);
    var w4 := W.Next(w3, W.CancelEnd);
    W.InvStep(w3, W.CancelEnd);
    assert W.Renewing(w3.timers[0]);
    W.Cons(w3, W.CancelEnd, []);
    W.Cons(w2, W.CancelOne, [W.CancelEnd] + []);
    W.Cons(w1, W.CancelBegin, [W.CancelOne] + ([W.CancelEnd] + []));
    W.Cons(W.Started, W.Fire(0), [W.CancelBegin] + ([W.CancelOne] + ([W.CancelEnd] + [])));
  }

  lemma One(s: State, e: Event)
    requires Enabled(s, e)
    ensures Valid(s, [e]) && Run(s, [e]) == Next(s, e)
  {
    assert [e][1..] == [];
  }

  const EnterOuter := Enter("outer", "o", 10, false)
  const EnterInner := Enter("inner", "o", 10, true)

  lemma Entered()
    ensures Enabled(Init, EnterOuter) && Enabled(Next(Init, EnterOuter), EnterInner)
    ensures var s := Next(Next(Init, EnterOuter), EnterInner);
      && s.blocks == map["outer" := Block("o", 10, false, W.Off, 0), "inner" := Block("o", 10, false, W.Started, 0)]
      && s.base.cell == P.Record("o", 2, 10000) && s.base.now == 0 && P.Depth(s.base, "o") == 2
  {
    P.AcquireRecord("o", 0, 0, 0, 10);
    assert Next(Init, EnterOuter).base.cell == P.Record("o", 1, 10000);
    P.AcquireRecord("o", 1, 10000, 0, 10);
  }

  lemma Escape() returns (run: seq<Event>)
    ensures Valid(Init, run) && Escaped(Run(Init, run), 0)
  {
    var s1 := Next(Init, EnterOuter);
    var s2 := Next(s1, EnterInner);
    Entered();
    CancelledAround();
    Lift(s2, "inner", Around());
    var s3 := Run(s2, Lifted("inner", Around()));
    P.ReleaseRecord("o", 2, 10000);
    One(s3, Leave("inner"));
    Join(s2, Lifted("inner", Around()), [Leave("inner")]);
    One(s1, EnterInner);
    Join(s1, [EnterInner], Lifted("inner", Around()) + [Leave("inner")]);
    One(Init, EnterOuter);
    Join(Init, [EnterOuter], [EnterInner] + (Lifted("inner", Around()) + [Leave("inner")]));
    run := [EnterOuter] + ([EnterInner] + (Lifted("inner", Around()) + [Leave("inner")]));
  }

  /** For every `n` there is a run in which `n` renewals of an inner block succeed after it was left. */
  lemma {:induction false} LateRenewals(n: nat) returns (run: seq<Event>)
    ensures Valid(Init, run) && "inner" in Run(Init, run).blocks
    ensures var inner := Run(Init, run).blocks["inner"];
      inner.released && inner.late == n
    ensures Escaped(Run(Init, run), n)
  {
    if n == 0 {
      run := Escape();
    } else {
      var before := LateRenewals(n - 1);
      var round := Round(Run(Init, before), n - 1);
      Join(Init, before, round);
      run := before + round;
    }
  }
}
