/** The self-rescheduling renewal timer of a lock and the handle that cancels it, as an interleaving
    of the timer threads with the thread that leaves the block. */
module Watchdog {
  /** Where a timer thread is: made but not started, waiting for its interval, inside `renew` before
      the script, after a successful script, after pruning the handle, after listing its successor,
      past its last action, and no longer alive. */
  datatype Phase = Created | Waiting | Fired | Renewed | Pruned | Spawned(child: nat) | Leaving | Ended

  datatype Timer = Timer(phase: Phase, cancelled: bool)

  /** The thread that owns the block: inside it, in the loop of `cancel` (holding the handle's lock,
      `next` timers done), or past it.  `escaped` says whether a renewal was under way at that point. */
  datatype Main = Inside | Cancelling(next: nat) | Done(escaped: bool)

  datatype Watch = Watch(timers: seq<Timer>, listed: seq<nat>, main: Main)

  datatype Act =
    | Fire(i: nat)
    | Quit(i: nat)
    | Renew(i: nat, ok: bool)
    | Prune(i: nat)
    | Spawn(i: nat)
    | Start(i: nat)
    | Exit(i: nat)
    | CancelBegin
    | CancelOne
    | CancelEnd

  const Off := Watch([], [], Done(false))
  const Started := Watch([Timer(Waiting, false)], [0], Inside)

  predicate IsAlive(t: Timer) {
    !t.phase.Created? && !t.phase.Ended?
  }

  /** A timer that has not yet handed over to a successor. */
  predicate Live(t: Timer) {
    t.phase.Created? || t.phase.Waiting? || Renewing(t)
  }

  predicate Renewing(t: Timer) {
    t.phase.Fired? || t.phase.Renewed? || t.phase.Pruned?
  }

  function Cancelled(t: Timer): Timer {
    t.(cancelled := true)
  }

  /** Of some things, each with the state of its timer, those that are alive, in their order. */
  function KeepAlive<T>(things: seq<T>, states: seq<Timer>): seq<T>
    requires |things| == |states|
  {
    if things == [] then []
    else
      var n := |things| - 1;
      var rest := KeepAlive(things[..n], states[..n]);
      if IsAlive(states[n]) then rest + [things[n]] else rest
  }

  predicate Listed(timers: seq<Timer>, listed: seq<nat>) {
    forall k :: 0 <= k < |listed| ==> listed[k] < |timers|
  }

  /** The states of the listed timers. */
  function StatesOf(timers: seq<Timer>, listed: seq<nat>): seq<Timer>
    requires Listed(timers, listed)
  {
    seq(|listed|, k requires 0 <= k < |listed| => timers[listed[k]])
  }

  function AliveOnly(timers: seq<Timer>, listed: seq<nat>): (r: seq<nat>)
    requires Listed(timers, listed)
    ensures forall x :: x in r <==> x in listed && IsAlive(timers[x])
  {
    KeepAliveMembers(listed, StatesOf(timers, listed));
    KeepAlive(listed, StatesOf(timers, listed))
  }

  lemma {:induction false} KeepAliveMembers<T>(things: seq<T>, states: seq<Timer>)
    requires |things| == |states|
    ensures forall x :: x in KeepAlive(things, states) ==>
      exists k :: 0 <= k < |things| && things[k] == x && IsAlive(states[k])
    ensures forall k :: 0 <= k < |things| && IsAlive(states[k]) ==> things[k] in KeepAlive(things, states)
  {
    if things != [] {
      var n := |things| - 1;
      KeepAliveMembers(things[..n], states[..n]);
      forall k | 0 <= k < n && IsAlive(states[k]) ensures things[k] in KeepAlive(things[..n], states[..n]) {
        assert things[..n][k] == things[k] && states[..n][k] == states[k];
      }
      forall x | x in KeepAlive(things[..n], states[..n])
        ensures exists k :: 0 <= k < n && things[k] == x && IsAlive(states[k])
      {
        var k :| 0 <= k < n && things[..n][k] == x && IsAlive(states[..n][k]);
        assert things[k] == x && IsAlive(states[k]);
      }
    }
  }

  lemma {:induction false} KeepAliveIncreasing(listed: seq<nat>, states: seq<Timer>)
    requires |listed| == |states| && Increasing(listed)
    ensures Increasing(KeepAlive(listed, states))
  {
    if listed != [] {
      var n := |listed| - 1;
      var rest := KeepAlive(listed[..n], states[..n]);
      KeepAliveIncreasing(listed[..n], states[..n]);
      KeepAliveMembers(listed[..n], states[..n]);
      forall k | 0 <= k < |rest| ensures rest[k] < listed[n] {
        assert rest[k] in rest;
      }
    }
  }

  predicate Increasing(s: seq<nat>) {
    forall j, k :: 0 <= j < k < |s| ==> s[j] < s[k]
  }

  predicate At(w: Watch, i: nat) {
    i < |w.timers|
  }

  predicate Enabled(w: Watch, a: Act) {
    match a
    case Fire(i) => At(w, i) && w.timers[i] == Timer(Waiting, false)
    case Quit(i) => At(w, i) && w.timers[i] == Timer(Waiting, true)
    case Renew(i, _) => At(w, i) && w.timers[i].phase.Fired?
    case Prune(i) => At(w, i) && w.timers[i].phase.Renewed? && !w.main.Cancelling? && Indexed(w)
    case Spawn(i) => At(w, i) && w.timers[i].phase.Pruned? && !w.main.Cancelling?
    case Start(i) => At(w, i) && w.timers[i].phase.Spawned? && At(w, w.timers[i].phase.child)
    case Exit(i) => At(w, i) && w.timers[i].phase.Leaving?
    case CancelBegin => w.main.Inside?
    case CancelOne => w.main.Cancelling? && w.main.next < |w.listed| && At(w, w.listed[w.main.next])
    case CancelEnd => w.main.Cancelling? && w.main.next == |w.listed|
  }

  predicate Indexed(w: Watch) {
    Listed(w.timers, w.listed)
  }

  function Moved(w: Watch, i: nat, phase: Phase): Watch
    requires At(w, i)
  {
    w.(timers := w.timers[i := w.timers[i].(phase := phase)])
  }

  function Next(w: Watch, a: Act): Watch
    requires Enabled(w, a)
  {
    match a
    case Fire(i) => Moved(w, i, Fired)
    case Quit(i) => Moved(w, i, Ended)
    case Renew(i, ok) => Moved(w, i, if ok then Renewed else Leaving)
    case Prune(i) => Moved(w, i, Pruned).(listed := AliveOnly(w.timers, w.listed))
    case Spawn(i) =>
      var n := |w.timers|;
      Moved(w, i, Spawned(n)).(timers := Moved(w, i, Spawned(n)).timers + [Timer(Created, false)],
                               listed := w.listed + [n])
    case Start(i) =>
      Moved(Moved(w, w.timers[i].phase.child, Waiting), i, Leaving)
    case Exit(i) => Moved(w, i, Ended)
    case CancelBegin => w.(main := Cancelling(0))
    case CancelOne =>
      var t := w.listed[w.main.next];
      w.(timers := w.timers[t := Cancelled(w.timers[t])], main := Cancelling(w.main.next + 1))
    case CancelEnd =>
      w.(listed := [], main := Done(exists i :: 0 <= i < |w.timers| && Renewing(w.timers[i])))
  }

  /** Only the newest timer can still renew, and its maker is the only one about to start it. */
  predicate Chain(timers: seq<Timer>) {
    var n := |timers|;
    && (forall i :: 0 <= i < n - 1 ==> !Live(timers[i]))
    && (forall i :: 0 <= i < n && timers[i].phase.Spawned? ==> i == n - 2 && timers[i].phase.child == n - 1)
    && (forall i :: 0 <= i < n && timers[i].phase.Created? ==> n >= 2 && timers[n - 2].phase.Spawned?)
    && (n >= 2 && timers[n - 2].phase.Spawned? ==> timers[n - 1].phase.Created?)
  }

  /** Until `cancel` has finished, it will reach every timer that can still renew; afterwards, if no
      renewal was under way, no timer will ever renew again. */
  predicate Cancellable(w: Watch) {
    Reachable(w) && Reached(w) && (w.main == Done(false) ==> Silent(w))
  }

  predicate Reachable(w: Watch) {
    (w.main.Done? && w.listed == []) || forall i :: 0 <= i < |w.timers| && Live(w.timers[i]) ==> i in w.listed
  }

  predicate Reached(w: Watch) {
    w.main.Cancelling? ==>
      && w.main.next <= |w.listed|
      && forall k :: 0 <= k < w.main.next ==> w.listed[k] < |w.timers| && w.timers[w.listed[k]].cancelled
  }

  predicate Silent(w: Watch) {
    forall i :: 0 <= i < |w.timers| && Live(w.timers[i]) ==> !Renewing(w.timers[i]) && w.timers[i].cancelled
  }

  predicate Inv(w: Watch) {
    Chain(w.timers) && Indexed(w) && Increasing(w.listed) && Cancellable(w)
  }

  lemma StartInv()
    ensures Inv(Off) && Inv(Started)
  {
  }

  lemma ChainStep(w: Watch, a: Act)
    requires Chain(w.timers) && Enabled(w, a)
    ensures Chain(Next(w, a).timers)
  {
    match a
    case Spawn(i) => SpawnChain(w, i);
    case Start(i) => StartChain(w, i);
    case _ =>
  }

  lemma SpawnChain(w: Watch, i: nat)
    requires Chain(w.timers) && Enabled(w, Spawn(i))
    ensures Chain(Next(w, Spawn(i)).timers)
  {
  }

  lemma StartChain(w: Watch, i: nat)
    requires Chain(w.timers) && Enabled(w, Start(i))
    ensures Chain(Next(w, Start(i)).timers)
  {
  }

  lemma ListedStep(w: Watch, a: Act)
    requires Inv(w) && Enabled(w, a)
    ensures Indexed(Next(w, a)) && Increasing(Next(w, a).listed)
  {
    if a.Prune? {
      var r := Next(w, a).listed;
      KeepAliveIncreasing(w.listed, StatesOf(w.timers, w.listed));
      forall k | 0 <= k < |r| ensures r[k] < |w.timers| {
        assert r[k] in r && r[k] in w.listed;
      }
    }
  }

  lemma ReachableStep(w: Watch, a: Act)
    requires Inv(w) && Enabled(w, a)
    ensures Reachable(Next(w, a))
  {
  }

  lemma ReachedStep(w: Watch, a: Act)
    requires Inv(w) && Enabled(w, a)
    ensures Reached(Next(w, a))
  {
  }

  lemma SilentStep(w: Watch, a: Act)
    requires Inv(w) && Enabled(w, a) && Next(w, a).main == Done(false)
    ensures Silent(Next(w, a))
  {
  }

  lemma InvStep(w: Watch, a: Act)
    requires Inv(w) && Enabled(w, a)
    ensures Inv(Next(w, a))
  {
    ChainStep(w, a);
    ListedStep(w, a);
    ReachableStep(w, a);
    ReachedStep(w, a);
    if Next(w, a).main == Done(false) {
      SilentStep(w, a);
    }
  }

  /** However the timer threads step in between, when `cancel` ends every listed timer is cancelled. */
  lemma CancelReachesAll(w: Watch)
    requires Inv(w) && Enabled(w, CancelEnd)
    ensures forall x :: x in w.listed ==> w.timers[x].cancelled
  {
  }

  predicate Valid(w: Watch, acts: seq<Act>)
    decreases |acts|
  {
    acts == [] || (Enabled(w, acts[0]) && Valid(Next(w, acts[0]), acts[1..]))
  }

  function Run(w: Watch, acts: seq<Act>): Watch
    requires Valid(w, acts)
    decreases |acts|
  {
    if acts == [] then w else Run(Next(w, acts[0]), acts[1..])
  }

  /** In every interleaving at most one timer of a chain can still renew. */
  lemma {:induction false} OnePending(w: Watch, acts: seq<Act>, i: nat, j: nat)
    requires Inv(w) && Valid(w, acts)
    requires At(Run(w, acts), i) && At(Run(w, acts), j)
    requires Live(Run(w, acts).timers[i]) && Live(Run(w, acts).timers[j])
    ensures i == j
    decreases |acts|
  {
    if acts != [] {
      InvStep(w, acts[0]);
      OnePending(Next(w, acts[0]), acts[1..], i, j);
    }
  }

  predicate Dead(w: Watch) {
    forall i :: 0 <= i < |w.timers| ==> !Live(w.timers[i])
  }

  /** A refused renewal ends the chain for good. */
  lemma RefusalEndsChain(w: Watch, i: nat)
    requires Inv(w) && Enabled(w, Renew(i, false))
    ensures Dead(Next(w, Renew(i, false)))
  {
  }

  lemma DeadStays(w: Watch, a: Act)
    requires Inv(w) && Dead(w) && Enabled(w, a)
    ensures Dead(Next(w, a)) && !a.Fire? && !a.Renew?
  {
  }

  /** A `cancel` that meets no renewal under way silences the chain: nothing fires or renews again. */
  lemma {:induction false} CancelSilences(w: Watch, acts: seq<Act>)
    requires Inv(w) && w.main == Done(false) && Valid(w, acts)
    ensures forall k :: 0 <= k < |acts| ==> !acts[k].Fire? && !acts[k].Renew?
    decreases |acts|
  {
    if acts != [] {
      InvStep(w, acts[0]);
      CancelSilences(Next(w, acts[0]), acts[1..]);
      forall k | 0 <= k < |acts| ensures !acts[k].Fire? && !acts[k].Renew? {
        assert k > 0 ==> acts[k] == acts[1..][k - 1];
      }
    }
  }

  /** Apart from the renewing timer every listed thread has ended. */
  predicate OthersEnded(w: Watch, i: nat)
    requires Indexed(w)
  {
    forall x :: x in w.listed && x != i ==> !IsAlive(w.timers[x])
  }

  /** Whoever prunes the handle finds every other listed thread ended. */
  predicate Prompt(w: Watch, a: Act) {
    a.Prune? ==> Indexed(w) && OthersEnded(w, a.i)
  }

  predicate PromptRun(w: Watch, acts: seq<Act>)
    requires Valid(w, acts)
    decreases |acts|
  {
    acts != [] ==> Prompt(w, acts[0]) && PromptRun(Next(w, acts[0]), acts[1..])
  }

  /** The handle lists at most two timers, and at most one while the newest has just pruned. */
  predicate Short(w: Watch) {
    var n := |w.timers|;
    |w.listed| <= 2 && (n > 0 && w.timers[n - 1].phase.Pruned? ==> |w.listed| <= 1)
  }

  lemma ShortStep(w: Watch, a: Act)
    requires Inv(w) && Short(w) && Enabled(w, a) && Prompt(w, a)
    ensures Short(Next(w, a))
  {
    match a
    case Spawn(i) =>
      assert i == |w.timers| - 1;
    case Start(i) =>
      assert i == |w.timers| - 2;
    case Prune(i) =>
      PruneExact(w, i);
    case _ =>
  }

  /** If whoever prunes finds every other listed thread ended, the handle never lists more than two. */
  lemma {:induction false} AtMostTwoListed(w: Watch, acts: seq<Act>)
    requires Inv(w) && Short(w) && Valid(w, acts) && PromptRun(w, acts)
    ensures |Run(w, acts).listed| <= 2
    decreases |acts|
  {
    if acts != [] {
      InvStep(w, acts[0]);
      ShortStep(w, acts[0]);
      AtMostTwoListed(Next(w, acts[0]), acts[1..]);
    }
  }

  /** Pruning leaves at most one timer listed exactly when every other listed thread has ended. */
  lemma PruneExact(w: Watch, i: nat)
    requires Inv(w) && Enabled(w, Prune(i))
    ensures |Next(w, Prune(i)).listed| <= 1 <==> OthersEnded(w, i)
  {
    var r := Next(w, Prune(i)).listed;
    ListedStep(w, Prune(i));
    assert w.listed == [] || i in r;
    if |r| > 1 {
      assert r[0] in r && r[1] in r && r[0] != r[1];
    } else {
      assert forall x :: x in r ==> x == r[0];
    }
  }

  /** After any renewal, wherever it happens, the handle lists at most two timers exactly when pruning
      found every other listed thread ended. */
  lemma AtMostTwoExact(w: Watch, i: nat)
    requires Inv(w) && Enabled(w, Prune(i))
    ensures Enabled(Next(w, Prune(i)), Spawn(i))
    ensures |Next(Next(w, Prune(i)), Spawn(i)).listed| <= 2 <==> OthersEnded(w, i)
  {
    PruneExact(w, i);
  }

  lemma Cons(w: Watch, a: Act, acts: seq<Act>)
    requires Enabled(w, a) && Valid(Next(w, a), acts)
    ensures Valid(w, [a] + acts) && Run(w, [a] + acts) == Run(Next(w, a), acts)
  {
  }

  /** The renewal of timer `i` up to pruning, when all listed threads are alive. */
  lemma FirstHalf(w: Watch, i: nat, acts: seq<Act>)
    requires w.main.Inside? && At(w, i) && Indexed(w) && i in w.listed
    requires w.timers[i] == Timer(Waiting, false)
    requires forall x :: x in w.listed ==> IsAlive(w.timers[x])
    requires Valid(Moved(w, i, Pruned), acts)
    ensures var a := [Fire(i)] + ([Renew(i, true)] + ([Prune(i)] + acts));
      Valid(w, a) && Run(w, a) == Run(Moved(w, i, Pruned), acts)
  {
    var w1, w2, w3 := Moved(w, i, Fired), Moved(w, i, Renewed), Moved(w, i, Pruned);
    assert Next(w, Fire(i)) == w1;
    assert Next(w1, Renew(i, true)) == w2;
    assert Next(w2, Prune(i)) == w3 by {
      AllKept(w2.listed, StatesOf(w2.timers, w2.listed));
    }
    Cons(w2, Prune(i), acts);
    Cons(w1, Renew(i, true), [Prune(i)] + acts);
    Cons(w, Fire(i), [Renew(i, true)] + ([Prune(i)] + acts));
  }

  /** The rest of that renewal: the successor is listed and started. */
  function Succeeded(w: Watch, i: nat): Watch
    requires At(w, i)
  {
    Watch(w.timers[i := Timer(Leaving, false)] + [Timer(Waiting, false)], w.listed + [|w.timers|], w.main)
  }

  lemma SecondHalf(w: Watch, i: nat, acts: seq<Act>)
    requires w.main.Inside? && At(w, i) && w.timers[i] == Timer(Waiting, false)
    requires Valid(Succeeded(w, i), acts)
    ensures var a := [Spawn(i)] + ([Start(i)] + acts);
      Valid(Moved(w, i, Pruned), a) && Run(Moved(w, i, Pruned), a) == Run(Succeeded(w, i), acts)
  {
    var w3 := Moved(w, i, Pruned);
    var w4 := Next(w3, Spawn(i));
    assert Next(w4, Start(i)) == Succeeded(w, i);
    Cons(w4, Start(i), acts);
    Cons(w3, Spawn(i), [Start(i)] + acts);
  }

  function RoundActs(i: nat, acts: seq<Act>): seq<Act> {
    [Fire(i)] + ([Renew(i, true)] + ([Prune(i)] + ([Spawn(i)] + ([Start(i)] + acts))))
  }

  lemma {:induction false} AllKept<T>(things: seq<T>, states: seq<Timer>)
    requires |things| == |states| && forall k :: 0 <= k < |things| ==> IsAlive(states[k])
    ensures KeepAlive(things, states) == things
  {
    if things != [] {
      var n := |things| - 1;
      AllKept(things[..n], states[..n]);
      assert things == things[..n] + [things[n]];
    }
  }

  /** Without that hypothesis slow threads are kept: two rounds make the handle list three timers. */
  lemma ThreeListed()
    ensures Valid(Started, RoundActs(0, RoundActs(1, [])))
    ensures |Run(Started, RoundActs(0, RoundActs(1, []))).listed| == 3
  {
    var w1 := Succeeded(Started, 0);
    assert w1 == Watch([Timer(Leaving, false), Timer(Waiting, false)], [0, 1], Inside);
    SecondHalf(w1, 1, []);
    FirstHalf(w1, 1, [Spawn(1)] + ([Start(1)] + []));
    SecondHalf(Started, 0, RoundActs(1, []));
    FirstHalf(Started, 0, [Spawn(0)] + ([Start(0)] + RoundActs(1, [])));
  }

  /** A timer thread as the handle sees it. */
  class TimerThread {
    var state: Timer

    constructor ()
      ensures state == Timer(Created, false)
    {
      state := Timer(Created, false);
    }

    method Cancel()
      modifies this
      ensures state == Cancelled(old(state))
    {
      state := Cancelled(state);
    }
  }

  class Handle {
    var timers: seq<TimerThread>

    constructor ()
      ensures timers == []
    {
      timers := [];
    }

    method Add(timer: TimerThread)
      modifies this
      ensures timers == old(timers) + [timer]
    {
      timers := timers + [timer];
    }

    /** The states of the listed timers. */
    ghost function States(): seq<Timer>
      reads this, timers
    {
      seq(|timers|, k requires 0 <= k < |timers| reads this, timers => timers[k].state)
    }

    /** Cancels every listed timer and forgets them all, while the timer threads go on stepping. */
    method Cancel()
      modifies this, timers
      ensures timers == []
      ensures forall t :: t in old(timers) ==> t.state.cancelled
    {
      var i := 0;
      while i < |timers|
        invariant 0 <= i <= |timers| && timers == old(timers)
        invariant forall t :: t in timers[..i] ==> t.state.cancelled
      {
        timers[i].Cancel();
        Interfere(timers);
        i := i + 1;
      }
      timers := [];
    }

    /** Keeps exactly the threads that are alive, in their order. */
    method Prune()
      modifies this
      ensures timers == KeepAlive(old(timers), old(States()))
    {
      ghost var states := States();
      var kept, i := [], 0;
      while i < |timers|
        invariant 0 <= i <= |timers|
        invariant kept == KeepAlive(timers[..i], states[..i])
        modifies {}
      {
        assert timers[..i + 1][..i] == timers[..i] && states[..i + 1][..i] == states[..i];
        if IsAlive(timers[i].state) {
          kept := kept + [timers[i]];
        }
        i := i + 1;
      }
      assert timers[..i] == timers && states[..i] == states;
      timers := kept;
    }
  }

  /** What the timer threads may do meanwhile: each moves through its phases, none is uncancelled. */
  method Interfere(timers: seq<TimerThread>)
    modifies timers
    ensures forall t :: t in timers ==> t.state.cancelled == old(t.state.cancelled)
  {
    var i := 0;
    while i < |timers|
      invariant 0 <= i <= |timers|
      invariant forall t :: t in timers ==> t.state.cancelled == old(t.state.cancelled)
    {
      var phase: Phase := *;
      timers[i].state := timers[i].state.(phase := phase);
      i := i + 1;
    }
  }
}
