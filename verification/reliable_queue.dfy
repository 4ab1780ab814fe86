/** The reliable queue: two lists, messages moved between them, and handles that may be settled late,
    twice or never. */
module ReliableQueue {
  import opened Wrappers
  import opened Redis

  class Queue {
    const client: Server
    const name: string

    constructor (client: Server, name: string)
      ensures this.client == client && this.name == name
    {
      this.client, this.name := client, name;
    }

    function QueueKey(): string { name + ":queue" }
    function ProcessingKey(): string { name + ":processing" }

    lemma KeysDiffer()
      ensures QueueKey() != ProcessingKey()
    {
    }

    predicate Typed()
      reads client
    {
      IsList(client.At(QueueKey())) && IsList(client.At(ProcessingKey()))
    }

    function Contents(): Lists<Item>
      requires Typed()
      reads client
    {
      Lists(ItemsOf(client.At(QueueKey())), ItemsOf(client.At(ProcessingKey())))
    }

    method Put(payload: string)
      requires Typed()
      modifies client`db
      ensures Typed() && Contents() == Pushed(old(Contents()), Raw(payload))
    {
      KeysDiffer();
      client.LPush(QueueKey(), Raw(payload));
    }

    /** The oldest message is handed out and kept on the processing list; None stands for QueueEmptyError. */
    method Get() returns (r: Option<Item>)
      requires Typed()
      modifies client`db
      ensures Typed() && Contents() == Taken(old(Contents()))
      ensures r == Last(old(Contents()).queue)
    {
      KeysDiffer();
      r := client.LMove(QueueKey(), ProcessingKey());
    }

    method Ack(raw: Item)
      requires Typed()
      modifies client`db
      ensures Typed() && Contents() == Settled(old(Contents()), raw)
    {
      KeysDiffer();
      client.LRem(ProcessingKey(), raw);
    }

    /** `payload` is the message encoded again. */
    method Nack(raw: Item, payload: Item)
      requires Typed()
      modifies client`db
      ensures Typed() && Contents() == Pushed(Settled(old(Contents()), raw), payload)
    {
      KeysDiffer();
      client.LRem(ProcessingKey(), raw);
      client.LPush(QueueKey(), payload);
    }

    /** One round of recovery. */
    method RecoverOne() returns (r: Option<Item>)
      requires Typed()
      modifies client`db
      ensures Typed() && Contents() == Recovered(old(Contents()))
      ensures r == Last(old(Contents()).processing)
    {
      KeysDiffer();
      r := client.LMove(ProcessingKey(), QueueKey());
    }

    /** Run alone it moves min(max(0, max_items), |processing|) messages, the oldest ones, and keeps their order. */
    method RecoverStale(maxItems: int) returns (count: int)
      requires Typed()
      modifies client`db
      ensures Typed()
      ensures var p := old(Contents()).processing;
        && count == (if maxItems < 0 then 0 else if maxItems < |p| then maxItems else |p|)
        && Contents() == Lists(p[|p| - count..] + old(Contents()).queue, p[..|p| - count])
    {
      count := 0;
      ghost var start := Contents();
      while count < maxItems
        invariant Typed() && 0 <= count <= |start.processing| && (count <= maxItems || count == 0)
        invariant Contents() == Shifted(start, count)
        decreases |start.processing| - count
      {
        ShiftedOnce(start, count);
        var msg := RecoverOne();
        if msg.None? {
          break;
        }
        count := count + 1;
      }
    }
  }

  // What each operation does to the two lists, each with its newest element first.

  datatype Lists<T> = Lists(queue: seq<T>, processing: seq<T>)

  function Last<T>(s: seq<T>): Option<T> {
    if s == [] then None else Some(s[|s| - 1])
  }

  function Pushed<T>(l: Lists<T>, m: T): Lists<T> {
    l.(queue := [m] + l.queue)
  }

  function Taken<T>(l: Lists<T>): Lists<T> {
    if l.queue == [] then l
    else Lists(l.queue[..|l.queue| - 1], [l.queue[|l.queue| - 1]] + l.processing)
  }

  function Settled<T(==)>(l: Lists<T>, m: T): Lists<T> {
    l.(processing := WithoutFirst(l.processing, m))
  }

  function Recovered<T>(l: Lists<T>): Lists<T> {
    if l.processing == [] then l
    else Lists([l.processing[|l.processing| - 1]] + l.queue, l.processing[..|l.processing| - 1])
  }

  /** The lists after the oldest `count` messages of the processing list went back to the queue. */
  function Shifted<T>(l: Lists<T>, count: nat): Lists<T>
    requires count <= |l.processing|
  {
    var n := |l.processing| - count;
    Lists(l.processing[n..] + l.queue, l.processing[..n])
  }

  lemma ShiftedOnce<T>(l: Lists<T>, count: nat)
    requires count <= |l.processing|
    ensures count < |l.processing| ==> Recovered(Shifted(l, count)) == Shifted(l, count + 1)
    ensures Last(Shifted(l, count).processing).None? <==> count == |l.processing|
    ensures count == |l.processing| ==> Recovered(Shifted(l, count)) == Shifted(l, count)
  {
  }

  // Every interleaving of producers, consumers and recovery.

  /** `open` holds the messages of handles not yet settled, `delivered` those of all handles ever given
      out, `acked` one entry per call of `ack`. */
  datatype State = State(
    queue: seq<string>, processing: seq<string>, put: multiset<string>, acked: multiset<string>,
    open: multiset<string>, delivered: multiset<string>)

  datatype Event =
    | Put(message: string)
    | Get
    | Ack(message: string)
    | Nack(message: string)
    | Recover

  const Init := State([], [], multiset{}, multiset{}, multiset{}, multiset{})

  /** Any handle may be settled at any time and any number of times; a crash settles it never. */
  predicate Enabled(s: State, e: Event) {
    e.Ack? || e.Nack? ==> e.message in s.delivered
  }

  function Next(s: State, e: Event): State
    requires Enabled(s, e)
  {
    var l := Lists(s.queue, s.processing);
    match e
    case Put(m) => With(s, Pushed(l, m)).(put := s.put + multiset{m})
    case Get =>
      if s.queue == [] then s
      else
        var m := s.queue[|s.queue| - 1];
        With(s, Taken(l)).(open := s.open + multiset{m}, delivered := s.delivered + multiset{m})
    case Ack(m) => With(s, Settled(l, m)).(acked := s.acked + multiset{m}, open := s.open - multiset{m})
    case Nack(m) => With(s, Pushed(Settled(l, m), m)).(open := s.open - multiset{m})
    case Recover => With(s, Recovered(l))
  }

  function With(s: State, l: Lists<string>): State {
    s.(queue := l.queue, processing := l.processing)
  }

  predicate Valid(s: State, run: seq<Event>)
    decreases |run|
  {
    run == [] || (Enabled(s, run[0]) && Valid(Next(s, run[0]), run[1..]))
  }

  function Run(s: State, run: seq<Event>): State
    requires Valid(s, run)
    decreases |run|
  {
    if run == [] then s else Run(Next(s, run[0]), run[1..])
  }

  lemma {:induction false} RemovedOne(s: seq<string>, m: string)
    ensures multiset(WithoutFirst(s, m)) == multiset(s) - multiset{m}
  {
    if s != [] {
      assert s == [s[0]] + s[1..];
      RemovedOne(s[1..], m);
    }
  }

  /** Everything in the lists, counted. */
  function Held(s: State): multiset<string> {
    multiset(s.queue) + multiset(s.processing)
  }

  lemma LastMoved(from: seq<string>, to: seq<string>)
    requires from != []
    ensures var m := from[|from| - 1];
      && m in from
      && multiset([m] + to) == multiset(to) + multiset{m}
      && multiset(from[..|from| - 1]) + multiset([m] + to) == multiset(from) + multiset(to)
  {
    var m, rest := from[|from| - 1], from[..|from| - 1];
    assert from == rest + [m];
    assert multiset(from) == multiset(rest) + multiset{m};
    assert multiset([m] + to) == multiset(to) + multiset{m};
  }

  function Found(s: State, m: string): int {
    if m in s.processing then 1 else 0
  }

  /** What settling a handle of `m` does to the counts. */
  lemma SettledHeld(s: State, e: Event, m: string, x: string)
    requires (e == Ack(m) || e == Nack(m)) && Enabled(s, e)
    ensures Held(Next(s, e))[x] ==
      if x != m then Held(s)[x] else Held(s)[x] - Found(s, m) + if e.Nack? then 1 else 0
    ensures multiset(Next(s, e).processing) == multiset(s.processing) - multiset{m}
  {
    RemovedOne(s.processing, m);
    var s' := Next(s, e);
    assert s'.processing == WithoutFirst(s.processing, m);
    assert multiset(s'.queue)[x] == multiset(s.queue)[x] + if x == m && e.Nack? then 1 else 0 by {
      assert s'.queue == s.queue || s'.queue == [m] + s.queue;
      assert multiset([m] + s.queue) == multiset(s.queue) + multiset{m};
    }
    assert multiset(s'.processing)[x] == multiset(s.processing)[x] - if x == m then Found(s, m) else 0 by {
      assert m in s.processing <==> multiset(s.processing)[m] > 0;
    }
  }

  /** Sums of multisets do not depend on the order. */
  lemma Commute(a: multiset<string>, b: multiset<string>)
    ensures a + b == b + a
  {
  }

  lemma MovesKeep(s: State, e: Event)
    requires e.Get? || e.Recover?
    ensures Held(Next(s, e)) == Held(s)
  {
    if e.Get? && s.queue != [] {
      LastMoved(s.queue, s.processing);
    } else if e.Recover? && s.processing != [] {
      LastMoved(s.processing, s.queue);
      var s' := Next(s, e);
      Commute(multiset(s'.queue), multiset(s'.processing));
      Commute(multiset(s.queue), multiset(s.processing));
    }
  }

  lemma GetOpens(s: State)
    requires s.queue != []
    ensures var m := s.queue[|s.queue| - 1];
      m in s.queue && multiset(Next(s, Get).processing) == multiset(s.processing) + multiset{m}
  {
  }

  lemma PutHolds(s: State, m: string)
    ensures Held(Next(s, Put(m))) == Held(s) + multiset{m}
  {
  }

  predicate NoneLost(s: State) {
    && (forall m :: m in s.put ==> m in s.acked || m in Held(s))
    && (forall m :: m in s.delivered ==> m in s.put)
    && (forall m :: m in Held(s) ==> m in s.put)
  }

  lemma NoneLostStep(s: State, e: Event)
    requires NoneLost(s) && Enabled(s, e)
    ensures NoneLost(Next(s, e))
  {
    match e
    case Put(m) => PutHolds(s, m);
    case Get =>
      MovesKeep(s, e);
      if s.queue != [] { GetOpens(s); }
    case Recover => MovesKeep(s, e);
    case Ack(m) => SettledKeepsRest(s, e, m);
    case Nack(m) => SettledKeepsRest(s, e, m);
  }

  lemma SettledKeepsRest(s: State, e: Event, m: string)
    requires NoneLost(s) && (e == Ack(m) || e == Nack(m)) && Enabled(s, e)
    ensures NoneLost(Next(s, e))
  {
    var s' := Next(s, e);
    forall x | x in s'.put ensures x in s'.acked || x in Held(s') {
      SettledHeld(s, e, m, x);
      assert x == m && e.Nack? ==> m in multiset(s'.queue);
    }
    forall x | x in Held(s') ensures x in s'.put {
      SettledHeld(s, e, m, x);
    }
  }

  lemma {:induction false} NoLossFrom(s: State, run: seq<Event>)
    requires NoneLost(s) && Valid(s, run)
    ensures NoneLost(Run(s, run))
    decreases |run|
  {
    if run != [] {
      NoneLostStep(s, run[0]);
      NoLossFrom(Next(s, run[0]), run[1..]);
    }
  }

  /** No loss: whatever is crashed, settled late or twice, or recovered in between, a message that was
      never acknowledged is on one of the two lists. */
  lemma NoLoss(run: seq<Event>, m: string)
    requires Valid(Init, run) && m in Run(Init, run).put && m !in Run(Init, run).acked
    ensures m in Run(Init, run).queue || m in Run(Init, run).processing
  {
    NoLossFrom(Init, run);
    assert m in Held(Run(Init, run));
  }

  predicate Conserved(s: State) {
    Held(s) + s.acked == s.put
  }

  /** One step conserves messages exactly when a settlement finds its message on the processing list. */
  lemma ConservedStep(s: State, e: Event)
    requires Conserved(s) && Enabled(s, e)
    ensures Conserved(Next(s, e)) <==> (e.Ack? || e.Nack? ==> e.message in s.processing)
  {
    match e
    case Put(m) => PutHolds(s, m);
    case Get => MovesKeep(s, e);
    case Recover => MovesKeep(s, e);
    case Ack(m) => SettleExact(s, e, m);
    case Nack(m) => SettleExact(s, e, m);
  }

  lemma SettleExact(s: State, e: Event, m: string)
    requires Conserved(s) && (e == Ack(m) || e == Nack(m)) && Enabled(s, e)
    ensures Conserved(Next(s, e)) <==> m in s.processing
  {
    var before, after := Held(s) + s.acked, Held(Next(s, e)) + Next(s, e).acked;
    SettledHeld(s, e, m, m);
    if m in s.processing {
      forall x ensures after[x] == before[x] {
        SettledHeld(s, e, m, x);
      }
      assert after == before;
    } else {
      assert after[m] == before[m] + 1;
    }
  }

  lemma RunCons(s: State, e: Event, rest: seq<Event>)
    requires Enabled(s, e) && Valid(Next(s, e), rest)
    ensures Valid(s, [e] + rest) && Run(s, [e] + rest) == Run(Next(s, e), rest)
  {
    assert ([e] + rest)[1..] == rest;
  }

  /** One delivered message, settled twice. */
  function Twice(m: string, settle: Event): seq<Event> {
    [Put(m)] + ([Get] + ([settle] + ([settle] + [])))
  }

  /** Acknowledging twice counts a message twice; handing it back twice queues it twice. */
  lemma SettledTwice(m: string, settle: Event)
    requires settle == Ack(m) || settle == Nack(m)
    ensures Valid(Init, Twice(m, settle)) && !Conserved(Run(Init, Twice(m, settle)))
    ensures settle.Ack? ==> Run(Init, Twice(m, settle)).acked == multiset{m, m}
    ensures settle.Nack? ==> Run(Init, Twice(m, settle)).queue == [m, m]
  {
    var s1, s2 := Next(Init, Put(m)), Next(Next(Init, Put(m)), Get);
    Delivered(m);
    Resettled(s2, m, settle);
    RunCons(Next(s2, settle), settle, []);
    RunCons(s2, settle, [settle] + []);
    RunCons(s1, Get, [settle] + ([settle] + []));
    RunCons(Init, Put(m), [Get] + ([settle] + ([settle] + [])));
  }

  lemma Delivered(m: string)
    ensures Next(Next(Init, Put(m)), Get)
         == State([], [m], multiset{m}, multiset{}, multiset{m}, multiset{m})
  {
  }

  lemma Resettled(s: State, m: string, settle: Event)
    requires s == State([], [m], multiset{m}, multiset{}, multiset{m}, multiset{m})
    requires settle == Ack(m) || settle == Nack(m)
    ensures Enabled(s, settle) && Enabled(Next(s, settle), settle)
    ensures var s' := Next(Next(s, settle), settle);
      && !Conserved(s')
      && (settle.Ack? ==> s'.acked == multiset{m, m})
      && (settle.Nack? ==> s'.queue == [m, m])
  {
    var s' := Next(Next(s, settle), settle);
    assert s'.processing == [] && s'.put == multiset{m};
    assert settle.Ack? ==> s'.acked == multiset{m, m};
    assert settle.Nack? ==> s'.queue == [m, m];
    assert (Held(s') + s'.acked)[m] == 2 by {
      assert settle.Ack? ==> s'.acked[m] == 2 && s'.queue == [];
      assert settle.Nack? ==> multiset(s'.queue)[m] == 2;
    }
  }

  /** Every handle is settled at most once, and nothing is recovered. */
  predicate Once(s: State, run: seq<Event>)
    requires Valid(s, run)
    decreases |run|
  {
    run != [] ==>
      && !run[0].Recover?
      && (run[0].Ack? || run[0].Nack? ==> run[0].message in s.open)
      && Once(Next(s, run[0]), run[1..])
  }

  lemma {:induction false} ConservationFrom(s: State, run: seq<Event>)
    requires Conserved(s) && multiset(s.processing) == s.open && Valid(s, run) && Once(s, run)
    ensures var s' := Run(s, run);
      multiset(s'.queue) + multiset(s'.processing) + s'.acked == s'.put && multiset(s'.processing) == s'.open
    decreases |run|
  {
    if run != [] {
      var e := run[0];
      assert e.Ack? || e.Nack? ==> e.message in multiset(s.processing) && e.message in s.processing;
      ConservedStep(s, e);
      OpenStep(s, e);
      ConservationFrom(Next(s, e), run[1..]);
    }
  }

  /** Conservation: if every handle is settled at most once and nothing is recovered, queue, processing
      list and acknowledgements together are exactly what was put, and the processing list is exactly the
      messages of the handles still open. */
  lemma Conservation(run: seq<Event>)
    requires Valid(Init, run) && Once(Init, run)
    ensures var s := Run(Init, run);
      multiset(s.queue) + multiset(s.processing) + s.acked == s.put && multiset(s.processing) == s.open
  {
    ConservationFrom(Init, run);
  }

  lemma OpenStep(s: State, e: Event)
    requires multiset(s.processing) == s.open && Enabled(s, e) && !e.Recover?
    ensures multiset(Next(s, e).processing) == Next(s, e).open
  {
    match e
    case Put(m) =>
    case Get =>
      if s.queue != [] { GetOpens(s); }
    case Ack(m) => SettledHeld(s, e, m, m);
    case Nack(m) => SettledHeld(s, e, m, m);
  }

  // Order.

  function Reversed(s: seq<string>): seq<string> {
    if s == [] then [] else Reversed(s[1..]) + [s[0]]
  }

  lemma {:induction false} ReversedSnoc(s: seq<string>, m: string)
    ensures Reversed(s + [m]) == [m] + Reversed(s)
  {
    if s == [] {
      assert [m][1..] == [];
    } else {
      assert (s + [m])[1..] == s[1..] + [m];
      ReversedSnoc(s[1..], m);
    }
  }

  /** The messages put, in their order. */
  function PutIn(run: seq<Event>): seq<string> {
    if run == [] then [] else (if run[0].Put? then [run[0].message] else []) + PutIn(run[1..])
  }

  /** The messages handed out, in their order. */
  function HandedOut(s: State, run: seq<Event>): seq<string>
    requires Valid(s, run)
    decreases |run|
  {
    if run == [] then []
    else
      (if run[0].Get? && s.queue != [] then [s.queue[|s.queue| - 1]] else []) + HandedOut(Next(s, run[0]), run[1..])
  }

  lemma OrderStep(s: State, e: Event)
    requires Enabled(s, e) && !e.Nack? && !e.Recover?
    ensures (if e.Get? && s.queue != [] then [s.queue[|s.queue| - 1]] else []) + Reversed(Next(s, e).queue)
         == Reversed(s.queue) + if e.Put? then [e.message] else []
  {
    match e
    case Put(m) => assert ([m] + s.queue)[1..] == s.queue;
    case Get =>
      if s.queue != [] {
        var n := |s.queue| - 1;
        assert s.queue == s.queue[..n] + [s.queue[n]];
        ReversedSnoc(s.queue[..n], s.queue[n]);
      }
    case Ack(m) =>
  }

  lemma {:induction false} OrderFrom(s: State, run: seq<Event>)
    requires Valid(s, run) && forall k :: 0 <= k < |run| ==> !run[k].Nack? && !run[k].Recover?
    ensures HandedOut(s, run) + Reversed(Run(s, run).queue) == Reversed(s.queue) + PutIn(run)
    decreases |run|
  {
    if run != [] {
      var e, rest := run[0], run[1..];
      var head := if e.Get? && s.queue != [] then [s.queue[|s.queue| - 1]] else [];
      var put := if e.Put? then [e.message] else [];
      OrderStep(s, e);
      OrderFrom(Next(s, e), rest);
      Glue(head, HandedOut(Next(s, e), rest), Reversed(Run(s, run).queue),
           Reversed(Next(s, e).queue), PutIn(rest), Reversed(s.queue), put);
    }
  }

  lemma Glue(head: seq<string>, out: seq<string>, left: seq<string>,
             mid: seq<string>, puts: seq<string>, start: seq<string>, put: seq<string>)
    requires out + left == mid + puts && head + mid == start + put
    ensures (head + out) + left == start + (put + puts)
  {
    assert (head + out) + left == head + (out + left);
    assert head + (mid + puts) == (head + mid) + puts;
    assert (start + put) + puts == start + (put + puts);
  }

  /** A message handed back waits behind all others, and recovery takes the oldest one that is out. */
  lemma BackInLine(s: State, m: string)
    requires m in s.delivered
    ensures Reversed(Next(s, Nack(m)).queue) == Reversed(s.queue) + [m]
    ensures s.processing != [] ==>
      var oldest := s.processing[|s.processing| - 1];
      Reversed(Next(s, Recover).queue) == Reversed(s.queue) + [oldest]
  {
    assert ([m] + s.queue)[1..] == s.queue;
    if s.processing != [] {
      assert ([s.processing[|s.processing| - 1]] + s.queue)[1..] == s.queue;
    }
  }

  /** First in, first out: without nack and recovery the messages handed out, followed by those still
      waiting from the oldest on, are exactly the messages put, in their order. */
  lemma FirstInFirstOut(run: seq<Event>)
    requires Valid(Init, run) && forall k :: 0 <= k < |run| ==> !run[k].Nack? && !run[k].Recover?
    ensures HandedOut(Init, run) + Reversed(Run(Init, run).queue) == PutIn(run)
  {
    OrderFrom(Init, run);
    assert [] + PutIn(run) == PutIn(run);
  }
}
