/** Many threads of one process on a tiered cache while anybody writes, deletes or expires keys of the
    Redis cache between any two steps: how old an answer from the local level can be. */
module Staleness {
  import opened Wrappers
  import opened Tiered

  datatype Config = Config(maxsize: int, localTtl: real, negativeTtl: real, delay: real)

  /** A call between its access to the Redis cache and its write to the local one.  `deadline` is fixed
      when the call reads the clock, before it takes the local lock. */
  datatype Pending =
    | Seen(key: string, raw: Option<Datum>, at: real)
    | Stamped(key: string, raw: Option<Datum>, deadline: real)

  /** What the Redis cache held, at some moment. */
  datatype Moment = Moment(time: real, l2: Contents)

  datatype State = State(time: real, l2: Contents, past: seq<Moment>, l1: Lru.Items<Local>, pending: multiset<Pending>)

  datatype Event =
    | Pass(dt: real)
    | Outside(key: string, raw: Option<Datum>)
    | Read(key: string)
    | Write(key: string, datum: Datum)
    | Stamp(p: Pending)
    | Apply(p: Pending, lucky: bool)
    | Drop(p: Pending)
    | LocalGet(key: string)
    | LocalDelete(key: string)
    | LocalClear

  function Changed(l2: Contents, key: string, raw: Option<Datum>): Contents {
    if raw.Some? then l2[key := raw.value] else l2 - {key}
  }

  function TtlOf(c: Config, raw: Option<Datum>): real {
    if raw.Some? then c.localTtl else c.negativeTtl
  }

  /** A call reads the clock for its local entry at most `delay` after its access to the Redis cache. */
  predicate Enabled(s: State, c: Config, e: Event) {
    match e
    case Pass(dt) => dt >= 0.0
    case Stamp(p) => p in s.pending && p.Seen? && s.time - p.at <= c.delay
    case Apply(p, _) => p in s.pending && p.Stamped?
    case Drop(p) => p in s.pending
    case _ => true
  }

  /** `past` grows by one moment whenever the Redis cache is read or written. */
  function Next(s: State, c: Config, e: Event): State
    requires Enabled(s, c, e)
  {
    match e
    case Pass(dt) => s.(time := s.time + dt)
    case Outside(key, raw) => Recorded(s, Changed(s.l2, key, raw))
    case Read(key) => Recorded(s, s.l2).(pending := s.pending + multiset{Seen(key, Raw(s.l2, key), s.time)})
    case Write(key, datum) =>
      Recorded(s, s.l2[key := datum]).(pending := s.pending + multiset{Seen(key, Some(datum), s.time)})
    case Stamp(p) =>
      s.(pending := s.pending - multiset{p} + multiset{Stamped(p.key, p.raw, s.time + TtlOf(c, p.raw))})
    case Apply(p, lucky) =>
      var slot := Lru.Slot(p.key, AsLocal(p.raw), p.deadline);
      s.(l1 := Lru.Cleaned(Lru.Set(s.l1, c.maxsize, slot), s.time, lucky), pending := s.pending - multiset{p})
    case Drop(p) => s.(pending := s.pending - multiset{p})
    case LocalGet(key) => s.(l1 := Lru.Get(s.l1, key, s.time).0)
    case LocalDelete(key) => s.(l1 := Lru.Without(s.l1, key))
    case LocalClear => s.(l1 := [])
  }

  function Recorded(s: State, l2: Contents): State {
    s.(l2 := l2, past := s.past + [Moment(s.time, l2)])
  }

  /** At some recorded moment, no earlier than `since`, the Redis cache held exactly this for the key. */
  ghost predicate HeldSince(past: seq<Moment>, key: string, raw: Option<Datum>, since: real) {
    exists i :: 0 <= i < |past| && past[i].time >= since && Raw(past[i].l2, key) == raw
  }

  ghost predicate Justified(s: State, c: Config, p: Pending) {
    match p
    case Seen(key, raw, at) => HeldSince(s.past, key, raw, at)
    case Stamped(key, raw, deadline) => HeldSince(s.past, key, raw, deadline - TtlOf(c, raw) - c.delay)
  }

  ghost predicate JustifiedSlot(s: State, c: Config, slot: Lru.Slot<Local>) {
    HeldSince(s.past, slot.key, AsRaw(slot.value), slot.expireAt - TtlOf(c, AsRaw(slot.value)) - c.delay)
  }

  ghost predicate Inv(s: State, c: Config) {
    && (forall p :: p in s.pending ==> Justified(s, c, p))
    && (forall slot :: slot in s.l1 ==> JustifiedSlot(s, c, slot))
    && (forall i :: 0 <= i < |s.past| ==> s.past[i].time <= s.time)
  }

  lemma HeldStill(past: seq<Moment>, more: seq<Moment>, key: string, raw: Option<Datum>, since: real, earlier: real)
    requires HeldSince(past, key, raw, since) && earlier <= since
    ensures HeldSince(past + more, key, raw, earlier)
  {
    var i :| 0 <= i < |past| && past[i].time >= since && Raw(past[i].l2, key) == raw;
    assert (past + more)[i] == past[i];
  }

  lemma PendingStep(s: State, c: Config, e: Event, p: Pending)
    requires Inv(s, c) && Enabled(s, c, e) && p in Next(s, c, e).pending
    ensures Justified(Next(s, c, e), c, p)
  {
    var s' := Next(s, c, e);
    var more := s'.past[|s.past|..];
    assert s'.past == s.past + more;
    if p in s.pending {
      var since := if p.Seen? then p.at else p.deadline - TtlOf(c, p.raw) - c.delay;
      HeldStill(s.past, more, p.key, p.raw, since, since);
    } else if e.Stamp? {
      HeldStill(s.past, more, p.key, p.raw, e.p.at, p.deadline - TtlOf(c, p.raw) - c.delay);
    } else {
      assert s'.past[|s.past|] == Moment(s.time, s'.l2);
    }
  }

  lemma SlotStep(s: State, c: Config, e: Event, slot: Lru.Slot<Local>)
    requires Inv(s, c) && Enabled(s, c, e) && slot in Next(s, c, e).l1
    ensures JustifiedSlot(Next(s, c, e), c, slot)
  {
    var s' := Next(s, c, e);
    var more := s'.past[|s.past|..];
    assert s'.past == s.past + more;
    var since := slot.expireAt - TtlOf(c, AsRaw(slot.value)) - c.delay;
    if slot in s.l1 {
      HeldStill(s.past, more, slot.key, AsRaw(slot.value), since, since);
    } else {
      SlotOrigin(s, c, e, slot);
      HeldStill(s.past, more, slot.key, AsRaw(slot.value), since, since);
    }
  }

  lemma SlotOrigin(s: State, c: Config, e: Event, slot: Lru.Slot<Local>)
    requires Enabled(s, c, e) && slot in Next(s, c, e).l1 && slot !in s.l1
    ensures e.Apply? && slot == Lru.Slot(e.p.key, AsLocal(e.p.raw), e.p.deadline)
  {
  }

  lemma InvStep(s: State, c: Config, e: Event)
    requires Inv(s, c) && Enabled(s, c, e)
    ensures Inv(Next(s, c, e), c)
  {
    forall p | p in Next(s, c, e).pending ensures Justified(Next(s, c, e), c, p) {
      PendingStep(s, c, e, p);
    }
    forall slot | slot in Next(s, c, e).l1 ensures JustifiedSlot(Next(s, c, e), c, slot) {
      SlotStep(s, c, e, slot);
    }
  }

  predicate Valid(s: State, c: Config, run: seq<Event>)
    decreases |run|
  {
    run == [] || (Enabled(s, c, run[0]) && Valid(Next(s, c, run[0]), c, run[1..]))
  }

  function Run(s: State, c: Config, run: seq<Event>): State
    requires Valid(s, c, run)
    decreases |run|
  {
    if run == [] then s else Run(Next(s, c, run[0]), c, run[1..])
  }

  lemma {:induction false} AlwaysInv(s: State, c: Config, run: seq<Event>)
    requires Inv(s, c) && Valid(s, c, run)
    ensures Inv(Run(s, c, run), c)
    decreases |run|
  {
    if run != [] {
      InvStep(s, c, run[0]);
      AlwaysInv(Next(s, c, run[0]), c, run[1..]);
    }
  }

  predicate Fresh(s: State) {
    s.past == [] && s.l1 == [] && s.pending == multiset{}
  }

  /** Bounded staleness: whatever others do, a value that the local level answers at time t was held by
      the Redis cache no earlier than t - local_ttl - delay, and an answer from its marker for missing
      keys means the Redis cache lacked the key no earlier than t - negative_ttl - delay. */
  lemma BoundedStaleness(start: State, c: Config, run: seq<Event>, key: string)
    requires Fresh(start) && Valid(start, c, run)
    requires Lru.Get(Run(start, c, run).l1, key, Run(start, c, run).time).1.Some?
    ensures var s := Run(start, c, run);
      match Lru.Get(s.l1, key, s.time).1.value
      case Hit(datum) => HeldSince(s.past, key, Some(datum), s.time - c.localTtl - c.delay)
      case Negative => HeldSince(s.past, key, None, s.time - c.negativeTtl - c.delay)
  {
    AlwaysInv(start, c, run);
    var s := Run(start, c, run);
    var slot := Lru.Find(s.l1, key).value;
    assert JustifiedSlot(s, c, slot);
    var since := slot.expireAt - TtlOf(c, AsRaw(slot.value)) - c.delay;
    HeldStill(s.past, [], key, AsRaw(slot.value), since, s.time - TtlOf(c, AsRaw(slot.value)) - c.delay);
    assert s.past + [] == s.past;
  }
}
