/** Exactly what a token bucket gives out: no token is lost, none is made up, and what it reports is so. */
module TokenBucketExact {
  import opened Wrappers
  import opened TokenBucket

  // Conservation.

  /** What runs over the brim in one step: refill beyond the capacity, or a negative cost given back beyond it. */
  function Spilled(i: Lasting, c: Config, e: Event): real {
    var level := LevelOf(i, c);
    match e
    case Wait(d) => Max(0.0, level + Refill(c, d) - c.capacity as real)
    case Try(cost) => if level >= cost as real then Max(0.0, level - cost as real - c.capacity as real) else 0.0
  }

  function Overflow(i: Lasting, c: Config, run: seq<Event>): real
    requires c.Accepted()
    decreases |run|
  {
    if run == [] then 0.0 else Spilled(i, c, run[0]) + Overflow(LastingStep(i, c, run[0]).0, c, run[1..])
  }

  lemma WaitConserves(i: Lasting, c: Config, d: nat)
    requires c.Accepted() && Sound(i)
    ensures var i' := LastingStep(i, c, Wait(d)).0;
      Sound(i') && LevelOf(i', c) == LevelOf(i, c) + Refill(c, d) - Spilled(i, c, Wait(d))
  {
    RefillComposes(i, c, d);
    WaitLevel(i, c, d);
  }

  lemma TryConserves(i: Lasting, c: Config, cost: int)
    requires c.Accepted() && Sound(i)
    ensures var (i', out) := LastingStep(i, c, Try(cost));
      && Sound(i') && |out| == 1 && (out[0].allowed <==> cost as real <= LevelOf(i, c))
      && LevelOf(i', c) + (if out[0].allowed then cost as real else 0.0) == LevelOf(i, c) - Spilled(i, c, Try(cost))
  {
    AttemptLevel(i, c, cost);
    LevelInRange(i, c);
  }

  /** One step: level after plus what was admitted is level before plus refill minus what ran over. */
  lemma StepConserves(i: Lasting, c: Config, e: Event)
    requires c.Accepted() && Sound(i)
    ensures var (i', out) := LastingStep(i, c, e);
      && Sound(i') && |out| == (if e.Try? then 1 else 0)
      && (e.Try? ==> (out[0].allowed <==> e.cost as real <= LevelOf(i, c)))
      && LevelOf(i', c) + (if e.Try? && out[0].allowed then e.cost as real else 0.0)
         == LevelOf(i, c) + (if e.Wait? then Refill(c, e.micros) else 0.0) - Spilled(i, c, e)
  {
    match e
    case Wait(d) => WaitConserves(i, c, d);
    case Try(cost) => TryConserves(i, c, cost);
  }

  lemma {:induction false} LastingConserves(i: Lasting, c: Config, run: seq<Event>)
    requires c.Accepted() && Sound(i)
    ensures var (i', out) := LastingRun(i, c, run);
      LevelOf(i', c) + Admitted(run, out) as real == LevelOf(i, c) + Refill(c, Elapsed(run)) - Overflow(i, c, run)
    decreases |run|
  {
    if run != [] {
      var e := run[0];
      var (i1, out) := LastingStep(i, c, e);
      StepConserves(i, c, e);
      LastingConserves(i1, c, run[1..]);
      assert run == [e] + run[1..];
      ElapsedCons(e, run[1..]);
      AdmittedCons(e, run[1..], out, LastingRun(i1, c, run[1..]).1);
      if e.Wait? {
        RefillSplits(c, e.micros, Elapsed(run[1..]));
      }
    }
  }

  /** The level the script would compute right now. */
  function LevelNow(s: Stored, c: Config): real
    requires Typed(s)
  {
    Level(s.tokens, s.ts, c, s.micros)
  }

  /** Conservation over any stretch of any run: level after plus admitted cost equals level before plus
      refill minus overflow, and nothing overflows but what exceeds the capacity. */
  lemma Conservation(c: Config, before: seq<Event>, run: seq<Event>)
    requires c.Accepted()
    ensures var s := StoredRun(Start, c, before).0;
      var (s', out) := StoredRun(s, c, run);
      LevelNow(s', c) + Admitted(run, out) as real
      == LevelNow(s, c) + Refill(c, Elapsed(run)) - Overflow(LastingRun(FullBucket, c, before).0, c, run)
  {
    var s, i := StoredRun(Start, c, before).0, LastingRun(FullBucket, c, before).0;
    ForgettingIsInvisible(c, before);
    SameRun(s, i, c, run);
    SameLevel(s, i, c);
    SameLevel(StoredRun(s, c, run).0, LastingRun(i, c, run).0, c);
    LastingConserves(i, c, run);
  }

  // Attempts without waiting.

  function Tries(costs: seq<int>): seq<Event> {
    if costs == [] then [] else [Try(costs[0])] + Tries(costs[1..])
  }

  /** Spending greedily from a level: what is admitted, and what is left each time. */
  function Greedy(level: real, costs: seq<int>): seq<(bool, real)>
    decreases |costs|
  {
    if costs == [] then []
    else
      var ok := costs[0] as real <= level;
      var left := if ok then level - costs[0] as real else level;
      [(ok, left)] + Greedy(left, costs[1..])
  }

  predicate NoNegative(costs: seq<int>) {
    forall k :: 0 <= k < |costs| ==> costs[k] >= 0
  }

  predicate AsGreedy(out: seq<Verdict>, expected: seq<(bool, real)>, capacity: int) {
    |out| == |expected| && forall k :: 0 <= k < |out| ==>
      out[k].limit == capacity && out[k].allowed == expected[k].0 && out[k].remaining == expected[k].1.Floor
  }

  lemma TryLeaves(i: Lasting, c: Config, cost: int)
    requires c.Accepted() && Sound(i) && cost >= 0
    ensures var (i', out) := LastingStep(i, c, Try(cost));
      var ok := cost as real <= LevelOf(i, c);
      && Sound(i') && |out| == 1 && out[0].allowed == ok
      && LevelOf(i', c) == (if ok then LevelOf(i, c) - cost as real else LevelOf(i, c))
      && out[0].remaining == LevelOf(i', c).Floor
  {
    StepConserves(i, c, Try(cost));
    LevelInRange(i, c);
    AttemptLevel(i, c, cost);
  }

  lemma {:induction false} LastingGreedy(i: Lasting, c: Config, costs: seq<int>)
    requires c.Accepted() && Sound(i) && NoNegative(costs)
    ensures AsGreedy(LastingRun(i, c, Tries(costs)).1, Greedy(LevelOf(i, c), costs), c.capacity)
    decreases |costs|
  {
    if costs != [] {
      var (i1, out) := LastingStep(i, c, Try(costs[0]));
      TryLeaves(i, c, costs[0]);
      LastingGreedy(i1, c, costs[1..]);
      assert ([Try(costs[0])] + Tries(costs[1..]))[1..] == Tries(costs[1..]);
    }
  }

  /** Without waiting, attempts are admitted exactly while the costs admitted so far plus their own stay
      within the level at the start, and each reports the whole tokens left. */
  lemma BurstIsGreedy(c: Config, before: seq<Event>, costs: seq<int>)
    requires c.Accepted() && NoNegative(costs)
    ensures var s := StoredRun(Start, c, before).0;
      AsGreedy(StoredRun(s, c, Tries(costs)).1, Greedy(LevelNow(s, c), costs), c.capacity)
  {
    var s, i := StoredRun(Start, c, before).0, LastingRun(FullBucket, c, before).0;
    ForgettingIsInvisible(c, before);
    SameRun(s, i, c, Tries(costs));
    SameLevel(s, i, c);
    LastingGreedy(i, c, costs);
  }

  function Ones(n: nat): seq<int> {
    seq(n, k requires 0 <= k < n => 1)
  }

  lemma {:induction false} GreedyOnes(level: real, n: nat)
    requires level >= 0.0
    ensures |Greedy(level, Ones(n))| == n
    ensures forall k :: 0 <= k < n ==> (Greedy(level, Ones(n))[k].0 <==> k < level.Floor)
    decreases n
  {
    if n > 0 {
      assert Ones(n)[1..] == Ones(n - 1);
      var left := if 1.0 <= level then level - 1.0 else level;
      GreedyOnes(left, n - 1);
      assert Greedy(level, Ones(n)) == [(1.0 <= level, left)] + Greedy(left, Ones(n - 1));
      assert 1.0 <= level <==> level.Floor >= 1;
      assert 1.0 <= level ==> left.Floor == level.Floor - 1;
    }
  }

  /** `remaining`: right after an attempt, exactly that many unit attempts more are admitted. */
  lemma RemainingIsExact(c: Config, before: seq<Event>, cost: int, n: nat)
    requires c.Accepted() && cost >= 0
    ensures var (s, out) := StoredStep(StoredRun(Start, c, before).0, c, Try(cost));
      var more := StoredRun(s, c, Tries(Ones(n))).1;
      |more| == n && forall k :: 0 <= k < n ==> (more[k].allowed <==> k < out[0].remaining)
  {
    var s0, i0 := StoredRun(Start, c, before).0, LastingRun(FullBucket, c, before).0;
    ForgettingIsInvisible(c, before);
    SameStep(s0, i0, c, Try(cost));
    var s, i := StoredStep(s0, c, Try(cost)).0, LastingStep(i0, c, Try(cost)).0;
    TryLeaves(i0, c, cost);
    LevelInRange(i, c);
    SameRun(s, i, c, Tries(Ones(n)));
    LastingGreedy(i, c, Ones(n));
    GreedyOnes(LevelOf(i, c), n);
  }

  // When the bucket is full.

  /** The instant a bucket at this level, left alone, is full. */
  function FullAt(c: Config, level: real, micros: nat): real
    requires c.Accepted()
  {
    Seconds(micros) + (c.capacity as real - level) / c.rate
  }

  lemma FullFrom(i: Lasting, c: Config, d: nat)
    requires c.Accepted() && Sound(i)
    ensures LevelOf(Later(i, i.micros + d), c) == c.capacity as real
       <==> Seconds(i.micros + d) >= FullAt(c, LevelOf(i, c), i.micros)
  {
    LevelInRange(i, c);
    RefillComposes(i, c, d);
    assert Seconds(i.micros + d) == Seconds(i.micros) + Seconds(d);
    Reaches(c, c.capacity as real - LevelOf(i, c), Seconds(d));
  }

  lemma Reaches(c: Config, missing: real, elapsed: real)
    requires c.Accepted()
    ensures elapsed * c.rate >= missing <==> elapsed >= missing / c.rate
  {
    var h := missing / c.rate;
    assert h * c.rate == missing;
    if elapsed >= h {
      ProductGrows(h, elapsed, c.rate);
    } else {
      ProductGrowsStrictly(elapsed, h, c.rate);
    }
  }

  /** `reset_at`: left alone after an attempt the bucket is full exactly from `FullAt` of the level left on.
      A denial reports that instant, floored to a millisecond; an admission reports it less the time its own
      cost takes to refill. */
  lemma ResetIsExact(c: Config, before: seq<Event>, cost: int, d: nat)
    requires c.Accepted() && cost >= 0
    ensures var (s, out) := StoredStep(StoredRun(Start, c, before).0, c, Try(cost));
      var full := FullAt(c, LevelNow(s, c), s.micros);
      && (LevelNow(StoredStep(s, c, Wait(d)).0, c) == c.capacity as real <==> Seconds(s.micros + d) >= full)
      && out[0].resetAt == ((full - if out[0].allowed then cost as real / c.rate else 0.0) * 1000.0).Floor
  {
    var s0, i0 := StoredRun(Start, c, before).0, LastingRun(FullBucket, c, before).0;
    ForgettingIsInvisible(c, before);
    SameStep(s0, i0, c, Try(cost));
    var s, i := StoredStep(s0, c, Try(cost)).0, LastingStep(i0, c, Try(cost)).0;
    TryLeaves(i0, c, cost);
    SameLevel(s0, i0, c);
    SameLevel(s, i, c);
    SameStep(s, i, c, Wait(d));
    SameLevel(StoredStep(s, c, Wait(d)).0, LastingStep(i, c, Wait(d)).0, c);
    FullFrom(i, c, d);
    ResetText(c, LevelOf(i0, c), cost, i0.micros);
  }

  lemma ResetText(c: Config, level: real, cost: int, micros: nat)
    requires c.Accepted()
    ensures var v := Answer(c, level, cost, Seconds(micros));
      var left := if v.allowed then level - cost as real else level;
      v.resetAt == ((FullAt(c, left, micros) - if v.allowed then cost as real / c.rate else 0.0) * 1000.0).Floor
  {
    var cap, k := c.capacity as real, cost as real;
    assert (cap - (level - k)) / c.rate == (cap - level) / c.rate + k / c.rate;
  }

  /** A full bucket of ten admits one: it reports being full now, with nine tokens left. */
  lemma EarlyReset()
    ensures var c := Config(1.0, 10);
      && c.Accepted()
      && var (s, out) := StoredStep(Start, c, Try(1));
        out[0].allowed && out[0].resetAt == 0 && out[0].remaining == 9 && LevelNow(s, c) == 9.0
  {
  }

  /** Both keys live for twice the filling time, rounded up to whole seconds, from every attempt on. */
  lemma KeysLive(s: Stored, c: Config, cost: int)
    requires c.Accepted() && Typed(s)
    ensures 2.0 * c.capacity as real / c.rate <= c.Ttl() as real < 2.0 * c.capacity as real / c.rate + 2.0
    ensures var s' := StoredStep(s, c, Try(cost)).0;
      var deadline := s.micros / 1000 + 1000 * c.Ttl();
      && s'.tokens.Some? && s'.tokens.value.deadline == Some(deadline)
      && s'.ts.Some? && s'.ts.value.deadline == Some(deadline)
  {
    var q := c.capacity as real / c.rate;
    assert 2.0 * c.capacity as real / c.rate == 2.0 * q;
    assert q <= Ceil(q) as real < q + 1.0;
  }
}
