/** The token-bucket limiter over the reals: the script as a function on its two keys, the same bucket
    without expiry, and the proof that the expiry is never noticed. */
module TokenBucket {
  import opened Wrappers
  import opened Redis

  datatype Verdict = Verdict(allowed: bool, limit: int, remaining: int, retryAfter: int, resetAt: int)

  function Ceil(x: real): int {
    -((-x).Floor)
  }

  /** What a limiter is built with; the constructors reject anything that is not positive. */
  datatype Config = Config(rate: real, capacity: int) {
    predicate Accepted() { rate > 0.0 && capacity > 0 }

    /** Seconds both keys live after an attempt: twice the time an empty bucket needs to fill. */
    function Ttl(): int
      requires Accepted()
    {
      Ceil(capacity as real / rate) * 2
    }
  }

  function Seconds(micros: nat): real {
    micros as real / 1000000.0
  }

  function Min(a: real, b: real): real { if a <= b then a else b }
  function Max(a: real, b: real): real { if a >= b then a else b }

  /** The level after refilling. */
  function Filled(c: Config, tokens: real, since: real, now: real): real {
    Min(c.capacity as real, tokens + Max(0.0, now - since) * c.rate)
  }

  function Left(filled: real, cost: int): real {
    if filled >= cost as real then filled - cost as real else filled
  }

  function Answer(c: Config, filled: real, cost: int, now: real): Verdict
    requires c.Accepted()
  {
    var allowed := filled >= cost as real;
    var retryAfter := if allowed then 0.0 else (cost as real - filled) / c.rate;
    var resetAt := now + (c.capacity as real - filled) / c.rate;
    Verdict(allowed, c.capacity, Left(filled, cost).Floor, (retryAfter * 1000.0).Floor, (resetAt * 1000.0).Floor)
  }

  predicate IsReal(cell: Cell) {
    cell.Some? ==> cell.value.value.Str? && cell.value.value.scalar.Real?
  }

  function RealOr(cell: Cell, default: real): real
    requires IsReal(cell)
  {
    if cell.Some? then cell.value.value.scalar.amount else default
  }

  /** The level the script computes from what its keys hold. */
  function Level(tokens: Cell, ts: Cell, c: Config, micros: nat): real
    requires IsReal(tokens) && IsReal(ts)
  {
    Filled(c, RealOr(tokens, c.capacity as real), RealOr(ts, Seconds(micros)), Seconds(micros))
  }

  function Kept(amount: real, micros: nat, ttl: int): Cell {
    Some(Entry(Str(Scalar.Real(amount)), Some(micros / 1000 + 1000 * ttl)))
  }

  lemma TtlIsLongEnough(c: Config)
    requires c.Accepted()
    ensures c.Ttl() >= 2 && c.Ttl() as real * c.rate >= 2.0 * c.capacity as real
  {
    var q := c.capacity as real / c.rate;
    assert q * c.rate == c.capacity as real;
    assert q > 0.0;
    assert Ceil(q) as real >= q && Ceil(q) >= 1;
    ProductGrows(q, Ceil(q) as real, c.rate);
  }

  lemma ProductGrows(a: real, b: real, rate: real)
    requires a <= b && rate >= 0.0
    ensures a * rate <= b * rate
  {
  }

  class Limiter {
    const client: Server
    const prefix: string
    const config: Config

    constructor (client: Server, prefix: string, config: Config)
      requires config.Accepted()
      ensures this.client == client && this.prefix == prefix && this.config == config
    {
      this.client, this.prefix, this.config := client, prefix, config;
    }

    /** Building a limiter fails for a rate or capacity that is not positive. */
    static method Create(client: Server, prefix: string, rate: real, capacity: int) returns (r: Limiter?)
      ensures r != null <==> rate > 0.0 && capacity > 0
      ensures r != null ==> fresh(r) && r.client == client && r.prefix == prefix && r.config == Config(rate, capacity)
    {
      r := null;
      if rate > 0.0 && capacity > 0 {
        r := new Limiter(client, prefix, Config(rate, capacity));
      }
    }

    function Base(key: string): string { "{" + prefix + ":" + key + "}" }
    function TokensKey(key: string): string { Base(key) + ":tokens" }
    function TsKey(key: string): string { Base(key) + ":ts" }

    method Acquire(key: string, cost: int) returns (verdict: Verdict)
      requires IsReal(client.At(TokensKey(key))) && IsReal(client.At(TsKey(key))) && config.Accepted()
      modifies client`db
      ensures var level := Level(old(client.At(TokensKey(key))), old(client.At(TsKey(key))), config, client.micros);
        && client.db == Store(Store(old(client.db),
             TokensKey(key), Kept(Left(level, cost), client.micros, config.Ttl())),
             TsKey(key), Kept(Seconds(client.micros), client.micros, config.Ttl()))
        && verdict == Answer(config, level, cost, Seconds(client.micros))
    {
      var tokensKey, tsKey := TokensKey(key), TsKey(key);
      assert |tokensKey| != |tsKey|;
      var now := Seconds(client.micros);
      var stored := client.Get(tokensKey);
      var lastTokens := if stored.None? then config.capacity as real else stored.value.amount;
      stored := client.Get(tsKey);
      var lastTs := if stored.None? then now else stored.value.amount;
      var newTokens;
      newTokens, verdict := Decide(now, lastTokens, lastTs, cost);
      assert config.Ttl() > 0 by { TtlIsLongEnough(config); }
      client.SetEx(tokensKey, Scalar.Real(newTokens), config.Ttl());
      client.SetEx(tsKey, Scalar.Real(now), config.Ttl());
    }

    /** The arithmetic of the script, between its reads and its writes. */
    method Decide(now: real, lastTokens: real, lastTs: real, cost: int) returns (newTokens: real, verdict: Verdict)
      requires config.Accepted()
      ensures var filled := Filled(config, lastTokens, lastTs, now);
        newTokens == Left(filled, cost) && verdict == Answer(config, filled, cost, now)
    {
      var rate, capacity := config.rate, config.capacity as real;
      var delta := Max(0.0, now - lastTs);
      var filled := Min(capacity, lastTokens + delta * rate);
      assert filled == Filled(config, lastTokens, lastTs, now);
      var allowed := filled >= cost as real;
      newTokens := filled;
      var retryAfter := 0.0;
      var resetAt := now + (capacity - filled) / rate;
      if allowed {
        newTokens := filled - cost as real;
      } else {
        retryAfter := (cost as real - filled) / rate;
      }
      verdict := Verdict(allowed, config.capacity, newTokens.Floor,
                         (retryAfter * 1000.0).Floor, (resetAt * 1000.0).Floor);
    }

    method Reset(key: string)
      modifies client`db
      ensures client.db == Store(Store(old(client.db), TokensKey(key), None), TsKey(key), None)
    {
      var _ := client.Del(TokensKey(key));
      var _ := client.Del(TsKey(key));
    }
  }

  // Runs.

  datatype Event = Wait(micros: nat) | Try(cost: int)

  datatype Stored = Stored(micros: nat, tokens: Cell, ts: Cell)

  /** A bucket whose keys never expire: no bucket yet, or a level and the time it was taken. */
  datatype Lasting = Lasting(micros: nat, bucket: Option<(real, real)>)

  predicate Typed(s: Stored) {
    IsReal(s.tokens) && IsReal(s.ts)
  }

  function StoredStep(s: Stored, c: Config, e: Event): (Stored, seq<Verdict>)
    requires Typed(s) && c.Accepted()
  {
    match e
    case Wait(d) =>
      var ms := (s.micros + d) / 1000;
      (Stored(s.micros + d, Aged(s.tokens, ms), Aged(s.ts, ms)), [])
    case Try(cost) =>
      var filled := Level(s.tokens, s.ts, c, s.micros);
      (Stored(s.micros, Kept(Left(filled, cost), s.micros, c.Ttl()), Kept(Seconds(s.micros), s.micros, c.Ttl())),
       [Answer(c, filled, cost, Seconds(s.micros))])
  }

  function LevelOf(i: Lasting, c: Config): real {
    match i.bucket
    case None => c.capacity as real
    case Some((tokens, since)) => Filled(c, tokens, since, Seconds(i.micros))
  }

  function LastingStep(i: Lasting, c: Config, e: Event): (Lasting, seq<Verdict>)
    requires c.Accepted()
  {
    match e
    case Wait(d) => (i.(micros := i.micros + d), [])
    case Try(cost) =>
      (i.(bucket := Some((Left(LevelOf(i, c), cost), Seconds(i.micros)))),
       [Answer(c, LevelOf(i, c), cost, Seconds(i.micros))])
  }

  function StoredRun(s: Stored, c: Config, run: seq<Event>): (r: (Stored, seq<Verdict>))
    requires Typed(s) && c.Accepted()
    ensures Typed(r.0)
    decreases |run|
  {
    if run == [] then (s, [])
    else
      var (s1, out) := StoredStep(s, c, run[0]);
      var (s2, rest) := StoredRun(s1, c, run[1..]);
      (s2, out + rest)
  }

  function LastingRun(i: Lasting, c: Config, run: seq<Event>): (Lasting, seq<Verdict>)
    requires c.Accepted()
    decreases |run|
  {
    if run == [] then (i, [])
    else
      var (i1, out) := LastingStep(i, c, run[0]);
      var (i2, rest) := LastingRun(i1, c, run[1..]);
      (i2, out + rest)
  }

  /** The lasting bucket is sound: its level is not negative and was taken in the past. */
  predicate Sound(i: Lasting) {
    i.bucket.Some? ==> i.bucket.value.0 >= 0.0 && i.bucket.value.1 <= Seconds(i.micros)
  }

  /** Both keys live or both are gone together; while they live they hold the lasting bucket and last
      long enough; once they are gone the lasting bucket is full. */
  predicate Simulates(s: Stored, i: Lasting, c: Config)
    requires c.Accepted()
  {
    && s.micros == i.micros && Typed(s) && Sound(i)
    && (s.tokens.None? <==> s.ts.None?)
    && (s.tokens.None? ==> LevelOf(i, c) == c.capacity as real)
    && (s.tokens.Some? ==>
          && i.bucket == Some((RealOr(s.tokens, 0.0), RealOr(s.ts, 0.0)))
          && s.tokens.value.deadline.Some? && s.ts.value.deadline == s.tokens.value.deadline
          && s.tokens.value.deadline.value as real > i.bucket.value.1 * 1000.0 - 1.0 + 1000.0 * c.Ttl() as real)
  }

  /** A bucket left alone for longer than the keys live is full. */
  lemma FullAfterTtl(i: Lasting, c: Config, deadline: int)
    requires c.Accepted() && Sound(i) && i.bucket.Some?
    requires deadline as real > i.bucket.value.1 * 1000.0 - 1.0 + 1000.0 * c.Ttl() as real
    requires i.micros / 1000 > deadline
    ensures LevelOf(i, c) == c.capacity as real
  {
    var elapsed := Seconds(i.micros) - i.bucket.value.1;
    assert (i.micros / 1000) as real <= i.micros as real / 1000.0;
    assert (i.micros / 1000) as real >= deadline as real + 1.0;
    assert elapsed > c.Ttl() as real;
    TtlIsLongEnough(c);
    ProductGrows(c.Ttl() as real, elapsed, c.rate);
  }

  lemma LevelInRange(i: Lasting, c: Config)
    requires c.Accepted() && Sound(i)
    ensures 0.0 <= LevelOf(i, c) <= c.capacity as real
  {
    if i.bucket.Some? {
      ProductGrows(0.0, Max(0.0, Seconds(i.micros) - i.bucket.value.1), c.rate);
    }
  }

  lemma SameStep(s: Stored, i: Lasting, c: Config, e: Event)
    requires c.Accepted() && Simulates(s, i, c)
    ensures StoredStep(s, c, e).1 == LastingStep(i, c, e).1
    ensures Simulates(StoredStep(s, c, e).0, LastingStep(i, c, e).0, c)
  {
    var s', i' := StoredStep(s, c, e).0, LastingStep(i, c, e).0;
    match e
    case Wait(d) =>
      assert Sound(i');
      if s.tokens.Some? && s'.tokens.None? {
        FullAfterTtl(i', c, s.tokens.value.deadline.value);
      } else if s.tokens.None? {
        StaysFull(i, c, d);
      }
    case Try(cost) =>
      LevelInRange(i, c);
      assert Level(s.tokens, s.ts, c, s.micros) == LevelOf(i, c);
      assert (s.micros / 1000) as real > s.micros as real / 1000.0 - 1.0;
  }

  lemma StaysFull(i: Lasting, c: Config, d: nat)
    requires c.Accepted() && Sound(i) && LevelOf(i, c) == c.capacity as real
    ensures LevelOf(i.(micros := i.micros + d), c) == c.capacity as real
  {
    if i.bucket.Some? {
      ProductGrows(Seconds(i.micros) - i.bucket.value.1, Seconds(i.micros + d) - i.bucket.value.1, c.rate);
    }
  }

  lemma {:induction false} SameRun(s: Stored, i: Lasting, c: Config, run: seq<Event>)
    requires c.Accepted() && Simulates(s, i, c)
    ensures StoredRun(s, c, run).1 == LastingRun(i, c, run).1
    ensures Simulates(StoredRun(s, c, run).0, LastingRun(i, c, run).0, c)
    decreases |run|
  {
    if run != [] {
      SameStep(s, i, c, run[0]);
      SameRun(StoredStep(s, c, run[0]).0, LastingStep(i, c, run[0]).0, c, run[1..]);
    }
  }

  const Start := Stored(0, None, None)
  const FullBucket := Lasting(0, None)

  /** Forgetting is invisible: over every run, whatever the costs, expiry changes no answer. */
  lemma ForgettingIsInvisible(c: Config, run: seq<Event>)
    requires c.Accepted()
    ensures StoredRun(Start, c, run).1 == LastingRun(FullBucket, c, run).1
    ensures Simulates(StoredRun(Start, c, run).0, LastingRun(FullBucket, c, run).0, c)
  {
    SameRun(Start, FullBucket, c, run);
  }

  // How much a run can admit.

  function Elapsed(run: seq<Event>): nat
    decreases |run|
  {
    if run == [] then 0 else (if run[0].Wait? then run[0].micros else 0) + Elapsed(run[1..])
  }

  /** The total cost of the admitted attempts. */
  function Admitted(run: seq<Event>, out: seq<Verdict>): int
    decreases |run|
  {
    if run == [] then 0
    else if run[0].Wait? then Admitted(run[1..], out)
    else if out == [] then 0
    else (if out[0].allowed then run[0].cost else 0) + Admitted(run[1..], out[1..])
  }

  /** Refilling composes: waiting only ever adds `rate` per second, up to the capacity. */
  lemma RefillComposes(i: Lasting, c: Config, d: nat)
    requires c.Accepted() && Sound(i)
    ensures LevelOf(i.(micros := i.micros + d), c) == Min(c.capacity as real, LevelOf(i, c) + Seconds(d) * c.rate)
  {
    ProductGrows(0.0, Seconds(d), c.rate);
    if i.bucket.Some? {
      var before := Seconds(i.micros) - i.bucket.value.1;
      assert Seconds(i.micros + d) - i.bucket.value.1 == before + Seconds(d);
      Distributes(before, Seconds(d), c.rate);
    }
  }

  lemma Distributes(a: real, b: real, rate: real)
    ensures (a + b) * rate == a * rate + b * rate
  {
  }

  /** What `rate` refills in that many microseconds. */
  function Refill(c: Config, micros: nat): real {
    Seconds(micros) * c.rate
  }

  lemma RefillSplits(c: Config, a: nat, b: nat)
    ensures Refill(c, a + b) == Refill(c, a) + Refill(c, b)
  {
    assert Seconds(a + b) == Seconds(a) + Seconds(b);
    Distributes(Seconds(a), Seconds(b), c.rate);
  }

  lemma WaitLevel(i: Lasting, c: Config, d: nat)
    requires c.Accepted() && Sound(i)
    ensures var i' := LastingStep(i, c, Wait(d)).0;
      Sound(i') && LevelOf(i', c) <= LevelOf(i, c) + Refill(c, d)
  {
    RefillComposes(i, c, d);
  }

  lemma AttemptLevel(i: Lasting, c: Config, cost: int)
    requires c.Accepted() && Sound(i)
    ensures var (i', out) := LastingStep(i, c, Try(cost));
      && Sound(i')
      && LevelOf(i', c) == Min(c.capacity as real, Left(LevelOf(i, c), cost))
      && LevelOf(i', c) + (if out[0].allowed then cost as real else 0.0) <= LevelOf(i, c)
  {
    LevelInRange(i, c);
  }

  lemma AdmittedCons(e: Event, rest: seq<Event>, out: seq<Verdict>, more: seq<Verdict>)
    requires |out| == if e.Try? then 1 else 0
    ensures Admitted([e] + rest, out + more)
         == (if e.Try? && out[0].allowed then e.cost else 0) + Admitted(rest, more)
  {
    assert ([e] + rest)[1..] == rest;
    if e.Try? {
      assert (out + more)[1..] == more;
    } else {
      assert out + more == more;
    }
  }

  lemma ElapsedCons(e: Event, rest: seq<Event>)
    ensures Elapsed([e] + rest) == (if e.Wait? then e.micros else 0) + Elapsed(rest)
  {
    assert ([e] + rest)[1..] == rest;
  }

  lemma {:induction false} LastingBound(i: Lasting, c: Config, run: seq<Event>)
    requires c.Accepted() && Sound(i)
    ensures var (i', out) := LastingRun(i, c, run);
      && Sound(i')
      && Admitted(run, out) as real + LevelOf(i', c) <= LevelOf(i, c) + Refill(c, Elapsed(run))
    decreases |run|
  {
    if run != [] {
      var e := run[0];
      var (i1, out) := LastingStep(i, c, e);
      assert Sound(i1) && LevelOf(i1, c) + (if e.Try? && out[0].allowed then e.cost as real else 0.0)
                          <= LevelOf(i, c) + (if e.Wait? then Refill(c, e.micros) else 0.0) by {
        if e.Wait? { WaitLevel(i, c, e.micros); } else { AttemptLevel(i, c, e.cost); }
      }
      LastingBound(i1, c, run[1..]);
      assert run == [e] + run[1..];
      ElapsedCons(e, run[1..]);
      AdmittedCons(e, run[1..], out, LastingRun(i1, c, run[1..]).1);
      if e.Wait? {
        RefillSplits(c, e.micros, Elapsed(run[1..]));
      }
    }
  }

  /** In any stretch of any run the admitted cost is at most the capacity plus what refills meanwhile. */
  lemma AdmissionBound(c: Config, before: seq<Event>, run: seq<Event>)
    requires c.Accepted()
    ensures var s := StoredRun(Start, c, before).0;
      Admitted(run, StoredRun(s, c, run).1) as real <= c.capacity as real + Refill(c, Elapsed(run))
  {
    var s, i := StoredRun(Start, c, before).0, LastingRun(FullBucket, c, before).0;
    ForgettingIsInvisible(c, before);
    SameRun(s, i, c, run);
    LastingBound(i, c, run);
    LevelInRange(i, c);
    LevelInRange(LastingRun(i, c, run).0, c);
  }

  predicate NoNegativeCost(run: seq<Event>) {
    forall k :: 0 <= k < |run| && run[k].Try? ==> run[k].cost >= 0
  }

  predicate InRange(i: Lasting, c: Config) {
    i.bucket.Some? ==> 0.0 <= i.bucket.value.0 <= c.capacity as real
  }

  lemma {:induction false} LastingInRange(i: Lasting, c: Config, run: seq<Event>)
    requires c.Accepted() && Sound(i) && InRange(i, c) && NoNegativeCost(run)
    ensures InRange(LastingRun(i, c, run).0, c)
    decreases |run|
  {
    if run != [] {
      LevelInRange(i, c);
      assert forall k :: 0 <= k < |run[1..]| ==> run[1..][k] == run[k + 1];
      LastingInRange(LastingStep(i, c, run[0]).0, c, run[1..]);
    }
  }

  /** The stored level stays between zero and the capacity when no cost is negative. */
  lemma StoredLevelInRange(c: Config, run: seq<Event>)
    requires c.Accepted() && NoNegativeCost(run)
    ensures var s := StoredRun(Start, c, run).0;
      s.tokens.Some? ==> 0.0 <= RealOr(s.tokens, 0.0) <= c.capacity as real
  {
    ForgettingIsInvisible(c, run);
    LastingInRange(FullBucket, c, run);
  }

  /** One attempt leaves at most the capacity exactly unless a negative cost is given back beyond it. */
  lemma StoredLevelExact(i: Lasting, c: Config, cost: int)
    requires c.Accepted() && Sound(i)
    ensures InRange(LastingStep(i, c, Try(cost)).0, c) <==> LevelOf(i, c) - cost as real <= c.capacity as real
                                                            || LevelOf(i, c) < cost as real
  {
    LevelInRange(i, c);
  }

  // Retry times.

  /** Only attempts of this cost, each before `horizon` seconds have passed. */
  predicate PollsBefore(elapsed: real, run: seq<Event>, cost: int, horizon: real)
    decreases |run|
  {
    run != [] ==> match run[0]
      case Wait(d) => PollsBefore(elapsed + Seconds(d), run[1..], cost, horizon)
      case Try(k) => k == cost && elapsed < horizon && PollsBefore(elapsed, run[1..], cost, horizon)
  }

  /** Seconds until a bucket at this level can pay the cost. */
  function Horizon(c: Config, level: real, cost: int): real
    requires c.Accepted()
  {
    (cost as real - level) / c.rate
  }

  lemma HorizonExact(c: Config, level: real, cost: int, elapsed: real)
    requires c.Accepted()
    ensures elapsed >= Horizon(c, level, cost) <==> level + elapsed * c.rate >= cost as real
  {
    var h := Horizon(c, level, cost);
    assert h * c.rate == cost as real - level;
    if elapsed >= h {
      ProductGrows(h, elapsed, c.rate);
    } else {
      ProductGrowsStrictly(elapsed, h, c.rate);
    }
  }

  lemma ProductGrowsStrictly(a: real, b: real, rate: real)
    requires a < b && rate > 0.0
    ensures a * rate < b * rate
  {
  }

  function Later(i: Lasting, micros: nat): Lasting {
    i.(micros := micros)
  }

  /** Denied polls leave no trace: the level is that of the bucket refused at `start`, left alone. */
  predicate Follows(i: Lasting, start: Lasting, c: Config) {
    Sound(i) && Sound(start) && start.micros <= i.micros && LevelOf(i, c) == LevelOf(Later(start, i.micros), c)
  }

  lemma PollWait(i: Lasting, start: Lasting, c: Config, d: nat)
    requires c.Accepted() && Follows(i, start, c)
    ensures Follows(LastingStep(i, c, Wait(d)).0, start, c)
  {
    RefillComposes(i, c, d);
    RefillComposes(Later(start, i.micros), c, d);
  }

  lemma PollTry(i: Lasting, start: Lasting, c: Config, cost: int)
    requires c.Accepted() && Follows(i, start, c) && LevelOf(i, c) < cost as real
    ensures var (i', out) := LastingStep(i, c, Try(cost));
      Follows(i', start, c) && |out| == 1 && !out[0].allowed
  {
    AttemptLevel(i, c, cost);
    LevelInRange(i, c);
  }

  /** A bucket left alone can pay exactly from the horizon on. */
  lemma PaysFromHorizon(start: Lasting, c: Config, cost: int, micros: nat)
    requires c.Accepted() && Sound(start) && cost <= c.capacity && start.micros <= micros
    ensures LevelOf(Later(start, micros), c) >= cost as real
       <==> Seconds(micros - start.micros) >= Horizon(c, LevelOf(start, c), cost)
  {
    RefillComposes(start, c, micros - start.micros);
    HorizonExact(c, LevelOf(start, c), cost, Seconds(micros - start.micros));
  }

  lemma {:induction false} PollingFrom(i: Lasting, start: Lasting, c: Config, run: seq<Event>, cost: int, horizon: real)
    requires c.Accepted() && Follows(i, start, c) && cost <= c.capacity
    requires horizon == Horizon(c, LevelOf(start, c), cost)
    requires PollsBefore(Seconds(i.micros - start.micros), run, cost, horizon)
    ensures var (i', out) := LastingRun(i, c, run);
      && (forall k :: 0 <= k < |out| ==> !out[k].allowed)
      && Follows(i', start, c) && i'.micros == i.micros + Elapsed(run)
    decreases |run|
  {
    if run != [] {
      var e := run[0];
      assert Follows(LastingStep(i, c, e).0, start, c) && (e.Try? ==> !LastingStep(i, c, e).1[0].allowed) by {
        if e.Wait? {
          PollWait(i, start, c, e.micros);
        } else {
          PaysFromHorizon(start, c, cost, i.micros);
          PollTry(i, start, c, cost);
        }
      }
      PollingFrom(LastingStep(i, c, e).0, start, c, run[1..], cost, horizon);
    }
  }

  /** After a denial of an affordable cost, with only that cost tried: every attempt sooner than
      (cost - level) / rate seconds is denied, and the first other one is admitted exactly if it comes
      no sooner; denied attempts in between do not move that instant. */
  lemma RetryIsExact(c: Config, before: seq<Event>, cost: int, run: seq<Event>)
    requires c.Accepted() && cost <= c.capacity
    requires var s := StoredRun(Start, c, before).0;
      var level := Level(s.tokens, s.ts, c, s.micros);
      level < cost as real && PollsBefore(0.0, run, cost, Horizon(c, level, cost))
    ensures var s := StoredRun(Start, c, before).0;
      var level := Level(s.tokens, s.ts, c, s.micros);
      var (s', out) := StoredRun(s, c, run);
      && (forall k :: 0 <= k < |out| ==> !out[k].allowed)
      && (StoredStep(s', c, Try(cost)).1[0].allowed <==> Seconds(Elapsed(run)) >= Horizon(c, level, cost))
  {
    var s, i := StoredRun(Start, c, before).0, LastingRun(FullBucket, c, before).0;
    ForgettingIsInvisible(c, before);
    SameRun(s, i, c, run);
    SameLevel(s, i, c);
    LevelInRange(i, c);
    PollingFrom(i, i, c, run, cost, Horizon(c, LevelOf(i, c), cost));
    PaysFromHorizon(i, c, cost, i.micros + Elapsed(run));
    SameLevel(StoredRun(s, c, run).0, LastingRun(i, c, run).0, c);
  }

  lemma SameLevel(s: Stored, i: Lasting, c: Config)
    requires c.Accepted() && Simulates(s, i, c)
    ensures Level(s.tokens, s.ts, c, s.micros) == LevelOf(i, c)
  {
    LevelInRange(i, c);
  }

  /** The hint is floored to milliseconds: one millisecond more always suffices, and the hint itself
      suffices exactly when flooring lost nothing. */
  lemma FlooredHint(c: Config, level: real, cost: int)
    requires c.Accepted() && level < cost as real
    ensures var hint := Answer(c, level, cost, 0.0).retryAfter;
      && hint >= 0
      && Seconds(1000 * (hint + 1)) >= Horizon(c, level, cost)
      && (Seconds(1000 * hint) >= Horizon(c, level, cost) <==> hint as real == Horizon(c, level, cost) * 1000.0)
  {
    var h := Horizon(c, level, cost);
    assert h > 0.0;
  }

  predicate IsWhole(x: real) {
    x.Floor as real == x
  }

  /** An attempt exactly `retry_after` milliseconds after a denial is admitted exactly when the missing
      tokens take a whole number of milliseconds to refill, and one millisecond later it always is. */
  lemma HintIsExact(c: Config, before: seq<Event>, cost: int)
    requires c.Accepted() && cost <= c.capacity
    requires !StoredStep(StoredRun(Start, c, before).0, c, Try(cost)).1[0].allowed
    ensures var s := StoredRun(Start, c, before).0;
      var level := Level(s.tokens, s.ts, c, s.micros);
      var (denied, out) := StoredStep(s, c, Try(cost));
      var hint := out[0].retryAfter;
      && hint >= 0
      && (AllowedAfter(denied, c, 1000 * hint, cost) <==> IsWhole((cost as real - level) / c.rate * 1000.0))
      && AllowedAfter(denied, c, 1000 * (hint + 1), cost)
  {
    var s := StoredRun(Start, c, before).0;
    var level := Level(s.tokens, s.ts, c, s.micros);
    var hint := StoredStep(s, c, Try(cost)).1[0].retryAfter;
    FlooredHint(c, level, cost);
    AfterDenial(c, before, cost, 1000 * hint);
    AfterDenial(c, before, cost, 1000 * (hint + 1));
  }

  /** Whether an attempt that many microseconds later is admitted. */
  predicate AllowedAfter(s: Stored, c: Config, micros: nat, cost: int)
    requires Typed(s) && c.Accepted()
  {
    StoredStep(StoredStep(s, c, Wait(micros)).0, c, Try(cost)).1[0].allowed
  }

  lemma AfterDenial(c: Config, before: seq<Event>, cost: int, micros: nat)
    requires c.Accepted() && cost <= c.capacity
    requires !StoredStep(StoredRun(Start, c, before).0, c, Try(cost)).1[0].allowed
    ensures var s := StoredRun(Start, c, before).0;
      var level := Level(s.tokens, s.ts, c, s.micros);
      AllowedAfter(StoredStep(s, c, Try(cost)).0, c, micros, cost) <==> Seconds(micros) >= Horizon(c, level, cost)
  {
    var s := StoredRun(Start, c, before).0;
    var level := Level(s.tokens, s.ts, c, s.micros);
    var run := [Try(cost), Wait(micros)];
    TryThenWait(s, c, cost, micros);
    assert PollsBefore(0.0, run, cost, Horizon(c, level, cost)) by {
      assert Horizon(c, level, cost) > 0.0;
      assert run[1..] == [Wait(micros)] && run[1..][1..] == [];
    }
    RetryIsExact(c, before, cost, run);
  }

  lemma RunCons(s: Stored, c: Config, e: Event, rest: seq<Event>)
    requires Typed(s) && c.Accepted()
    ensures StoredRun(s, c, [e] + rest).0 == StoredRun(StoredStep(s, c, e).0, c, rest).0
  {
    assert ([e] + rest)[1..] == rest;
  }

  lemma TryThenWait(s: Stored, c: Config, cost: int, micros: nat)
    requires Typed(s) && c.Accepted()
    ensures var run := [Try(cost), Wait(micros)];
      && StoredRun(s, c, run).0 == StoredStep(StoredStep(s, c, Try(cost)).0, c, Wait(micros)).0
      && Elapsed(run) == micros
  {
    var s1 := StoredStep(s, c, Try(cost)).0;
    RunCons(s, c, Try(cost), [Wait(micros)]);
    RunCons(s1, c, Wait(micros), []);
    ElapsedCons(Try(cost), [Wait(micros)]);
    ElapsedCons(Wait(micros), []);
    assert [Try(cost)] + [Wait(micros)] == [Try(cost), Wait(micros)] && [Wait(micros)] + [] == [Wait(micros)];
  }

  /** With three tokens a second a missing token takes 333 1/3 ms: an attempt after the hint of 333 ms is
      denied again. */
  lemma EarlyHint()
    ensures var c := Config(3.0, 1);
      && c.Accepted()
      && var (denied, out) := StoredStep(StoredRun(Start, c, [Try(1)]).0, c, Try(1));
        !out[0].allowed && out[0].retryAfter == 333 && !AllowedAfter(denied, c, 333000, 1)
  {
    var c := Config(3.0, 1);
    HintIsExact(c, [Try(1)], 1);
  }

  /** A negative cost on a full bucket is admitted and stores more than the capacity. */
  lemma NegativeCostOverfills()
    ensures var c := Config(1.0, 1);
      && c.Accepted()
      && var (s, out) := StoredRun(Start, c, [Try(-1)]);
        out[0].allowed && s.tokens.Some? && RealOr(s.tokens, 0.0) > c.capacity as real
  {
    assert [Try(-1)][1..] == [];
  }

  /** A cost above the capacity is never admitted. */
  lemma TooExpensive(c: Config, before: seq<Event>, cost: int)
    requires c.Accepted() && cost > c.capacity
    ensures !StoredStep(StoredRun(Start, c, before).0, c, Try(cost)).1[0].allowed
  {
    var s, i := StoredRun(Start, c, before).0, LastingRun(FullBucket, c, before).0;
    ForgettingIsInvisible(c, before);
    SameLevel(s, i, c);
    LevelInRange(i, c);
  }
}
