/** The sliding-window limiter: the script as a function on its sorted set, an ideal limiter that never
    forgets an admission, and the proof that no run tells them apart. */
module SlidingWindow {
  import opened Wrappers
  import opened Redis

  datatype Verdict = Verdict(allowed: bool, limit: int, remaining: int, retryAfter: int, resetAt: int)

  /** The limits a limiter is built with; both constructors reject anything that is not positive. */
  datatype Config = Config(limit: int, window: int) {
    predicate Accepted() { limit > 0 && window > 0 }
    function Ms(): int { window * 1000 }
  }

  lemma {:induction false} LowestExists(scores: map<string, int>) returns (low: int)
    requires scores != map[]
    ensures IsLowest(scores, low)
    decreases |scores|
  {
    var m :| m in scores;
    var rest := scores - {m};
    if rest == map[] {
      low := scores[m];
      assert forall k :: k in scores && k != m ==> k in rest;
    } else {
      var l := LowestExists(rest);
      low := if scores[m] < l then scores[m] else l;
      assert forall k :: k in scores && k != m ==> k in rest && rest[k] == scores[k];
    }
  }

  ghost function Lowest(scores: map<string, int>): (low: int)
    requires scores != map[]
    ensures IsLowest(scores, low)
  {
    assert exists low :: IsLowest(scores, low) by { var low := LowestExists(scores); }
    var low :| IsLowest(scores, low);
    low
  }

  /** The answer when `inside` are the admissions that still count. */
  ghost function Answer(inside: map<string, int>, c: Config, now: int): Verdict {
    if |inside| < c.limit then
      Verdict(true, c.limit, if c.limit - |inside| - 1 > 0 then c.limit - |inside| - 1 else 0, 0, now + c.Ms())
    else if inside == map[] then
      Verdict(false, c.limit, 0, 0, now + c.Ms())
    else
      Verdict(false, c.limit, 0, Lowest(inside) + c.Ms() - now, Lowest(inside) + c.Ms())
  }

  lemma AnswerDenied(inside: map<string, int>, c: Config, now: int, oldest: int)
    requires |inside| >= c.limit && IsLowest(inside, oldest)
    ensures Answer(inside, c, now) == Verdict(false, c.limit, 0, oldest + c.Ms() - now, oldest + c.Ms())
  {
  }

  /** The key without the admissions up to `bound`. */
  function Pruned(cell: Cell, bound: int): (r: Cell)
    requires IsZSet(cell)
    ensures IsZSet(r) && ScoresOf(r) == Above(ScoresOf(cell), bound)
  {
    ZSetCell(Above(ScoresOf(cell), bound), DeadlineOf(cell))
  }

  /** The key with one more admission, and a second more to live than the window is long. */
  function Joined(cell: Cell, c: Config, member: string, now: int): Cell
    requires IsZSet(cell)
  {
    WithDeadline(ZSetCell(ScoresOf(cell)[member := now], DeadlineOf(cell)), now, c.Ms() + 1000)
  }

  /** The script on its key. */
  ghost function Script(cell: Cell, c: Config, member: string, now: int): (Cell, Verdict)
    requires IsZSet(cell)
  {
    var pruned := Pruned(cell, now - c.Ms());
    (if |ScoresOf(pruned)| < c.limit then Joined(pruned, c, member, now) else pruned,
     Answer(ScoresOf(pruned), c, now))
  }

  lemma ScriptParts(cell: Cell, c: Config, member: string, now: int, pruned: Cell, out: (Cell, Verdict))
    requires IsZSet(cell) && pruned == Pruned(cell, now - c.Ms()) && out == Script(cell, c, member, now)
    ensures out.1 == Answer(ScoresOf(pruned), c, now)
    ensures out.0 == if |ScoresOf(pruned)| < c.limit then Joined(pruned, c, member, now) else pruned
  {
  }

  class Limiter {
    const client: Server
    const config: Config

    constructor (client: Server, config: Config)
      requires config.Accepted()
      ensures this.client == client && this.config == config
    {
      this.client, this.config := client, config;
    }

    /** Building a limiter fails for a limit or window that is not positive. */
    static method Create(client: Server, limit: int, window: int) returns (r: Limiter?)
      ensures r != null <==> limit > 0 && window > 0
      ensures r != null ==> fresh(r) && r.client == client && r.config == Config(limit, window)
    {
      r := null;
      if limit > 0 && window > 0 {
        r := new Limiter(client, Config(limit, window));
      }
    }

    method Acquire(key: string, member: string) returns (verdict: Verdict)
      requires IsZSet(client.At(key)) && config.Accepted()
      modifies client`db
      ensures client.db == Store(old(client.db), key, Script(old(client.At(key)), config, member, client.Ms()).0)
      ensures verdict == Script(old(client.At(key)), config, member, client.Ms()).1
    {
      var windowMs := config.Ms();
      var now := client.Ms();
      ghost var db, cell := client.db, client.At(key);
      ghost var pruned, expected := Pruned(cell, now - windowMs), Script(cell, config, member, now);
      ScriptParts(cell, config, member, now, pruned, expected);
      var count := Prune(key, now - windowMs);
      if count < config.limit {
        Admit(key, member, now, windowMs + 1000);
        assert client.db == Store(db, key, expected.0) by { StoreTwice(db, key, pruned, expected.0); }
        verdict := Admission(count, now, ScoresOf(pruned));
      } else {
        verdict := Denial(key, now);
      }
    }

    /** The answer of an admission that finds `count` others in the window. */
    method Admission(count: nat, now: int, ghost inside: map<string, int>) returns (verdict: Verdict)
      requires count == |inside| < config.limit
      ensures verdict == Answer(inside, config, now)
    {
      var left := config.limit - count - 1;
      verdict := Verdict(true, config.limit, if left > 0 then left else 0, 0, now + config.Ms());
    }

    /** The answer of a denial, from the oldest admission that still counts. */
    method Denial(key: string, now: int) returns (verdict: Verdict)
      requires IsZSet(client.At(key)) && config.Accepted() && |ScoresOf(client.At(key))| >= config.limit
      ensures verdict == Answer(ScoresOf(client.At(key)), config, now)
    {
      var windowMs := config.Ms();
      var retryAfter, resetAt := 0, now + windowMs;
      var oldest := client.ZFirst(key);
      if oldest.Some? {
        AnswerDenied(ScoresOf(client.At(key)), config, now, oldest.value);
        retryAfter := oldest.value + windowMs - now;
        resetAt := oldest.value + windowMs;
      }
      verdict := Verdict(false, config.limit, 0, retryAfter, resetAt);
    }

    /** ZREMRANGEBYSCORE, then ZCARD. */
    method Prune(key: string, bound: int) returns (count: nat)
      requires IsZSet(client.At(key))
      modifies client`db
      ensures client.db == Store(old(client.db), key, Pruned(old(client.At(key)), bound))
      ensures client.At(key) == Pruned(old(client.At(key)), bound)
      ensures count == |ScoresOf(client.At(key))|
    {
      client.ZRemUpTo(key, bound);
      count := client.ZCard(key);
    }

    /** ZADD, then PEXPIRE. */
    method Admit(key: string, member: string, now: int, ttlMs: int)
      requires IsZSet(client.At(key)) && now == client.Ms() && ttlMs == config.Ms() + 1000
      modifies client`db
      ensures client.db == Store(old(client.db), key, Joined(old(client.At(key)), config, member, now))
    {
      client.ZAdd(key, now, member);
      var _ := client.PExpire(key, ttlMs);
    }

    method Reset(key: string)
      modifies client`db
      ensures client.db == Store(old(client.db), key, None)
    {
      var _ := client.Del(key);
    }
  }

  // Runs: time passes, or somebody tries with a fresh member.

  datatype Event = Wait(ms: nat) | Try(member: string)

  datatype Stored = Stored(now: int, cell: Cell)
  datatype Ideal = Ideal(now: int, log: map<string, int>)

  ghost function RealStep(s: Stored, c: Config, e: Event): (Stored, seq<Verdict>)
    requires IsZSet(s.cell)
  {
    match e
    case Wait(ms) => (Stored(s.now + ms, Aged(s.cell, s.now + ms)), [])
    case Try(member) =>
      var (cell, verdict) := Script(s.cell, c, member, s.now);
      (Stored(s.now, cell), [verdict])
  }

  /** The ideal limiter keeps every admission and allows one more if fewer than `limit` lie in the window. */
  function Recent(s: Ideal, c: Config): map<string, int> {
    WindowFrom(s.log, c, s.now - c.Ms())
  }

  /** The admissions in the half-open window (t, t + window]. */
  function WindowFrom(log: map<string, int>, c: Config, t: int): map<string, int> {
    InWindow(log, t, t + c.Ms())
  }

  ghost function IdealStep(s: Ideal, c: Config, e: Event): (Ideal, seq<Verdict>) {
    match e
    case Wait(ms) => (s.(now := s.now + ms), [])
    case Try(member) =>
      var verdict := Answer(Recent(s, c), c, s.now);
      (if verdict.allowed then s.(log := s.log[member := s.now]) else s, [verdict])
  }

  ghost function RealRun(s: Stored, c: Config, run: seq<Event>): (Stored, seq<Verdict>)
    requires IsZSet(s.cell)
    ensures IsZSet(RealRun(s, c, run).0.cell)
    decreases |run|
  {
    if run == [] then (s, [])
    else
      var (s1, out) := RealStep(s, c, run[0]);
      var (s2, rest) := RealRun(s1, c, run[1..]);
      (s2, out + rest)
  }

  ghost function IdealRun(s: Ideal, c: Config, run: seq<Event>): (Ideal, seq<Verdict>)
    decreases |run|
  {
    if run == [] then (s, [])
    else
      var (s1, out) := IdealStep(s, c, run[0]);
      var (s2, rest) := IdealRun(s1, c, run[1..]);
      (s2, out + rest)
  }

  /** Members are unique identifiers: none is used twice. */
  predicate Fresh(log: map<string, int>, run: seq<Event>) {
    && (forall i :: 0 <= i < |run| && run[i].Try? ==> run[i].member !in log)
    && (forall i, j :: 0 <= i < j < |run| && run[i].Try? && run[j].Try? ==> run[i].member != run[j].member)
  }

  /** The stored set is part of the log, has every admission that still counts, and outlives them all. */
  predicate Simulates(s: Stored, i: Ideal, c: Config) {
    && s.now == i.now && IsZSet(s.cell)
    && (forall m :: m in i.log ==> i.log[m] <= i.now)
    && (forall m :: m in ScoresOf(s.cell) ==> m in i.log && ScoresOf(s.cell)[m] == i.log[m])
    && (forall m :: m in i.log && i.log[m] > i.now - c.Ms() ==> m in ScoresOf(s.cell))
    && (s.cell.Some? ==> s.cell.value.deadline.Some?)
    && (s.cell.Some? ==> forall m :: m in i.log ==> i.log[m] <= s.cell.value.deadline.value - c.Ms() - 1000)
  }

  lemma SameStep(s: Stored, i: Ideal, c: Config, e: Event)
    requires c.Accepted() && Simulates(s, i, c) && (e.Try? ==> e.member !in i.log)
    ensures RealStep(s, c, e).1 == IdealStep(i, c, e).1
    ensures Simulates(RealStep(s, c, e).0, IdealStep(i, c, e).0, c)
  {
    if e.Try? {
      assert Above(ScoresOf(s.cell), s.now - c.Ms()) == Recent(i, c);
    }
  }

  lemma {:induction false} SameRun(s: Stored, i: Ideal, c: Config, run: seq<Event>)
    requires c.Accepted() && Simulates(s, i, c) && Fresh(i.log, run)
    ensures RealRun(s, c, run).1 == IdealRun(i, c, run).1
    ensures Simulates(RealRun(s, c, run).0, IdealRun(i, c, run).0, c)
    decreases |run|
  {
    if run != [] {
      SameStep(s, i, c, run[0]);
      var i' := IdealStep(i, c, run[0]).0;
      forall k | 0 <= k < |run[1..]| && run[1..][k].Try? ensures run[1..][k].member !in i'.log {
        assert run[1..][k] == run[k + 1];
      }
      SameRun(RealStep(s, c, run[0]).0, i', c, run[1..]);
    }
  }

  const Fresh0 := Stored(0, None)
  const Empty0 := Ideal(0, map[])

  /** Over every run the script answers exactly as the limiter that never forgets, although it prunes
      its set and lets its key expire. */
  lemma SlidingWindowIsExact(c: Config, run: seq<Event>)
    requires c.Accepted() && Fresh(map[], run)
    ensures RealRun(Fresh0, c, run).1 == IdealRun(Empty0, c, run).1
    ensures Simulates(RealRun(Fresh0, c, run).0, IdealRun(Empty0, c, run).0, c)
  {
    SameRun(Fresh0, Empty0, c, run);
  }

  // What the ideal limiter guarantees.

  lemma SubmapSize(a: map<string, int>, b: map<string, int>)
    requires forall m :: m in a ==> m in b
    ensures |a| <= |b|
  {
    SubsetSize(a.Keys, b.Keys);
  }

  lemma {:induction false} SubsetSize(a: set<string>, b: set<string>)
    requires a <= b
    ensures |a| <= |b|
    decreases a
  {
    if a != {} {
      var x :| x in a;
      SubsetSize(a - {x}, b - {x});
    }
  }

  ghost predicate WithinLimit(log: map<string, int>, c: Config) {
    forall t :: |WindowFrom(log, c, t)| <= c.limit
  }

  ghost predicate Bounded(i: Ideal, c: Config) {
    WithinLimit(i.log, c) && forall m :: m in i.log ==> i.log[m] <= i.now
  }

  lemma BoundedStep(i: Ideal, c: Config, e: Event)
    requires c.Accepted() && Bounded(i, c) && (e.Try? ==> e.member !in i.log)
    ensures Bounded(IdealStep(i, c, e).0, c)
  {
    var i' := IdealStep(i, c, e).0;
    forall t ensures |WindowFrom(i'.log, c, t)| <= c.limit {
      var before, after := WindowFrom(i.log, c, t), WindowFrom(i'.log, c, t);
      if e.Try? && i' != i && t < i.now <= t + c.Ms() {
        assert after == before[e.member := i.now];
        SubmapSize(before, Recent(i, c));
      } else {
        assert after == before;
      }
    }
  }

  lemma {:induction false} AlwaysBounded(i: Ideal, c: Config, run: seq<Event>)
    requires c.Accepted() && Bounded(i, c) && Fresh(i.log, run)
    ensures Bounded(IdealRun(i, c, run).0, c)
    decreases |run|
  {
    if run != [] {
      BoundedStep(i, c, run[0]);
      var i' := IdealStep(i, c, run[0]).0;
      forall k | 0 <= k < |run[1..]| && run[1..][k].Try? ensures run[1..][k].member !in i'.log {
        assert run[1..][k] == run[k + 1];
      }
      AlwaysBounded(i', c, run[1..]);
    }
  }

  lemma EmptyIsBounded(c: Config)
    requires c.Accepted()
    ensures Bounded(Empty0, c)
  {
  }

  /** Every half-open window of the configured length holds at most `limit` admissions, in every run. */
  lemma EveryWindowWithinLimit(c: Config, run: seq<Event>, t: int)
    requires c.Accepted() && Fresh(map[], run)
    ensures RealRun(Fresh0, c, run).1 == IdealRun(Empty0, c, run).1
    ensures |WindowFrom(IdealRun(Empty0, c, run).0.log, c, t)| <= c.limit
  {
    SlidingWindowIsExact(c, run);
    EmptyIsBounded(c);
    AlwaysBounded(Empty0, c, run);
  }

  // Retry times.

  /** A denial at `i.now` names `retryAfter`: any number of further attempts before that long is denied,
      and the next attempt, whenever it comes, is admitted exactly from then on. */
  ghost predicate Refusing(i: Ideal, c: Config, horizon: int) {
    Bounded(i, c) && i.now < horizon && |Recent(i, c)| >= c.limit && IsLowest(Recent(i, c), horizon - c.Ms())
  }

  /** All attempts of the run come before the horizon. */
  predicate AllBefore(now: int, run: seq<Event>, horizon: int)
    decreases |run|
  {
    run != [] ==> match run[0]
      case Wait(ms) => AllBefore(now + ms, run[1..], horizon)
      case Try(_) => now < horizon && AllBefore(now, run[1..], horizon)
  }

  function Elapsed(run: seq<Event>): nat
    decreases |run|
  {
    if run == [] then 0 else (if run[0].Wait? then run[0].ms else 0) + Elapsed(run[1..])
  }

  lemma WaitLater(i: Ideal, c: Config, horizon: int, ms: nat)
    requires c.Accepted() && Refusing(i, c, horizon)
    ensures var later := i.(now := i.now + ms);
      && (|Recent(later, c)| < c.limit <==> later.now >= horizon)
      && (later.now < horizon ==> Refusing(later, c, horizon))
  {
    var later := i.(now := i.now + ms);
    if later.now < horizon {
      assert Recent(later, c) == Recent(i, c);
    } else {
      var oldest :| oldest in Recent(i, c) && Recent(i, c)[oldest] == horizon - c.Ms();
      SubmapSize(Recent(later, c), Recent(i, c) - {oldest});
      assert (Recent(i, c) - {oldest}).Keys == Recent(i, c).Keys - {oldest};
    }
  }

  /** Before the horizon nothing but time changes. */
  lemma RefusedStep(start: Ideal, i: Ideal, c: Config, e: Event, horizon: int)
    requires c.Accepted() && Refusing(start, c, horizon) && start.log == i.log && start.now <= i.now
    requires e.Try? ==> i.now < horizon
    ensures var (i', out) := IdealStep(i, c, e);
      && i' == i.(now := i.now + if e.Wait? then e.ms else 0)
      && (forall k :: 0 <= k < |out| ==> !out[k].allowed)
  {
    if e.Try? {
      assert start.(now := i.now) == i;
      WaitLater(start, c, horizon, i.now - start.now);
    }
  }

  lemma {:induction false} StaysRefused(i: Ideal, c: Config, run: seq<Event>, horizon: int, start: Ideal)
    requires c.Accepted() && Refusing(start, c, horizon) && start.log == i.log && start.now <= i.now
    requires AllBefore(i.now, run, horizon)
    ensures var (i', out) := IdealRun(i, c, run);
      && (forall k :: 0 <= k < |out| ==> !out[k].allowed)
      && i' == i.(now := i.now + Elapsed(run))
    decreases |run|
  {
    if run != [] {
      RefusedStep(start, i, c, run[0], horizon);
      StaysRefused(IdealStep(i, c, run[0]).0, c, run[1..], horizon, start);
    }
  }

  lemma SameDecision(s: Stored, i: Ideal, c: Config, member: string)
    requires c.Accepted() && Simulates(s, i, c) && member !in i.log
    ensures Script(s.cell, c, member, s.now).1.allowed <==> |Recent(i, c)| < c.limit
  {
    SameStep(s, i, c, Try(member));
  }

  /** Once nothing but time has passed since the denial, the script decides by the horizon alone. */
  lemma DecidesByHorizon(i: Ideal, s: Stored, c: Config, member: string, horizon: int)
    requires c.Accepted() && Refusing(i, c, horizon) && i.now <= s.now && member !in i.log
    requires Simulates(s, i.(now := s.now), c)
    ensures Script(s.cell, c, member, s.now).1.allowed <==> s.now >= horizon
  {
    SameDecision(s, i.(now := s.now), c, member);
    WaitLater(i, c, horizon, s.now - i.now);
  }

  lemma DenialStays(s: Stored, i: Ideal, c: Config, member: string)
    requires c.Accepted() && Simulates(s, i, c) && Bounded(i, c) && member !in i.log
    requires !Script(s.cell, c, member, s.now).1.allowed
    ensures Simulates(Stored(s.now, Script(s.cell, c, member, s.now).0), i, c)
    ensures Refusing(i, c, s.now + Script(s.cell, c, member, s.now).1.retryAfter)
  {
    SameStep(s, i, c, Try(member));
    DenialRefuses(i, c);
  }

  lemma RetryAfterFrom(s: Stored, i: Ideal, c: Config, denied: string, run: seq<Event>, next: string)
    requires c.Accepted() && Simulates(s, i, c) && Bounded(i, c) && Fresh(i.log, [Try(denied)] + run + [Try(next)])
    requires !Script(s.cell, c, denied, s.now).1.allowed
    requires AllBefore(s.now, run, s.now + Script(s.cell, c, denied, s.now).1.retryAfter)
    ensures var (cell, verdict) := Script(s.cell, c, denied, s.now);
      var (s', out) := RealRun(Stored(s.now, cell), c, run);
      && verdict.retryAfter > 0
      && (forall k :: 0 <= k < |out| ==> !out[k].allowed)
      && (Script(s'.cell, c, next, s'.now).1.allowed <==> s'.now >= s.now + verdict.retryAfter)
  {
    var (cell, verdict) := Script(s.cell, c, denied, s.now);
    var horizon := s.now + verdict.retryAfter;
    assert denied !in i.log && next !in i.log && Fresh(i.log, run) by { FreshParts(i.log, denied, run, next); }
    assert Simulates(Stored(s.now, cell), i, c) && Refusing(i, c, horizon) by { DenialStays(s, i, c, denied); }
    ContinuationFrom(Stored(s.now, cell), i, c, run, next, horizon);
  }

  lemma ContinuationFrom(s: Stored, i: Ideal, c: Config, run: seq<Event>, next: string, horizon: int)
    requires c.Accepted() && Simulates(s, i, c) && Refusing(i, c, horizon)
    requires Fresh(i.log, run) && next !in i.log && AllBefore(i.now, run, horizon)
    ensures var (s', out) := RealRun(s, c, run);
      && (forall k :: 0 <= k < |out| ==> !out[k].allowed)
      && (Script(s'.cell, c, next, s'.now).1.allowed <==> s'.now >= horizon)
  {
    SameRun(s, i, c, run);
    StaysRefused(i, c, run, horizon, i);
    DecidesByHorizon(i, RealRun(s, c, run).0, c, next, horizon);
  }

  lemma {:induction false} FreshAfter(i: Ideal, c: Config, before: seq<Event>, rest: seq<Event>)
    requires Fresh(i.log, before + rest)
    ensures Fresh(i.log, before) && Fresh(IdealRun(i, c, before).0.log, rest)
    decreases |before|
  {
    assert forall k :: 0 <= k < |before| ==> (before + rest)[k] == before[k];
    assert forall k :: 0 <= k < |rest| ==> (before + rest)[|before| + k] == rest[k];
    if before != [] {
      var i' := IdealStep(i, c, before[0]).0;
      assert forall k :: 0 <= k < |before[1..] + rest| ==> (before[1..] + rest)[k] == (before + rest)[k + 1];
      FreshAfter(i', c, before[1..], rest);
    }
  }

  /** After a denial with `retryAfter` at any point of any run, in every continuation: attempts less than
      that long after it are denied, and the first other attempt is admitted exactly if it comes no sooner. */
  lemma RetryAfterIsExact(c: Config, before: seq<Event>, denied: string, run: seq<Event>, next: string)
    requires c.Accepted() && Fresh(map[], before + ([Try(denied)] + run + [Try(next)]))
    requires var s := RealRun(Fresh0, c, before).0;
      var verdict := Script(s.cell, c, denied, s.now).1;
      !verdict.allowed && AllBefore(s.now, run, s.now + verdict.retryAfter)
    ensures var s := RealRun(Fresh0, c, before).0;
      var (cell, verdict) := Script(s.cell, c, denied, s.now);
      var (s', out) := RealRun(Stored(s.now, cell), c, run);
      && verdict.retryAfter > 0
      && (forall k :: 0 <= k < |out| ==> !out[k].allowed)
      && (Script(s'.cell, c, next, s'.now).1.allowed <==> s'.now >= s.now + verdict.retryAfter)
  {
    var s, i := RealRun(Fresh0, c, before).0, IdealRun(Empty0, c, before).0;
    assert Fresh(map[], before) && Fresh(i.log, [Try(denied)] + run + [Try(next)]) by {
      FreshAfter(Empty0, c, before, [Try(denied)] + run + [Try(next)]);
    }
    assert Simulates(s, i, c) by { SlidingWindowIsExact(c, before); }
    assert Bounded(i, c) by { EmptyIsBounded(c); AlwaysBounded(Empty0, c, before); }
    RetryAfterFrom(s, i, c, denied, run, next);
  }

  lemma DenialRefuses(i: Ideal, c: Config)
    requires c.Accepted() && Bounded(i, c) && !Answer(Recent(i, c), c, i.now).allowed
    ensures Refusing(i, c, i.now + Answer(Recent(i, c), c, i.now).retryAfter)
  {
  }

  lemma FreshParts(log: map<string, int>, first: string, run: seq<Event>, last: string)
    requires Fresh(log, [Try(first)] + run + [Try(last)])
    ensures first !in log && last !in log && Fresh(log, run)
  {
    var all := [Try(first)] + run + [Try(last)];
    assert all[0] == Try(first) && all[|run| + 1] == Try(last);
    assert forall k :: 0 <= k < |run| ==> all[k + 1] == run[k];
  }
}
