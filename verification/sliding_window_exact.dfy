/** What the sliding-window limiter reports: the decision, the attempts left, and the reset time. */
module SlidingWindowExact {
  import opened Wrappers
  import opened Redis
  import opened SlidingWindow

  function Tries(members: seq<string>): seq<Event> {
    if members == [] then [] else [Try(members[0])] + Tries(members[1..])
  }

  /** The members are distinct and not in the log. */
  predicate New(log: map<string, int>, members: seq<string>) {
    && (forall k :: 0 <= k < |members| ==> members[k] !in log)
    && (forall j, k :: 0 <= j < k < |members| ==> members[j] != members[k])
  }

  lemma TryIdeal(i: Ideal, c: Config, member: string)
    requires c.Accepted() && member !in i.log && forall m :: m in i.log ==> i.log[m] <= i.now
    ensures var (i', out) := IdealStep(i, c, Try(member));
      var n := |Recent(i, c)|;
      && |out| == 1 && (out[0].allowed <==> n < c.limit)
      && i' == (if n < c.limit then i.(log := i.log[member := i.now]) else i)
      && |Recent(i', c)| == (if n < c.limit then n + 1 else n)
  {
    var i' := IdealStep(i, c, Try(member)).0;
    if |Recent(i, c)| < c.limit {
      assert Recent(i', c) == Recent(i, c)[member := i.now];
      assert Recent(i', c).Keys == Recent(i, c).Keys + {member};
    }
  }

  /** Attempts at one instant: as many are admitted as the window has room for. */
  lemma {:induction false} BurstIdeal(i: Ideal, c: Config, members: seq<string>)
    requires c.Accepted() && New(i.log, members) && forall m :: m in i.log ==> i.log[m] <= i.now
    ensures var out := IdealRun(i, c, Tries(members)).1;
      |out| == |members| && forall k :: 0 <= k < |out| ==> (out[k].allowed <==> |Recent(i, c)| + k < c.limit)
    decreases |members|
  {
    if members != [] {
      var (i1, out) := IdealStep(i, c, Try(members[0]));
      TryIdeal(i, c, members[0]);
      BurstIdeal(i1, c, members[1..]);
      assert ([Try(members[0])] + Tries(members[1..]))[1..] == Tries(members[1..]);
    }
  }

  lemma {:induction false} TriesFresh(log: map<string, int>, members: seq<string>)
    requires New(log, members)
    ensures |Tries(members)| == |members| && Fresh(log, Tries(members))
    ensures forall k :: 0 <= k < |members| ==> Tries(members)[k] == Try(members[k])
    decreases |members|
  {
    if members != [] {
      TriesFresh(log, members[1..]);
    }
  }


  lemma JoinedDeadline(s: Stored, c: Config, member: string)
    requires c.Accepted() && IsZSet(s.cell)
    ensures var (s', out) := RealStep(s, c, Try(member));
      && |out| == 1 && out[0].limit == c.limit
      && (out[0].allowed ==> DeadlineOf(s'.cell) == Some(s.now + 1000 * c.window + 1000))
  {
  }

  lemma DecidedBy(s: Stored, i: Ideal, c: Config, member: string)
    requires c.Accepted() && Simulates(s, i, c) && member !in i.log
    ensures RealStep(s, c, Try(member)).1 == IdealStep(i, c, Try(member)).1
    ensures RealStep(s, c, Try(member)).1[0].allowed <==> |WindowFrom(i.log, c, s.now - 1000 * c.window)| < c.limit
  {
    SameStep(s, i, c, Try(member));
    TryIdeal(i, c, member);
  }

  /** An attempt is admitted exactly if fewer than `limit` admissions lie in the half-open window of the
      configured length that ends now, and it then keeps the key for the window and a second. */
  ghost predicate DecidesByWindow(s: Stored, i: Ideal, c: Config, member: string)
    requires IsZSet(s.cell)
  {
    var (s', out) := RealStep(s, c, Try(member));
    && |out| == 1 && s.now == i.now && out[0].limit == c.limit
    && (out[0].allowed <==> |Between(i.log, s.now - 1000 * c.window, s.now)| < c.limit)
    && (out[0].allowed ==> DeadlineOf(s'.cell) == Some(s.now + 1000 * c.window + 1000))
  }

  lemma DecidesIn(s: Stored, i: Ideal, c: Config, member: string)
    requires c.Accepted() && Simulates(s, i, c) && member !in i.log
    ensures DecidesByWindow(s, i, c, member)
  {
    DecidedBy(s, i, c, member);
    JoinedDeadline(s, c, member);
    BetweenIsWindow(i.log, c, s.now - 1000 * c.window);
  }

  /** The members admitted after the first time and no later than the second. */
  function Between(log: map<string, int>, after: int, until: int): set<string> {
    set m | m in log && after < log[m] <= until
  }

  lemma BetweenIsWindow(log: map<string, int>, c: Config, t: int)
    ensures WindowFrom(log, c, t).Keys == Between(log, t, t + 1000 * c.window)
    ensures |WindowFrom(log, c, t)| == |Between(log, t, t + 1000 * c.window)|
  {
    assert |WindowFrom(log, c, t)| == |WindowFrom(log, c, t).Keys|;
  }

  /** In every run at most `limit` admissions lie in any half-open window of the configured length. */
  lemma AtMostLimit(c: Config, run: seq<Event>, t: int)
    requires c.Accepted() && Fresh(map[], run)
    ensures |Between(IdealRun(Empty0, c, run).0.log, t, t + 1000 * c.window)| <= c.limit
  {
    EveryWindowWithinLimit(c, run, t);
    BetweenIsWindow(IdealRun(Empty0, c, run).0.log, c, t);
  }

  /** So it is at every point of every run, over the full log of admissions. */
  lemma AllowedIff(c: Config, before: seq<Event>, member: string)
    requires c.Accepted() && Fresh(map[], before) && member !in IdealRun(Empty0, c, before).0.log
    ensures DecidesByWindow(RealRun(Fresh0, c, before).0, IdealRun(Empty0, c, before).0, c, member)
  {
    SlidingWindowIsExact(c, before);
    DecidesIn(RealRun(Fresh0, c, before).0, IdealRun(Empty0, c, before).0, c, member);
  }

  /** `remaining`: right after an attempt exactly that many more are admitted. */
  lemma RemainingIsExact(c: Config, before: seq<Event>, member: string, members: seq<string>)
    requires c.Accepted() && Fresh(map[], before)
    requires New(IdealRun(Empty0, c, before).0.log, [member] + members)
    ensures var (s, out) := RealStep(RealRun(Fresh0, c, before).0, c, Try(member));
      var more := RealRun(s, c, Tries(members)).1;
      |more| == |members| && forall k :: 0 <= k < |more| ==> (more[k].allowed <==> k < out[0].remaining)
  {
    var s0, i0 := RealRun(Fresh0, c, before).0, IdealRun(Empty0, c, before).0;
    SlidingWindowIsExact(c, before);
    var all := [member] + members;
    assert all[0] == member && forall k :: 0 <= k < |members| ==> all[k + 1] == members[k];
    SameStep(s0, i0, c, Try(member));
    TryIdeal(i0, c, member);
    var s, i := RealStep(s0, c, Try(member)).0, IdealStep(i0, c, Try(member)).0;
    TriesFresh(i.log, members);
    SameRun(s, i, c, Tries(members));
    BurstIdeal(i, c, members);
  }

  lemma ResetOfAnswer(i: Ideal, c: Config, member: string)
    requires c.Accepted()
    ensures var out := IdealStep(i, c, Try(member)).1;
      && |out| == 1
      && (out[0].allowed ==> out[0].resetAt == i.now + 1000 * c.window)
      && (!out[0].allowed ==> out[0].resetAt == i.now + out[0].retryAfter)
  {
    assert Recent(i, c) == map[] ==> |Recent(i, c)| == 0;
  }

  lemma EmptyFrom(i: Ideal, c: Config, member: string, ms: nat)
    requires c.Accepted() && forall m :: m in i.log ==> i.log[m] <= i.now
    ensures WindowFrom(i.log[member := i.now], c, i.now + ms - 1000 * c.window) == map[] <==> ms >= 1000 * c.window
  {
    var log := i.log[member := i.now];
    var window := WindowFrom(log, c, i.now + ms - 1000 * c.window);
    assert log[member] == i.now;
    if ms < 1000 * c.window {
      assert member in window;
    } else {
      assert window == map[];
    }
  }

  /** `reset_at`: after an admission, with no other since, the window is empty exactly from then on; after a
      denial it is the end of `retry_after`. */
  ghost predicate ResetsThen(s: Stored, i: Ideal, c: Config, member: string, ms: nat)
    requires IsZSet(s.cell)
  {
    var out := RealStep(s, c, Try(member)).1;
    var log := IdealStep(i, c, Try(member)).0.log;
    && |out| == 1
    && (out[0].allowed ==>
          (WindowFrom(log, c, s.now + ms - 1000 * c.window) == map[] <==> s.now + ms >= out[0].resetAt))
    && (!out[0].allowed ==> out[0].resetAt == s.now + out[0].retryAfter)
  }

  lemma ResetsIn(s: Stored, i: Ideal, c: Config, member: string, ms: nat)
    requires c.Accepted() && Simulates(s, i, c) && member !in i.log
    ensures ResetsThen(s, i, c, member, ms)
  {
    DecidedBy(s, i, c, member);
    TryIdeal(i, c, member);
    ResetOfAnswer(i, c, member);
    EmptyFrom(i, c, member, ms);
  }

  /** So it is at every point of every run. */
  lemma ResetIsExact(c: Config, before: seq<Event>, member: string, ms: nat)
    requires c.Accepted() && Fresh(map[], before) && member !in IdealRun(Empty0, c, before).0.log
    ensures ResetsThen(RealRun(Fresh0, c, before).0, IdealRun(Empty0, c, before).0, c, member, ms)
  {
    SlidingWindowIsExact(c, before);
    ResetsIn(RealRun(Fresh0, c, before).0, IdealRun(Empty0, c, before).0, c, member, ms);
  }
}
