/** What duration texts say in seconds. */
module TtlText {
  import opened Decimal
  import opened Ttl

  /** The text, in whatever case, is accepted, and this many seconds is what it says. */
  ghost predicate Says(text: string, seconds: int) {
    exists lead, segments :: IsRendering(LowerAll(text), lead, segments) && Total(segments) == seconds
  }

  lemma SaysOne(n: nat, letter: char, unit: char)
    requires IsUnit(unit) && Lower(letter) == unit
    ensures Says(PrintNat(n) + [letter], n * Multiplier(unit))
  {
    var digits := PrintNat(n);
    var g := Segment(digits, "", unit, "");
    ParsePrintNat(n);
    assert forall i :: 0 <= i < |digits| ==> Lower(digits[i]) == digits[i];
    assert LowerAll(digits + [letter]) == digits + [unit];
    assert g.Text() == digits + [unit];
    assert Body([g]) == g.Text() + "" == g.Text() by { assert [g][1..] == []; }
    assert Total([g]) == g.Seconds() by { assert [g][1..] == []; }
    assert "" + Body([g]) == Body([g]);
    assert IsRendering(LowerAll(digits + [letter]), "", [g]);
  }

  /** A day is 86400 seconds, an hour 3600, a minute 60, in either case. */
  lemma Units(n: nat)
    ensures Says(PrintNat(n) + "d", 86400 * n) && Says(PrintNat(n) + "D", 86400 * n)
    ensures Says(PrintNat(n) + "h", 3600 * n) && Says(PrintNat(n) + "H", 3600 * n)
    ensures Says(PrintNat(n) + "m", 60 * n) && Says(PrintNat(n) + "M", 60 * n)
    ensures Says(PrintNat(n) + "s", n) && Says(PrintNat(n) + "S", n)
  {
    SaysOne(n, 'd', 'd');
    SaysOne(n, 'D', 'd');
    SaysOne(n, 'h', 'h');
    SaysOne(n, 'H', 'h');
    SaysOne(n, 'm', 'm');
    SaysOne(n, 'M', 'm');
    SaysOne(n, 's', 's');
    SaysOne(n, 'S', 's');
  }

  /** The segments with more white space after the last one. */
  function Widened(segments: seq<Segment>, extra: string): seq<Segment> {
    if segments == [] then []
    else if |segments| == 1 then
      var g := segments[0];
      [Segment(g.digits, g.gap, g.unit, g.tail + extra)]
    else [segments[0]] + Widened(segments[1..], extra)
  }

  lemma {:induction false} BodyConcat(a: seq<Segment>, b: seq<Segment>)
    ensures Body(a + b) == Body(a) + Body(b) && Total(a + b) == Total(a) + Total(b)
    decreases |a|
  {
    if a == [] {
      assert a + b == b;
    } else {
      assert (a + b)[1..] == a[1..] + b;
      BodyConcat(a[1..], b);
      assert a[0].Text() + (Body(a[1..]) + Body(b)) == (a[0].Text() + Body(a[1..])) + Body(b);
    }
  }

  lemma {:induction false} WidenedBody(segments: seq<Segment>, extra: string)
    requires segments != []
    ensures Body(Widened(segments, extra)) == Body(segments) + extra
    ensures Total(Widened(segments, extra)) == Total(segments) && Widened(segments, extra) != []
    decreases |segments|
  {
    var head, rest := segments[0], segments[1..];
    if rest == [] {
      var wider := Segment(head.digits, head.gap, head.unit, head.tail + extra);
      OneBody(head);
      OneBody(wider);
      assert segments == [head];
      assert wider.Text() == head.Text() + extra;
    } else {
      var more := Widened(rest, extra);
      WidenedBody(rest, extra);
      assert ([head] + more)[1..] == more;
      assert head.Text() + (Body(rest) + extra) == (head.Text() + Body(rest)) + extra;
    }
  }

  lemma OneBody(g: Segment)
    ensures Body([g]) == g.Text() && Total([g]) == g.Seconds()
  {
    assert [g][1..] == [] && g.Text() + "" == g.Text();
  }

  lemma LowerConcat(a: string, b: string)
    ensures LowerAll(a + b) == LowerAll(a) + LowerAll(b)
  {
  }

  lemma LowerSpace(gap: string)
    requires AllSpace(gap)
    ensures LowerAll(gap) == gap
  {
  }

  /** Texts add up, with any white space between them. */
  lemma SaysBoth(a: string, m: int, gap: string, b: string, n: int)
    requires Says(a, m) && Says(b, n) && AllSpace(gap)
    ensures Says(a + (gap + b), m + n)
  {
    var l1: string, s1: seq<Segment> :| IsRendering(LowerAll(a), l1, s1) && Total(s1) == m;
    var l2: string, s2: seq<Segment> :| IsRendering(LowerAll(b), l2, s2) && Total(s2) == n;
    var all := Widened(s1, gap + l2) + s2;
    LowerConcat(a, gap + b);
    LowerConcat(gap, b);
    LowerSpace(gap);
    WidenedBody(s1, gap + l2);
    BodyConcat(Widened(s1, gap + l2), s2);
    Glue(l1, Body(s1), gap, l2, Body(s2));
    WidenedProper(s1, gap + l2);
    assert IsRendering(LowerAll(a + (gap + b)), l1, all);
  }

  lemma {:induction false} WidenedProper(segments: seq<Segment>, extra: string)
    requires Proper(segments) && AllSpace(extra)
    ensures Proper(Widened(segments, extra))
    decreases |segments|
  {
    if |segments| > 1 {
      WidenedProper(segments[1..], extra);
    }
  }

  lemma Glue(lead: string, body: string, gap: string, lead2: string, body2: string)
    ensures (lead + body) + (gap + (lead2 + body2)) == lead + ((body + (gap + lead2)) + body2)
  {
  }
}
