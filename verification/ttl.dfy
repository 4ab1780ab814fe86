/** TTL arguments: a number of seconds, or text such as "2h30m", over ASCII. */
module Ttl {
  import opened Wrappers
  import opened Decimal

  datatype Argument = Number(seconds: real) | Text(text: string)
  datatype Error = Negative | Invalid

  function Lower(c: char): char {
    if 'A' <= c <= 'Z' then (c as int + 32) as char else c
  }

  function LowerAll(s: string): string {
    seq(|s|, i requires 0 <= i < |s| => Lower(s[i]))
  }

  predicate IsUnit(c: char) {
    c == 'd' || c == 'h' || c == 'm' || c == 's'
  }

  function Multiplier(unit: char): nat {
    match unit
    case 'd' => 86400
    case 'h' => 3600
    case 'm' => 60
    case _ => 1
  }

  predicate AllSpace(s: string) { forall i :: 0 <= i < |s| ==> IsSpace(s[i]) }
  predicate AllDigit(s: string) { forall i :: 0 <= i < |s| ==> IsDigit(s[i]) }

  // The language of the validating expression: \s*(\d+\s*[dhms]\s*)+ as a whole.

  /** One number-unit segment with the spaces inside and after it. */
  datatype Segment = Segment(digits: string, gap: string, unit: char, tail: string) {
    predicate Proper() { digits != "" && AllDigit(digits) && AllSpace(gap) && IsUnit(unit) && AllSpace(tail) }
    function Text(): string { digits + gap + [unit] + tail }
    function Seconds(): int { Amount(digits) * Multiplier(unit) }
  }

  function Amount(digits: string): int {
    var r := ParseDigits(digits, 0, false);
    if r.Some? then r.value else 0
  }

  predicate Proper(segments: seq<Segment>) {
    forall i :: 0 <= i < |segments| ==> segments[i].Proper()
  }

  function Body(segments: seq<Segment>): string {
    if segments == [] then "" else segments[0].Text() + Body(segments[1..])
  }

  function Total(segments: seq<Segment>): int {
    if segments == [] then 0 else segments[0].Seconds() + Total(segments[1..])
  }

  ghost predicate Accepts(s: string) {
    exists lead, segments :: IsRendering(s, lead, segments)
  }

  predicate IsRendering(s: string, lead: string, segments: seq<Segment>) {
    AllSpace(lead) && segments != [] && Proper(segments) && s == lead + Body(segments)
  }

  // The same language as an automaton, which is what the validator runs.

  datatype Mode = Start | Digits | Gap | Done | Reject

  function Move(m: Mode, c: char): Mode {
    match m
    case Start => if IsSpace(c) then Start else if IsDigit(c) then Digits else Reject
    case Digits => if IsDigit(c) then Digits else if IsSpace(c) then Gap else if IsUnit(c) then Done else Reject
    case Gap => if IsSpace(c) then Gap else if IsUnit(c) then Done else Reject
    case Done => if IsSpace(c) then Done else if IsDigit(c) then Digits else Reject
    case Reject => Reject
  }

  function Moves(m: Mode, s: string): Mode
    decreases |s|
  {
    if s == "" then m else Moves(Move(m, s[0]), s[1..])
  }

  lemma {:induction false} MovesConcat(m: Mode, a: string, b: string)
    ensures Moves(m, a + b) == Moves(Moves(m, a), b)
    decreases |a|
  {
    if a == "" {
      assert a + b == b;
    } else {
      assert (a + b)[1..] == a[1..] + b;
      MovesConcat(Move(m, a[0]), a[1..], b);
    }
  }

  lemma {:induction false} SpacesStay(m: Mode, s: string)
    requires AllSpace(s) && (m.Start? || m.Done? || m.Gap?)
    ensures Moves(m, s) == m
  {
    if s != "" {
      SpacesStay(m, s[1..]);
    }
  }

  lemma {:induction false} DigitsStay(s: string)
    requires AllDigit(s)
    ensures Moves(Digits, s) == Digits
  {
    if s != "" {
      DigitsStay(s[1..]);
    }
  }

  lemma SegmentDone(m: Mode, g: Segment)
    requires g.Proper() && (m.Start? || m.Done?)
    ensures Moves(m, g.Text()) == Done
  {
    MovesConcat(m, g.digits + g.gap + [g.unit], g.tail);
    MovesConcat(m, g.digits + g.gap, [g.unit]);
    MovesConcat(m, g.digits, g.gap);
    DigitsStay(g.digits[1..]);
    assert Moves(m, g.digits) == Digits;
    if g.gap != "" {
      SpacesStay(Gap, g.gap[1..]);
    }
    assert Moves(Moves(m, g.digits + g.gap), [g.unit]) == Done;
    SpacesStay(Done, g.tail);
  }

  lemma {:induction false} BodyDone(m: Mode, segments: seq<Segment>)
    requires Proper(segments) && (m.Done? || (m.Start? && segments != []))
    ensures Moves(m, Body(segments)) == Done
    decreases |segments|
  {
    if segments != [] {
      SegmentDone(m, segments[0]);
      MovesConcat(m, segments[0].Text(), Body(segments[1..]));
      BodyDone(Done, segments[1..]);
    }
  }

  lemma {:induction false} FromDone(s: string) returns (tail: string, segments: seq<Segment>)
    requires Moves(Done, s) == Done
    ensures AllSpace(tail) && Proper(segments) && s == tail + Body(segments)
    decreases |s|
  {
    if s == "" {
      tail, segments := "", [];
    } else if IsSpace(s[0]) {
      tail, segments := FromDone(s[1..]);
      tail := [s[0]] + tail;
    } else {
      RejectStays(s[1..]);
      var g, rest := FromDigits(s[1..], [s[0]]);
      tail, segments := "", [g] + rest;
    }
  }

  lemma {:induction false} FromDigits(s: string, digits: string) returns (g: Segment, rest: seq<Segment>)
    requires Moves(Digits, s) == Done && digits != "" && AllDigit(digits)
    ensures g.Proper() && Proper(rest) && digits + s == g.Text() + Body(rest)
    decreases |s|
  {
    if IsDigit(s[0]) {
      g, rest := FromDigits(s[1..], digits + [s[0]]);
      assert digits + s == (digits + [s[0]]) + s[1..];
    } else {
      RejectStays(s[1..]);
      g, rest := FromGap(s, digits, "");
      assert digits + "" + s == digits + s;
    }
  }

  lemma {:induction false} FromGap(s: string, digits: string, gap: string) returns (g: Segment, rest: seq<Segment>)
    requires (Moves(Gap, s) == Done || (Moves(Digits, s) == Done && !IsDigit(s[0])))
    requires digits != "" && AllDigit(digits) && AllSpace(gap)
    ensures g.Proper() && Proper(rest) && digits + gap + s == g.Text() + Body(rest)
    decreases |s|, 0
  {
    RejectStays(s[1..]);
    if IsSpace(s[0]) {
      g, rest := FromGap(s[1..], digits, gap + [s[0]]);
      assert digits + gap + s == digits + (gap + [s[0]]) + s[1..];
    } else {
      var tail, more := FromDone(s[1..]);
      g, rest := Segment(digits, gap, s[0], tail), more;
      assert IsUnit(s[0]);
      Reassociate(digits + gap, s, tail, Body(rest));
    }
  }

  lemma Reassociate(front: string, s: string, tail: string, body: string)
    requires s != "" && s[1..] == tail + body
    ensures front + s == front + [s[0]] + tail + body
  {
    assert s == [s[0]] + s[1..];
  }

  lemma {:induction false} RejectStays(s: string)
    ensures Moves(Reject, s) == Reject
  {
    if s != "" {
      RejectStays(s[1..]);
    }
  }

  lemma {:induction false} FromStart(s: string) returns (lead: string, segments: seq<Segment>)
    requires Moves(Start, s) == Done
    ensures IsRendering(s, lead, segments)
    decreases |s|
  {
    if IsSpace(s[0]) {
      lead, segments := FromStart(s[1..]);
      lead := [s[0]] + lead;
    } else {
      RejectStays(s[1..]);
      var g, rest := FromDigits(s[1..], [s[0]]);
      lead, segments := "", [g] + rest;
    }
  }

  /** The automaton accepts exactly the language of the validating expression. */
  lemma ValidatorIsExact(s: string)
    ensures Moves(Start, s) == Done <==> Accepts(s)
  {
    if Moves(Start, s) == Done {
      var lead, segments := FromStart(s);
    }
    if Accepts(s) {
      var lead, segments :| IsRendering(s, lead, segments);
      RenderingIsValid(s, lead, segments);
    }
  }

  lemma RenderingIsValid(s: string, lead: string, segments: seq<Segment>)
    requires IsRendering(s, lead, segments)
    ensures Moves(Start, s) == Done
  {
    MovesConcat(Start, lead, Body(segments));
    SpacesStay(Start, lead);
    BodyDone(Start, segments);
  }

  // The scanning expression (\d+)\s*([dhms]): leftmost matches, longest digits tried first.

  function DigitRun(s: string): nat {
    if s != "" && IsDigit(s[0]) then 1 + DigitRun(s[1..]) else 0
  }

  function SpaceRun(s: string): nat {
    if s != "" && IsSpace(s[0]) then 1 + SpaceRun(s[1..]) else 0
  }

  /** A match at the front of the text: how many digits, and where the match ends. */
  datatype Found = Found(digits: nat, end: nat)

  /** Backtracks over the number of digits taken, from `n` down. */
  function TryDigits(s: string, n: nat): (r: Option<Found>)
    requires n <= |s|
    ensures r.Some? ==> 0 < r.value.digits < r.value.end <= |s| && IsUnit(s[r.value.end - 1])
  {
    if n == 0 then None
    else
      var k := n + SpaceRun(s[n..]);
      if k < |s| && IsUnit(s[k]) then Some(Found(n, k + 1)) else TryDigits(s, n - 1)
  }

  lemma {:induction false} DigitRunFits(s: string)
    ensures DigitRun(s) <= |s|
  {
    if s != "" {
      DigitRunFits(s[1..]);
    }
  }

  function MatchFront(s: string): (r: Option<Found>)
    ensures r.Some? ==> 0 < r.value.digits < r.value.end <= |s| && IsUnit(s[r.value.end - 1])
  {
    DigitRunFits(s);
    TryDigits(s, DigitRun(s))
  }

  /** The digits and unit of every match, left to right. */
  function Scan(s: string): seq<(string, char)>
    decreases |s|
  {
    if s == "" then []
    else
      var m := MatchFront(s);
      if m.Some? then [(s[..m.value.digits], s[m.value.end - 1])] + Scan(s[m.value.end..])
      else Scan(s[1..])
  }

  function Sum(matches: seq<(string, char)>): int {
    if matches == [] then 0 else Amount(matches[0].0) * Multiplier(matches[0].1) + Sum(matches[1..])
  }

  function Pieces(segments: seq<Segment>): seq<(string, char)> {
    seq(|segments|, i requires 0 <= i < |segments| => (segments[i].digits, segments[i].unit))
  }

  lemma {:induction false} ScanSpaces(lead: string, rest: string)
    requires AllSpace(lead)
    ensures Scan(lead + rest) == Scan(rest)
  {
    if lead == "" {
      assert lead + rest == rest;
    } else {
      assert (lead + rest)[1..] == lead[1..] + rest;
      ScanSpaces(lead[1..], rest);
    }
  }

  lemma {:induction false} DigitRunOf(digits: string, rest: string)
    requires AllDigit(digits) && (rest != "" ==> !IsDigit(rest[0]))
    ensures DigitRun(digits + rest) == |digits|
  {
    if digits == "" {
      assert digits + rest == rest;
    } else {
      assert (digits + rest)[1..] == digits[1..] + rest;
      DigitRunOf(digits[1..], rest);
    }
  }

  lemma {:induction false} SpaceRunOf(gap: string, rest: string)
    requires AllSpace(gap) && (rest != "" ==> !IsSpace(rest[0]))
    ensures SpaceRun(gap + rest) == |gap|
  {
    if gap == "" {
      assert gap + rest == rest;
    } else {
      assert (gap + rest)[1..] == gap[1..] + rest;
      SpaceRunOf(gap[1..], rest);
    }
  }

  lemma FrontMatches(digits: string, gap: string, unit: char, rest: string)
    requires digits != "" && AllDigit(digits) && AllSpace(gap) && IsUnit(unit)
    ensures MatchFront(digits + (gap + ([unit] + rest))) == Some(Found(|digits|, |digits| + |gap| + 1))
  {
    var s := digits + (gap + ([unit] + rest));
    DigitRunOf(digits, gap + ([unit] + rest));
    SpaceRunOf(gap, [unit] + rest);
    assert s[|digits|..] == gap + ([unit] + rest);
    assert s[|digits| + |gap|] == unit;
  }

  lemma ScanFront(digits: string, gap: string, unit: char, rest: string)
    requires digits != "" && AllDigit(digits) && AllSpace(gap) && IsUnit(unit)
    ensures Scan(digits + (gap + ([unit] + rest))) == [(digits, unit)] + Scan(rest)
  {
    var s := digits + (gap + ([unit] + rest));
    FrontMatches(digits, gap, unit, rest);
    ScanMatch(s, Found(|digits|, |digits| + |gap| + 1));
    FrontParts(digits, gap, unit, rest);
  }

  lemma ScanMatch(s: string, m: Found)
    requires MatchFront(s) == Some(m)
    ensures Scan(s) == [(s[..m.digits], s[m.end - 1])] + Scan(s[m.end..])
  {
  }

  lemma FrontParts(digits: string, gap: string, unit: char, rest: string)
    ensures var s, n := digits + (gap + ([unit] + rest)), |digits| + |gap|;
      s[..|digits|] == digits && s[n] == unit && s[n + 1..] == rest
  {
  }

  lemma SegmentMatches(g: Segment, rest: string)
    requires g.Proper()
    ensures Scan(g.Text() + rest) == [(g.digits, g.unit)] + Scan(rest)
  {
    assert g.Text() + rest == g.digits + (g.gap + ([g.unit] + (g.tail + rest)));
    ScanFront(g.digits, g.gap, g.unit, g.tail + rest);
    ScanSpaces(g.tail, rest);
  }

  lemma {:induction false} ScanBody(segments: seq<Segment>)
    requires Proper(segments)
    ensures Scan(Body(segments)) == Pieces(segments) && Sum(Pieces(segments)) == Total(segments)
    decreases |segments|
  {
    if segments != [] {
      SegmentMatches(segments[0], Body(segments[1..]));
      ScanBody(segments[1..]);
      assert Pieces(segments) == [(segments[0].digits, segments[0].unit)] + Pieces(segments[1..]);
    }
  }

  /** On an accepted text the matches of the scan are exactly its segments: no digit run is skipped or split. */
  lemma ScanIsExact(s: string, lead: string, segments: seq<Segment>)
    requires IsRendering(s, lead, segments)
    ensures Scan(s) == Pieces(segments) && Sum(Scan(s)) == Total(segments)
  {
    ScanSpaces(lead, Body(segments));
    ScanBody(segments);
  }

  /** `parse_ttl`: validation of the whole text, then the scanning loop. */
  method ParseTtl(ttl: Argument) returns (r: Result<int, Error>)
    ensures ttl.Number? ==> r == if ttl.seconds < 0.0 then Err(Negative) else Ok(ttl.seconds.Floor)
    ensures ttl.Text? ==> (r.Ok? <==> Accepts(LowerAll(ttl.text))) && (r.Err? ==> r.error == Invalid)
    ensures ttl.Text? ==> forall lead, segments ::
      IsRendering(LowerAll(ttl.text), lead, segments) ==> r == Ok(Total(segments))
  {
    if ttl.Number? {
      return if ttl.seconds < 0.0 then Err(Negative) else Ok(ttl.seconds.Floor);
    }
    var text := LowerAll(ttl.text);
    ValidatorIsExact(text);
    if Moves(Start, text) != Done {
      return Err(Invalid);
    }
    var total := Scanned(text);
    forall lead, segments | IsRendering(text, lead, segments) ensures total == Total(segments) {
      ScanIsExact(text, lead, segments);
    }
    r := Ok(total);
  }

  /** The loop over the matches. */
  method Scanned(text: string) returns (total: int)
    ensures total == Sum(Scan(text))
  {
    total := 0;
    var rest := text;
    while rest != ""
      invariant total + Sum(Scan(rest)) == Sum(Scan(text))
      decreases |rest|
    {
      var m := MatchFront(rest);
      if m.Some? {
        var digits, unit := rest[..m.value.digits], rest[m.value.end - 1];
        ScanMatch(rest, m.value);
        SumCons(digits, unit, Scan(rest[m.value.end..]));
        total := total + Amount(digits) * Multiplier(unit);
        rest := rest[m.value.end..];
      } else {
        ScanSkip(rest);
        rest := rest[1..];
      }
    }
  }

  lemma ScanSkip(s: string)
    requires s != "" && MatchFront(s).None?
    ensures Scan(s) == Scan(s[1..])
  {
  }

  lemma SumCons(digits: string, unit: char, matches: seq<(string, char)>)
    ensures Sum([(digits, unit)] + matches) == Amount(digits) * Multiplier(unit) + Sum(matches)
  {
    assert ([(digits, unit)] + matches)[1..] == matches;
  }
}
