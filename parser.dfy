/** The block parser, `re.search(r'(\d+)\n(\d{2}:\d{2}:\d{2},\d{3}) -->
    (\d{2}:\d{2}:\d{2},\d{3})\n(.+)', block, re.DOTALL)`, written as an
    explicit scanner, and the block renderer that writes the four groups
    back. */
module Parser {
  import opened Text

  /** What the search finds in a block: the four groups of the leftmost
      match and where that match starts, or no match at all. */
  datatype Match =
    | Structured(at: nat, number: string, startTime: string, endTime: string, text: string)
    | Opaque

  const Arrow := " --> "

  /** `\d+`: a non-empty run of digits. */
  predicate IsNumber(s: string) {
    |s| > 0 && forall i | 0 <= i < |s| :: IsDigit(s[i])
  }

  /** `\d{2}:\d{2}:\d{2},\d{3}`, with `#` standing for `\d`. */
  const TimestampShape := "##:##:##,###"

  /** Character c is one that shape character t accepts. */
  predicate Fits(c: char, t: char) {
    if t == '#' then IsDigit(c) else c == t
  }

  /** A timestamp `HH:MM:SS,mmm` (never interpreted as a time). */
  predicate IsTimestamp(s: string) {
    |s| == |TimestampShape| && forall i | 0 <= i < |s| :: Fits(s[i], TimestampShape[i])
  }

  /** `f'{subtitle_number}\n{start_time} --> {end_time}\n{adjusted_text}'` */
  function Render(number: string, startTime: string, endTime: string, text: string): (r: string)
    ensures |startTime| == 12 && |endTime| == 12 ==> |r| == |number| + 31 + |text|
  {
    number + "\n" + startTime + Arrow + endTime + "\n" + text
  }

  /** Length of the run of digits that starts at position p. */
  function DigitRun(b: string, p: nat): (n: nat)
    requires p <= |b|
    ensures p + n <= |b|
    decreases |b| - p
  {
    if p < |b| && IsDigit(b[p]) then 1 + DigitRun(b, p + 1) else 0
  }

  /** What follows the digit group when it ends at q: `\n`, a timestamp,
      ` --> `, a timestamp, `\n`, and at least one more character. */
  predicate TailAt(b: string, q: nat) {
    && q + 31 < |b|
    && b[q] == '\n'
    && IsTimestamp(b[q + 1..q + 13])
    && b[q + 13..q + 18] == Arrow
    && IsTimestamp(b[q + 18..q + 30])
    && b[q + 30] == '\n'
  }

  /** The pattern matches at p with a digit group of d characters: one of
      the attempts a backtracking matcher makes at p. */
  predicate PatternAt(b: string, p: nat, d: nat) {
    && d >= 1
    && p + d <= |b|
    && (forall i | p <= i < p + d :: IsDigit(b[i]))
    && TailAt(b, p + d)
  }

  /** The pattern matches at p, its digit group being the whole digit run
      that starts there. */
  predicate ShapeAt(b: string, p: nat) {
    p < |b| && DigitRun(b, p) >= 1 && TailAt(b, p + DigitRun(b, p))
  }

  /** The four groups of the match at p. */
  function GroupsAt(b: string, p: nat): (m: Match)
    requires ShapeAt(b, p)
    ensures m.Structured? && m.at == p
    ensures IsNumber(m.number) && IsTimestamp(m.startTime) && IsTimestamp(m.endTime) && m.text != []
    ensures b == b[..p] + Render(m.number, m.startTime, m.endTime, m.text)
  {
    var q := p + DigitRun(b, p);
    BlockAtGroups(b, p);
    Structured(p, b[p..q], b[q + 1..q + 13], b[q + 18..q + 30], b[q + 31..])
  }

  /** The scan behind `re.search`: the first position, from `from` on, at
      which the pattern matches, or the block's length when there is none. */
  function FirstShape(b: string, from: nat): (p: nat)
    requires from <= |b|
    ensures from <= p <= |b|
    ensures p < |b| ==> ShapeAt(b, p)
    ensures forall q | from <= q < p :: !ShapeAt(b, q)
    decreases |b| - from
  {
    if from == |b| || ShapeAt(b, from) then from else FirstShape(b, from + 1)
  }

  /** `re.search(pattern, block, re.DOTALL)`: the groups of the leftmost
      match, or no match. */
  function Parse(b: string): (m: Match)
    ensures m.Opaque? <==> forall p | 0 <= p < |b| :: !ShapeAt(b, p)
    ensures m.Structured? ==> ShapeAt(b, m.at) && forall p | 0 <= p < m.at :: !ShapeAt(b, p)
    ensures m.Structured? ==> b == b[..m.at] + Render(m.number, m.startTime, m.endTime, m.text)
    ensures m.Structured? ==> IsNumber(m.number) && IsTimestamp(m.startTime) && IsTimestamp(m.endTime)
    ensures m.Structured? ==> m.text != []
  {
    var p := FirstShape(b, 0);
    if p == |b| then Opaque else GroupsAt(b, p)
  }

  // ---------------------------------------------------------------------

  /** The digit run from p is made of digits and is maximal. */
  lemma {:induction false} DigitRunDigits(b: string, p: nat)
    requires p <= |b|
    ensures forall i | p <= i < p + DigitRun(b, p) :: IsDigit(b[i])
    ensures p + DigitRun(b, p) < |b| ==> !IsDigit(b[p + DigitRun(b, p)])
    decreases |b| - p
  {
    if p < |b| && IsDigit(b[p]) {
      DigitRunDigits(b, p + 1);
    }
  }

  /** A digit run of at least one digit is a number. */
  lemma NumberAt(b: string, p: nat)
    requires p <= |b| && DigitRun(b, p) >= 1
    ensures IsNumber(b[p..p + DigitRun(b, p)])
  {
    DigitRunDigits(b, p);
  }

  /** A block holding the two newlines and the arrow where a rendered block
      has them is what precedes p followed by the rendering of its own
      slices. */
  lemma RenderAfter(b: string, p: nat, q: nat)
    requires p <= q && q + 31 <= |b|
    requires b[q] == '\n' && b[q + 30] == '\n' && b[q + 13..q + 18] == Arrow
    ensures b == b[..p] + Render(b[p..q], b[q + 1..q + 13], b[q + 18..q + 30], b[q + 31..])
  {
    var r := Render(b[p..q], b[q + 1..q + 13], b[q + 18..q + 30], b[q + 31..]);
    RenderSlices(b[p..q], b[q + 1..q + 13], b[q + 18..q + 30], b[q + 31..]);
    assert b[p..][..q - p] == r[..q - p];
    assert b[p..][q - p] == r[q - p];
    assert b[p..][q - p + 1..q - p + 13] == b[q + 1..q + 13];
    assert b[p..][q - p + 13..q - p + 18] == b[q + 13..q + 18];
    assert b[p..][q - p + 18..q - p + 30] == b[q + 18..q + 30];
    assert b[p..][q - p + 30] == r[q - p + 30];
    assert b[p..][q - p + 31..] == r[q - p + 31..];
    SameBySlices(b[p..], r, q - p);
    assert b == b[..p] + b[p..];
  }

  /** A block with a match at p is what precedes p followed by the rendered
      groups. */
  lemma BlockAtGroups(b: string, p: nat)
    requires ShapeAt(b, p)
    ensures var q := p + DigitRun(b, p);
      && IsNumber(b[p..q]) && IsTimestamp(b[q + 1..q + 13]) && IsTimestamp(b[q + 18..q + 30])
      && b[q + 31..] != []
      && b == b[..p] + Render(b[p..q], b[q + 1..q + 13], b[q + 18..q + 30], b[q + 31..])
  {
    NumberAt(b, p);
    RenderAfter(b, p, p + DigitRun(b, p));
  }

  /** Where each group sits in a rendered block. */
  lemma RenderSlices(number: string, startTime: string, endTime: string, text: string)
    requires |startTime| == 12 && |endTime| == 12
    ensures var r, n := Render(number, startTime, endTime, text), |number|;
      && |r| == n + 31 + |text|
      && r[..n] == number
      && r[n] == '\n'
      && r[n + 1..n + 13] == startTime
      && r[n + 13..n + 18] == Arrow
      && r[n + 18..n + 30] == endTime
      && r[n + 30] == '\n'
      && r[n + 31..] == text
  {
  }

  /** Two strings of the same length that agree piece by piece around the
      fixed-width timing part are equal. */
  lemma SameBySlices(x: string, y: string, n: nat)
    requires |x| == |y| && n + 31 <= |x|
    requires x[..n] == y[..n] && x[n] == y[n] && x[n + 30] == y[n + 30]
    requires x[n + 1..n + 13] == y[n + 1..n + 13]
    requires x[n + 13..n + 18] == y[n + 13..n + 18]
    requires x[n + 18..n + 30] == y[n + 18..n + 30]
    requires x[n + 31..] == y[n + 31..]
    ensures x == y
  {
    forall i | 0 <= i < |x|
      ensures x[i] == y[i]
    {
      if i < n {
        assert x[..n][i] == y[..n][i];
      } else if n < i < n + 13 {
        assert x[n + 1..n + 13][i - n - 1] == y[n + 1..n + 13][i - n - 1];
      } else if n + 13 <= i < n + 18 {
        assert x[n + 13..n + 18][i - n - 13] == y[n + 13..n + 18][i - n - 13];
      } else if n + 18 <= i < n + 30 {
        assert x[n + 18..n + 30][i - n - 18] == y[n + 18..n + 30][i - n - 18];
      } else if n + 30 < i {
        assert x[n + 31..][i - n - 31] == y[n + 31..][i - n - 31];
      }
    }
  }

  /** The pattern found one position after a digit is found at that digit
      too, with a longer number. */
  lemma StartsAfterDigits(b: string, p: nat)
    requires 0 < p && ShapeAt(b, p)
    ensures IsDigit(b[p - 1]) ==> ShapeAt(b, p - 1)
  {
    if IsDigit(b[p - 1]) {
      assert DigitRun(b, p - 1) == 1 + DigitRun(b, p);
    }
  }

  /** The number group is the whole run of digits: the match never starts
      right after a digit. */
  lemma MatchStartsAfterNonDigit(b: string)
    requires Parse(b).Structured? && Parse(b).at > 0
    ensures !IsDigit(b[Parse(b).at - 1])
  {
    StartsAfterDigits(b, Parse(b).at);
  }

  /** The scanner agrees with the backtracking matcher: the pattern matches
      at p with some digit group exactly when the shape is found at p, and
      then the digit group is the whole digit run. */
  lemma PatternAtIsShapeAt(b: string, p: nat, d: nat)
    ensures PatternAt(b, p, d) <==> ShapeAt(b, p) && d == DigitRun(b, p)
  {
    if p <= |b| {
      DigitRunDigits(b, p);
    }
    if PatternAt(b, p, d) {
      DigitRunTo(b, p, p + d);
    }
  }

  /** The digit run from p ends where the digits end. */
  lemma {:induction false} DigitRunTo(b: string, p: nat, e: nat)
    requires p <= e <= |b|
    requires forall i | p <= i < e :: IsDigit(b[i])
    requires e == |b| || !IsDigit(b[e])
    ensures DigitRun(b, p) == e - p
    decreases e - p
  {
    if p < e {
      DigitRunTo(b, p + 1, e);
    }
  }

  /** A rendered block parses back into its own groups, also when it follows
      a prefix in which the pattern does not start; the prefix is where the
      match starts. */
  lemma ParseAfterPrefix(pre: string, number: string, startTime: string, endTime: string, text: string)
    requires IsNumber(number) && IsTimestamp(startTime) && IsTimestamp(endTime) && text != []
    requires forall p | 0 <= p < |pre| :: !ShapeAt(pre + Render(number, startTime, endTime, text), p)
    ensures Parse(pre + Render(number, startTime, endTime, text)) == Structured(|pre|, number, startTime, endTime, text)
  {
    var r := Render(number, startTime, endTime, text);
    var b := pre + r;
    RenderHasShape(number, startTime, endTime, text);
    ShapeAfterPrefix(pre, r, |number|);
    var m := Parse(b);
    assert m.at == |pre|;
    assert b[|pre|..] == r;
    RenderSlices(number, startTime, endTime, text);
    RenderSlices(m.number, m.startTime, m.endTime, m.text);
    RenderInjective(number, startTime, endTime, text, m.number, m.startTime, m.endTime, m.text);
  }

  /** A shape at the start of r is still there after a prefix. */
  lemma ShapeAfterPrefix(pre: string, r: string, n: nat)
    requires 1 <= n && DigitRun(r, 0) == n && TailAt(r, n)
    ensures ShapeAt(pre + r, |pre|) && DigitRun(pre + r, |pre|) == n
  {
    ShiftDigitRun(pre, r, 0);
    ShiftTail(pre, r, n);
    ShapeFromParts(pre + r, |pre|, n);
  }

  /** The shape at `k` is a digit run followed by the tail. */
  lemma ShapeFromParts(b: string, k: nat, n: nat)
    requires k <= |b| && 1 <= n && DigitRun(b, k) == n && TailAt(b, k + n)
    ensures ShapeAt(b, k) && DigitRun(b, k) == n
  {
  }

  /** A rendered block has the shape at its start. */
  lemma RenderHasShape(number: string, startTime: string, endTime: string, text: string)
    requires IsNumber(number) && IsTimestamp(startTime) && IsTimestamp(endTime) && text != []
    ensures var r := Render(number, startTime, endTime, text);
      DigitRun(r, 0) == |number| && TailAt(r, |number|)
  {
    var r := Render(number, startTime, endTime, text);
    var n := |number|;
    RenderSlices(number, startTime, endTime, text);
    assert forall i | 0 <= i < n :: r[i] == r[..n][i];
    DigitRunTo(r, 0, n);
  }

  /** A prefix shifts digit runs without changing them. */
  lemma {:induction false} ShiftDigitRun(pre: string, r: string, q: nat)
    requires q <= |r|
    ensures DigitRun(pre + r, |pre| + q) == DigitRun(r, q)
    decreases |r| - q
  {
    if q < |r| {
      assert (pre + r)[|pre| + q] == r[q];
      ShiftDigitRun(pre, r, q + 1);
    }
  }

  /** A prefix shifts the timing line without changing it. */
  lemma ShiftTail(pre: string, r: string, q: nat)
    requires TailAt(r, q)
    ensures TailAt(pre + r, |pre| + q)
  {
    var b, k := pre + r, |pre|;
    assert b[k + q] == r[q] && b[k + q + 30] == r[q + 30];
    assert b[k + q + 1..k + q + 13] == r[q + 1..q + 13];
    assert b[k + q + 13..k + q + 18] == r[q + 13..q + 18];
    assert b[k + q + 18..k + q + 30] == r[q + 18..q + 30];
  }

  /** A rendered block determines its groups once the length of the number
      is known. */
  lemma RenderInjective(n1: string, s1: string, e1: string, t1: string, n2: string, s2: string, e2: string, t2: string)
    requires |n1| == |n2| && |s1| == |s2| == |e1| == |e2| == 12
    requires Render(n1, s1, e1, t1) == Render(n2, s2, e2, t2)
    ensures n1 == n2 && s1 == s2 && e1 == e2 && t1 == t2
  {
    RenderSlices(n1, s1, e1, t1);
    RenderSlices(n2, s2, e2, t2);
  }

  /** A block whose timing line has nothing after its newline does not
      match: `(.+)` needs one character. */
  lemma RenderWithoutTextIsOpaque(number: string, startTime: string, endTime: string)
    requires IsNumber(number) && IsTimestamp(startTime) && IsTimestamp(endTime)
    ensures Parse(Render(number, startTime, endTime, "")).Opaque?
  {
    var b := Render(number, startTime, endTime, "");
    forall p | 0 <= p < |b|
      ensures !ShapeAt(b, p)
    {
      var q := p + DigitRun(b, p);
      assert q < |number| ==> b[q] == number[q] && IsDigit(b[q]);
    }
  }
}
