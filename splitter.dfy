/** The block splitter `re.split(r'\n{2,}', srt_text)` and the document
    assembler's join with a blank line, which is its inverse on documents
    whose blank lines are single. */
module Splitter {
  import opened Text

  /** The separator the assembler puts between blocks. */
  const BlankLine := "\n\n"

  /** `s` begins with a run of two or more newlines. */
  predicate StartsBlankRun(s: string) {
    |s| >= 2 && s[0] == '\n' && s[1] == '\n'
  }

  /** No two consecutive newlines: the text holds no blank line. */
  predicate NoBlankLine(s: string) {
    forall i | 0 <= i < |s| - 1 :: s[i] != '\n' || s[i + 1] != '\n'
  }

  /** No three consecutive newlines: every blank-line run is a single blank line. */
  predicate NoDoubleBlankLine(s: string) {
    forall i | 0 <= i < |s| - 2 :: s[i] != '\n' || s[i + 1] != '\n' || s[i + 2] != '\n'
  }

  /** The text after the leading run of newlines. */
  function DropNewlines(s: string): (r: string)
    ensures |r| <= |s| && r == s[|s| - |r|..]
    ensures forall i | 0 <= i < |s| - |r| :: s[i] == '\n'
    ensures r == [] || r[0] != '\n'
  {
    if s != [] && s[0] == '\n' then DropNewlines(s[1..]) else s
  }

  /** `re.split(r'\n{2,}', s)`: the pieces between the maximal runs of two
      or more newlines, scanning from the left. */
  function Split(s: string): (blocks: seq<string>)
    ensures |blocks| >= 1
    ensures blocks[0] != [] ==> s != [] && blocks[0][0] == s[0] && !StartsBlankRun(s)
    ensures blocks[0] == [] && |blocks| > 1 ==> StartsBlankRun(s)
    decreases |s|
  {
    if StartsBlankRun(s) then [""] + Split(DropNewlines(s))
    else if s == [] then [""]
    else
      var rest := Split(s[1..]);
      [[s[0]] + rest[0]] + rest[1..]
  }

  /** `re.sub(r'\n{2,}', '\n\n', s)`: every run of two or more newlines
      becomes exactly one blank line. */
  function CollapseBlankRuns(s: string): string
    decreases |s|
  {
    if StartsBlankRun(s) then BlankLine + CollapseBlankRuns(DropNewlines(s))
    else if s == [] then ""
    else [s[0]] + CollapseBlankRuns(s[1..])
  }

  /** The pieces of a split document: none holds a blank line, only the
      first may start and only the last may end with a newline, and only the
      first and the last may be empty. */
  predicate WellSeparated(bs: seq<string>) {
    && |bs| >= 1
    && (forall i | 0 <= i < |bs| :: NoBlankLine(bs[i]))
    && (forall i | 0 < i < |bs| - 1 :: bs[i] != [])
    && (forall i | 0 <= i < |bs| - 1 :: bs[i] == [] || bs[i][|bs[i]| - 1] != '\n')
    && (forall i | 0 < i < |bs| :: bs[i] == [] || bs[i][0] != '\n')
  }

  // ---------------------------------------------------------------------

  lemma DropBlankLine(y: string)
    requires y == [] || y[0] != '\n'
    ensures DropNewlines(BlankLine + y) == y
  {
    var s := BlankLine + y;
    assert s[1..][1..] == y;
  }

  lemma JoinConsChar(c: char, parts: seq<string>, sep: string)
    requires parts != []
    ensures Join([[c] + parts[0]] + parts[1..], sep) == [c] + Join(parts, sep)
  {
    var ps := [[c] + parts[0]] + parts[1..];
    if |parts| > 1 {
      assert ps[1..] == parts[1..];
    }
  }

  /** Joining the pieces with a blank line gives the document back with
      every run of two or more newlines reduced to one blank line. */
  lemma {:induction false} JoinOfSplit(s: string)
    ensures Join(Split(s), BlankLine) == CollapseBlankRuns(s)
    decreases |s|
  {
    if StartsBlankRun(s) {
      var d := DropNewlines(s);
      JoinOfSplit(d);
      assert ([""] + Split(d))[1..] == Split(d);
    } else if s != [] {
      JoinOfSplit(s[1..]);
      JoinConsChar(s[0], Split(s[1..]), BlankLine);
    }
  }

  lemma NoBlankLineCons(c: char, x: string)
    requires NoBlankLine(x)
    requires c != '\n' || x == [] || x[0] != '\n'
    ensures NoBlankLine([c] + x)
  {
    var y := [c] + x;
    forall i | 0 <= i < |y| - 1
      ensures y[i] != '\n' || y[i + 1] != '\n'
    {
      if i > 0 {
        assert y[i] == x[i - 1] && y[i + 1] == x[i];
      }
    }
  }

  /** Two texts without a blank line, not meeting newline to newline, make
      a text without a blank line. */
  lemma NoBlankLineAppend(x: string, y: string)
    requires NoBlankLine(x) && NoBlankLine(y)
    requires x == [] || y == [] || x[|x| - 1] != '\n' || y[0] != '\n'
    ensures NoBlankLine(x + y)
  {
    var s := x + y;
    forall i | 0 <= i < |s| - 1
      ensures s[i] != '\n' || s[i + 1] != '\n'
    {
      if i + 1 < |x| {
        assert s[i] == x[i] && s[i + 1] == x[i + 1];
      } else if i >= |x| {
        assert s[i] == y[i - |x|] && s[i + 1] == y[i + 1 - |x|];
      }
    }
  }

  /** The split pieces are well separated; in particular none of them holds
      a blank line. */
  lemma {:induction false} SplitIsWellSeparated(s: string)
    ensures WellSeparated(Split(s))
    decreases |s|
  {
    var bs := Split(s);
    if StartsBlankRun(s) {
      var d := DropNewlines(s);
      SplitIsWellSeparated(d);
      assert bs == [""] + Split(d);
      WellSeparatedAfterEmpty(Split(d));
    } else if s == [] {
      assert bs == [""];
      assert NoBlankLine("");
    } else {
      var rest := Split(s[1..]);
      SplitIsWellSeparated(s[1..]);
      assert bs == [[s[0]] + rest[0]] + rest[1..];
      assert |rest| > 1 && rest[0] == [] ==> s[0] != '\n';
      WellSeparatedCons(s[0], rest);
    }
  }

  /** An empty piece may go in front of well-separated pieces whose first
      piece neither is empty (unless alone) nor starts with a newline. */
  lemma WellSeparatedAfterEmpty(rest: seq<string>)
    requires WellSeparated(rest)
    requires rest[0] == [] ==> |rest| == 1
    requires rest[0] == [] || rest[0][0] != '\n'
    ensures WellSeparated([""] + rest)
  {
    var bs := [""] + rest;
    assert NoBlankLine("");
    forall i | 0 < i < |bs|
      ensures bs[i] == rest[i - 1]
    {
    }
  }

  /** Putting a character in front of the first of well-separated pieces
      keeps them well separated, unless it makes a blank line. */
  lemma WellSeparatedCons(c: char, rest: seq<string>)
    requires WellSeparated(rest)
    requires c != '\n' || rest[0] == [] || rest[0][0] != '\n'
    requires |rest| > 1 && rest[0] == [] ==> c != '\n'
    ensures WellSeparated([[c] + rest[0]] + rest[1..])
  {
    var bs := [[c] + rest[0]] + rest[1..];
    NoBlankLineCons(c, rest[0]);
    assert rest[0] != [] ==> bs[0][|bs[0]| - 1] == rest[0][|rest[0]| - 1];
    forall i | 0 < i < |bs|
      ensures bs[i] == rest[i]
    {
    }
  }

  /** A piece without a blank line is split into itself alone. */
  lemma {:induction false} SplitOfPiece(x: string)
    requires NoBlankLine(x)
    ensures Split(x) == [x]
    decreases |x|
  {
    if x != [] {
      assert NoBlankLine(x[1..]) by {
        forall i | 0 <= i < |x| - 2
          ensures x[1..][i] != '\n' || x[1..][i + 1] != '\n'
        {
          assert x[1..][i] == x[i + 1] && x[1..][i + 1] == x[i + 2];
        }
      }
      SplitOfPiece(x[1..]);
      assert [x[0]] + x[1..] == x;
    }
  }

  /** The split stops exactly at a separator that is a maximal newline run. */
  lemma {:induction false} SplitAtSeparator(x: string, y: string)
    requires NoBlankLine(x)
    requires x == [] || x[|x| - 1] != '\n'
    requires y == [] || y[0] != '\n'
    ensures Split(x + BlankLine + y) == [x] + Split(y)
    decreases |x|
  {
    var s := x + BlankLine + y;
    if x == [] {
      assert s == BlankLine + y;
      DropBlankLine(y);
    } else {
      assert !StartsBlankRun(s) by {
        if |x| == 1 {
          assert s[0] == x[0] != '\n';
        } else {
          assert s[0] == x[0] && s[1] == x[1];
        }
      }
      var x' := x[1..];
      assert NoBlankLine(x') by {
        forall i | 0 <= i < |x'| - 1
          ensures x'[i] != '\n' || x'[i + 1] != '\n'
        {
          assert x'[i] == x[i + 1] && x'[i + 1] == x[i + 2];
        }
      }
      assert s[1..] == x' + BlankLine + y;
      SplitAtSeparator(x', y);
      assert [x[0]] + x' == x;
    }
  }

  /** Splitting undoes the join of well-separated pieces. */
  lemma {:induction false} SplitOfJoin(bs: seq<string>)
    requires WellSeparated(bs)
    ensures Split(Join(bs, BlankLine)) == bs
  {
    if |bs| == 1 {
      SplitOfPiece(bs[0]);
    } else {
      var tail := bs[1..];
      assert WellSeparated(tail) by {
        forall i | 0 <= i < |tail|
          ensures NoBlankLine(tail[i])
        {
          assert tail[i] == bs[i + 1];
        }
      }
      var y := Join(tail, BlankLine);
      if tail[0] != [] {
        JoinStartsWithFirst(tail, BlankLine);
      }
      SplitAtSeparator(bs[0], y);
      SplitOfJoin(tail);
    }
  }

  /** Collapsing blank-line runs leaves a text alone when all of them are
      already single. */
  lemma {:induction false} CollapseKeepsSingleBlankLines(s: string)
    requires NoDoubleBlankLine(s)
    ensures CollapseBlankRuns(s) == s
    decreases |s|
  {
    if StartsBlankRun(s) {
      assert |s| > 2 ==> s[2] != '\n';
      assert s == BlankLine + s[2..];
      DropBlankLine(s[2..]);
      assert NoDoubleBlankLine(s[2..]) by {
        forall i | 0 <= i < |s[2..]| - 2
          ensures s[2..][i] != '\n' || s[2..][i + 1] != '\n' || s[2..][i + 2] != '\n'
        {
          assert s[2..][i] == s[i + 2];
        }
      }
      CollapseKeepsSingleBlankLines(s[2..]);
      assert s == BlankLine + s[2..];
    } else if s != [] {
      assert NoDoubleBlankLine(s[1..]) by {
        forall i | 0 <= i < |s[1..]| - 2
          ensures s[1..][i] != '\n' || s[1..][i + 1] != '\n' || s[1..][i + 2] != '\n'
        {
          assert s[1..][i] == s[i + 1];
        }
      }
      CollapseKeepsSingleBlankLines(s[1..]);
      assert s == [s[0]] + s[1..];
    }
  }
}
