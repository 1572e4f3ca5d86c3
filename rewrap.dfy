/** The rewrapping of one subtitle's text: `text.strip()`, the collapsing of
    whitespace runs to one space, and the greedy loop that fills lines up to
    `max_width` characters before joining them with newlines. */
module LineWrap {
  import opened Text

  /** `re.sub(r'\s+', ' ', text.strip())`: the words of the text separated
      by single spaces. */
  function Normalize(text: string): (t: string)
    ensures t == Join(Words(text), " ")
  {
    StripCollapseIsSpaceJoin(text);
    CollapseSpaces(Strip(text))
  }

  /** Length of a line made of the given words. */
  function Width(line: seq<string>): nat {
    |Join(line, " ")|
  }

  /** The greedy loop from the moment a line holding `line` is open: each
      word goes on the open line while the line, a space and the word fit in
      `maxWidth`; otherwise the open line is closed and the word opens the
      next one. The last open line is closed at the end. */
  function Fill(line: seq<string>, ws: seq<string>, maxWidth: nat): seq<seq<string>>
    decreases |ws|
  {
    if ws == [] then [line]
    else if Width(line) + 1 + |ws[0]| <= maxWidth then Fill(line + [ws[0]], ws[1..], maxWidth)
    else [line] + Fill([ws[0]], ws[1..], maxWidth)
  }

  /** The greedy loop from its start, as word groups, one per output line.
      The loop starts with an empty line, so a first word longer than
      `maxWidth` closes that empty line before it: the first group is then
      empty. */
  function Wrap(ws: seq<string>, maxWidth: nat): seq<seq<string>> {
    if ws == [] then []
    else if |ws[0]| <= maxWidth then Fill([ws[0]], ws[1..], maxWidth)
    else [[]] + Fill([ws[0]], ws[1..], maxWidth)
  }

  /** Each group written out as a line of space-separated words. */
  function LinesOf(gs: seq<seq<string>>): (lines: seq<string>)
    ensures |lines| == |gs|
  {
    seq(|gs|, k requires 0 <= k < |gs| => Join(gs[k], " "))
  }

  /** The output lines for a subtitle text. */
  function RewrapLines(text: string, maxWidth: nat): seq<string> {
    LinesOf(Wrap(Words(Normalize(text)), maxWidth))
  }

  /** `adjusted_text`: the output lines joined with newlines. */
  function Rewrap(text: string, maxWidth: nat): string {
    Join(RewrapLines(text, maxWidth), "\n")
  }

  /** The text part of `adjust_line_width`: normalise the whitespace, run
      the greedy loop over the words and join the lines it closes with
      newlines. */
  method AdjustText(text: string, maxWidth: nat) returns (adjustedText: string)
    ensures adjustedText == Rewrap(text, maxWidth)
  {
    var words := Words(Normalize(text));
    var lines := WrapWords(words, maxWidth);
    adjustedText := Join(lines, "\n");
  }

  /** The greedy loop: a word goes on the current line while the line so
      far (with its trailing space) and the word fit in `maxWidth`;
      otherwise the current line is closed, stripped, and the word opens the
      next one. The line still open at the end is closed too. */
  method WrapWords(words: seq<string>, maxWidth: nat) returns (lines: seq<string>)
    requires AllWords(words)
    ensures lines == LinesOf(Wrap(words, maxWidth))
  {
    lines := [];
    var currentLine := "";
    ghost var open: seq<string> := [];
    for i := 0 to |words|
      invariant i == 0 ==> lines == [] && currentLine == "" && open == []
      invariant i > 0 ==> open != [] && AllWords(open) && currentLine == Join(open, " ") + " "
      invariant i > 0 ==> LinesOf(Wrap(words, maxWidth)) == lines + LinesOf(Fill(open, words[i..], maxWidth))
    {
      var word := words[i];
      if |currentLine| + |word| <= maxWidth {
        WrapStepTakes(words, i, lines, currentLine, open, maxWidth);
        currentLine := currentLine + word + " ";
        open := open + [word];
      } else {
        WrapStepCloses(words, i, lines, currentLine, open, maxWidth);
        lines := lines + [Strip(currentLine)];
        currentLine := word + " ";
        open := [word];
      }
    }
    if currentLine != "" {
      StripClosedLine(open);
      assert words[|words|..] == [];
      lines := lines + [Strip(currentLine)];
    }
  }

  /** One turn of the loop when the word fits: it joins the open line. */
  lemma WrapStepTakes(words: seq<string>, i: nat, lines: seq<string>, currentLine: string, open: seq<string>, maxWidth: nat)
    requires AllWords(words) && i < |words|
    requires i == 0 ==> lines == [] && currentLine == "" && open == []
    requires i > 0 ==> open != [] && AllWords(open) && currentLine == Join(open, " ") + " "
    requires i > 0 ==> LinesOf(Wrap(words, maxWidth)) == lines + LinesOf(Fill(open, words[i..], maxWidth))
    requires |currentLine| + |words[i]| <= maxWidth
    ensures var open' := open + [words[i]];
      && AllWords(open')
      && currentLine + words[i] + " " == Join(open', " ") + " "
      && LinesOf(Wrap(words, maxWidth)) == lines + LinesOf(Fill(open', words[i + 1..], maxWidth))
  {
    var word, rest := words[i], words[i + 1..];
    assert words[i..] == [word] + rest;
    if i == 0 {
      assert words == [word] + rest;
      FirstWordOpens(word, rest, maxWidth);
      assert open + [word] == [word];
    } else {
      OpenLineTakes(open, word, rest, maxWidth);
    }
  }

  /** One turn of the loop when the word does not fit: the open line is
      closed and the word opens the next one. */
  lemma WrapStepCloses(words: seq<string>, i: nat, lines: seq<string>, currentLine: string, open: seq<string>, maxWidth: nat)
    requires AllWords(words) && i < |words|
    requires i == 0 ==> lines == [] && currentLine == "" && open == []
    requires i > 0 ==> open != [] && AllWords(open) && currentLine == Join(open, " ") + " "
    requires i > 0 ==> LinesOf(Wrap(words, maxWidth)) == lines + LinesOf(Fill(open, words[i..], maxWidth))
    requires |currentLine| + |words[i]| > maxWidth
    ensures AllWords([words[i]]) && words[i] + " " == Join([words[i]], " ") + " "
    ensures LinesOf(Wrap(words, maxWidth)) == (lines + [Strip(currentLine)]) + LinesOf(Fill([words[i]], words[i + 1..], maxWidth))
  {
    assert IsWord(words[i]);
    assert Join([words[i]], " ") == words[i];
    if i == 0 {
      ClosingEmptyLine(words, maxWidth);
    } else {
      ClosingOpenLine(words, i, lines, open, maxWidth);
    }
  }

  /** A first word that does not fit closes the empty line the loop starts
      with. */
  lemma ClosingEmptyLine(words: seq<string>, maxWidth: nat)
    requires words != [] && |words[0]| > maxWidth
    ensures LinesOf(Wrap(words, maxWidth)) == ([] + [Strip("")]) + LinesOf(Fill([words[0]], words[1..], maxWidth))
  {
    assert words == [words[0]] + words[1..];
    FirstWordOpens(words[0], words[1..], maxWidth);
  }

  /** A later word that does not fit closes the open line. */
  lemma ClosingOpenLine(words: seq<string>, i: nat, lines: seq<string>, open: seq<string>, maxWidth: nat)
    requires 0 < i < |words|
    requires open != [] && AllWords(open) && Width(open) + 1 + |words[i]| > maxWidth
    requires LinesOf(Wrap(words, maxWidth)) == lines + LinesOf(Fill(open, words[i..], maxWidth))
    ensures LinesOf(Wrap(words, maxWidth))
      == (lines + [Strip(Join(open, " ") + " ")]) + LinesOf(Fill([words[i]], words[i + 1..], maxWidth))
  {
    var word, rest := words[i], words[i + 1..];
    assert words[i..] == [word] + rest;
    OpenLineCloses(open, word, rest, maxWidth);
  }

  // ---------------------------------------------------------------------
  // The greedy wrap as a property of word groups

  /** A grouping of words into lines is greedy for `maxWidth`: only the
      first line may be empty, a line of two or more words fits, and no line
      could have taken the first word of the next one. */
  predicate Greedy(gs: seq<seq<string>>, maxWidth: nat) {
    && (forall k | 0 < k < |gs| :: gs[k] != [])
    && (forall k | 0 <= k < |gs| :: |gs[k]| <= 1 || Width(gs[k]) <= maxWidth)
    && (forall k | 0 <= k < |gs| - 1 :: gs[k] == [] || Width(gs[k]) + 1 + |gs[k + 1][0]| > maxWidth)
  }

  /** `gs` is the greedy wrap of the words `ws`: it holds them all in order,
      it is greedy, and its first line is empty exactly when the first word
      alone does not fit. */
  predicate IsGreedyWrap(gs: seq<seq<string>>, ws: seq<string>, maxWidth: nat) {
    && Concat(gs) == ws
    && Greedy(gs, maxWidth)
    && (ws == [] ==> gs == [])
    && (ws != [] ==> gs != [] && (gs[0] == [] <==> |ws[0]| > maxWidth))
  }

  /** The loop's grouping is the greedy wrap of the words. */
  lemma WrapIsGreedy(ws: seq<string>, maxWidth: nat)
    ensures IsGreedyWrap(Wrap(ws, maxWidth), ws, maxWidth)
  {
    if ws != [] {
      var f := Fill([ws[0]], ws[1..], maxWidth);
      FillIsGreedy([ws[0]], ws[1..], maxWidth);
      assert [ws[0]] + ws[1..] == ws;
      if |ws[0]| > maxWidth {
        GreedyCons([], f, maxWidth);
        assert Concat([[]] + f) == [] + Concat(f);
      }
    }
  }

  /** There is only one greedy wrap: any grouping with the properties of
      `IsGreedyWrap` is the one the loop builds. */
  lemma WrapIsUnique(gs: seq<seq<string>>, ws: seq<string>, maxWidth: nat)
    requires IsGreedyWrap(gs, ws, maxWidth)
    ensures gs == Wrap(ws, maxWidth)
  {
    if ws != [] {
      assert [ws[0]] + ws[1..] == ws;
      if |ws[0]| <= maxWidth {
        ConcatHead(gs);
        FillIsUnique([ws[0]], ws[1..], gs, maxWidth);
      } else {
        ConcatHead(gs);
        var tail := gs[1..];
        assert Concat(tail) == ws;
        GreedyTail(gs, maxWidth);
        ConcatHead(tail);
        FillIsUnique([ws[0]], ws[1..], tail, maxWidth);
        assert gs == [[]] + tail;
      }
    }
  }

  lemma ConcatHead(gs: seq<seq<string>>)
    requires gs != []
    ensures Concat(gs) == gs[0] + Concat(gs[1..])
  {
  }

  /** A greedy grouping stays greedy without its first line. */
  lemma GreedyTail(gs: seq<seq<string>>, maxWidth: nat)
    requires gs != [] && Greedy(gs, maxWidth)
    ensures Greedy(gs[1..], maxWidth)
  {
    var t := gs[1..];
    forall k | 0 <= k < |t|
      ensures t[k] == gs[k + 1]
    {
    }
  }

  /** A line put in front of a greedy grouping keeps it greedy when it fits
      and cannot take the next line's first word. */
  lemma GreedyCons(g: seq<string>, gs: seq<seq<string>>, maxWidth: nat)
    requires gs != [] && gs[0] != [] && Greedy(gs, maxWidth)
    requires |g| <= 1 || Width(g) <= maxWidth
    requires g == [] || Width(g) + 1 + |gs[0][0]| > maxWidth
    ensures Greedy([g] + gs, maxWidth)
  {
    var all := [g] + gs;
    forall k | 0 < k < |all|
      ensures all[k] == gs[k - 1]
    {
    }
  }

  /** The loop from an open line keeps every word in order, is greedy when
      the open line fits, and keeps the open line at the head of its first
      group. */
  lemma {:induction false} FillIsGreedy(line: seq<string>, ws: seq<string>, maxWidth: nat)
    requires line != []
    requires |line| <= 1 || Width(line) <= maxWidth
    ensures var gs := Fill(line, ws, maxWidth);
      && Concat(gs) == line + ws
      && Greedy(gs, maxWidth)
      && gs != [] && |gs[0]| >= |line| && gs[0][..|line|] == line
    decreases |ws|
  {
    var gs := Fill(line, ws, maxWidth);
    if ws == [] {
      assert Concat(gs) == line + Concat([]);
    } else if Width(line) + 1 + |ws[0]| <= maxWidth {
      var line' := line + [ws[0]];
      JoinSnoc(line, ws[0], " ");
      FillIsGreedy(line', ws[1..], maxWidth);
      assert line' + ws[1..] == line + ws;
      assert gs[0][..|line'|][..|line|] == line;
    } else {
      var f := Fill([ws[0]], ws[1..], maxWidth);
      FillIsGreedy([ws[0]], ws[1..], maxWidth);
      assert f[0][0] == f[0][..1][0] == ws[0];
      GreedyCons(line, f, maxWidth);
      assert gs == [line] + f;
      ConcatHead(gs);
      assert [ws[0]] + ws[1..] == ws;
    }
  }

  /** Widening a line never makes it shorter. */
  lemma {:induction false} WidthOfPrefix(g: seq<string>, j: nat)
    requires 1 <= j <= |g|
    ensures Width(g[..j]) <= Width(g)
    decreases |g|
  {
    if j < |g| {
      var init := g[..|g| - 1];
      assert g == init + [g[|g| - 1]];
      JoinSnoc(init, g[|g| - 1], " ");
      assert init[..j] == g[..j];
      WidthOfPrefix(init, j);
    } else {
      assert g[..j] == g;
    }
  }

  /** A greedy grouping of the words that starts with the open line is the
      one the loop builds from that line. */
  lemma {:induction false} FillIsUnique(line: seq<string>, ws: seq<string>, gs: seq<seq<string>>, maxWidth: nat)
    requires line != []
    requires Concat(gs) == line + ws
    requires Greedy(gs, maxWidth)
    requires gs != [] && |gs[0]| >= |line| && gs[0][..|line|] == line
    ensures gs == Fill(line, ws, maxWidth)
    decreases |ws|
  {
    var g0 := gs[0];
    ConcatHead(gs);
    var after := Concat(gs[1..]);
    if ws == [] {
      assert g0 == line;
    } else if |g0| > |line| {
      var line' := line + [ws[0]];
      assert g0[|line|] == (line + ws)[|line|];
      assert g0[..|line'|] == line';
      WidthOfPrefix(g0, |line'|);
      JoinSnoc(line, ws[0], " ");
      assert line' + ws[1..] == line + ws;
      FillIsUnique(line', ws[1..], gs, maxWidth);
    } else {
      assert g0 == line;
      assert (line + ws)[|line|..] == ws;
      assert (g0 + after)[|g0|..] == after;
      assert after == ws;
      var tail := gs[1..];
      assert tail != [];
      ConcatHead(tail);
      assert tail[0] != [];
      assert tail[0][0] == ws[0];
      assert tail[0][..1] == [ws[0]];
      GreedyTail(gs, maxWidth);
      assert [ws[0]] + ws[1..] == ws;
      FillIsUnique([ws[0]], ws[1..], tail, maxWidth);
      assert gs == [line] + tail;
    }
  }

  // ---------------------------------------------------------------------
  // Helpers for the loop

  /** The first word opens the first line, after an empty line when it is
      too long to fit. */
  lemma FirstWordOpens(word: string, rest: seq<string>, maxWidth: nat)
    ensures |word| <= maxWidth ==> LinesOf(Wrap([word] + rest, maxWidth)) == LinesOf(Fill([word], rest, maxWidth))
    ensures |word| > maxWidth ==> LinesOf(Wrap([word] + rest, maxWidth)) == [Strip("")] + LinesOf(Fill([word], rest, maxWidth))
  {
    var ws := [word] + rest;
    assert ws[0] == word && ws[1..] == rest;
    var tail := Fill([word], rest, maxWidth);
    if |word| > maxWidth {
      assert Wrap(ws, maxWidth) == [[]] + tail;
      LinesOfAppend([[]], tail);
      assert LinesOf([[]]) == [Strip("")] by {
        assert Join([], " ") == "";
        assert Strip("") == "";
      }
    } else {
      assert Wrap(ws, maxWidth) == tail;
    }
  }

  /** A word that fits goes on the open line. */
  lemma OpenLineTakes(open: seq<string>, word: string, rest: seq<string>, maxWidth: nat)
    requires open != [] && Width(open) + 1 + |word| <= maxWidth
    ensures Fill(open, [word] + rest, maxWidth) == Fill(open + [word], rest, maxWidth)
    ensures Join(open + [word], " ") + " " == Join(open, " ") + " " + word + " "
  {
    var ws := [word] + rest;
    assert ws[0] == word && ws[1..] == rest;
    JoinSnoc(open, word, " ");
  }

  /** A word that does not fit closes the open line and opens the next. */
  lemma OpenLineCloses(open: seq<string>, word: string, rest: seq<string>, maxWidth: nat)
    requires open != [] && AllWords(open) && Width(open) + 1 + |word| > maxWidth
    ensures LinesOf(Fill(open, [word] + rest, maxWidth))
      == [Strip(Join(open, " ") + " ")] + LinesOf(Fill([word], rest, maxWidth))
  {
    var ws := [word] + rest;
    assert ws[0] == word && ws[1..] == rest;
    var tail := Fill([word], rest, maxWidth);
    assert Fill(open, ws, maxWidth) == [open] + tail;
    LinesOfAppend([open], tail);
    assert LinesOf([open]) == [Strip(Join(open, " ") + " ")] by {
      StripClosedLine(open);
    }
  }

  lemma LinesOfAppend(a: seq<seq<string>>, b: seq<seq<string>>)
    ensures LinesOf(a + b) == LinesOf(a) + LinesOf(b)
  {
  }

  /** Closing the open line strips the space written after its last word. */
  lemma StripClosedLine(open: seq<string>)
    requires open != [] && AllWords(open)
    ensures Strip(Join(open, " ") + " ") == Join(open, " ")
  {
    var s := Join(open, " ");
    SpaceJoinChars(open);
    var t := s + " ";
    assert StripLeft(t) == t;
    assert t[..|t| - 1] == s;
  }

  // ---------------------------------------------------------------------
  // What the rewrapped text promises

  /** Every group of a word-preserving grouping is made of words. */
  lemma {:induction false} GroupsAreWords(gs: seq<seq<string>>)
    requires AllWords(Concat(gs))
    ensures forall k | 0 <= k < |gs| :: AllWords(gs[k])
  {
    if gs != [] {
      ConcatHead(gs);
      assert forall i | 0 <= i < |gs[0]| :: gs[0][i] == Concat(gs)[i];
      var rest := Concat(gs[1..]);
      assert forall i | 0 <= i < |rest| :: rest[i] == Concat(gs)[|gs[0]| + i];
      GroupsAreWords(gs[1..]);
      forall k | 0 < k < |gs|
        ensures AllWords(gs[k])
      {
        assert gs[k] == gs[1..][k - 1];
      }
    }
  }

  /** The lines depend on the words of the text only. */
  lemma RewrapLinesOfWords(text: string, maxWidth: nat)
    ensures RewrapLines(text, maxWidth) == LinesOf(Wrap(Words(text), maxWidth))
  {
    WordsOfSpaceJoin(Words(text));
  }

  /** Each line holds the words of its group: the lines, read in order, hold
      the words of the text in order. */
  lemma LinesHoldGroups(text: string, maxWidth: nat)
    ensures var gs, lines := Wrap(Words(text), maxWidth), RewrapLines(text, maxWidth);
      |lines| == |gs| && forall k | 0 <= k < |gs| :: Words(lines[k]) == gs[k]
  {
    var ws := Words(text);
    var gs := Wrap(ws, maxWidth);
    RewrapLinesOfWords(text, maxWidth);
    WrapIsGreedy(ws, maxWidth);
    GroupsAreWords(gs);
    forall k | 0 <= k < |gs|
      ensures Words(RewrapLines(text, maxWidth)[k]) == gs[k]
    {
      WordsOfSpaceJoin(gs[k]);
    }
  }

  /** Rewrapping neither adds, drops nor reorders a word. */
  lemma RewrapKeepsWords(text: string, maxWidth: nat)
    ensures Words(Rewrap(text, maxWidth)) == Words(text)
  {
    var ws := Words(text);
    var gs := Wrap(ws, maxWidth);
    var lines := RewrapLines(text, maxWidth);
    RewrapLinesOfWords(text, maxWidth);
    WrapIsGreedy(ws, maxWidth);
    LinesHoldGroups(text, maxWidth);
    WordsOfJoin(lines, '\n');
    assert seq(|lines|, k requires 0 <= k < |lines| => Words(lines[k])) == gs;
  }

  /** Rewrapping a rewrapped text changes nothing. */
  lemma RewrapIsIdempotent(text: string, maxWidth: nat)
    ensures Rewrap(Rewrap(text, maxWidth), maxWidth) == Rewrap(text, maxWidth)
  {
    RewrapKeepsWords(text, maxWidth);
    RewrapLinesOfWords(text, maxWidth);
    RewrapLinesOfWords(Rewrap(text, maxWidth), maxWidth);
  }

  /** The result is empty exactly when the text has no words (whitespace
      only, or nothing). */
  lemma RewrapEmpty(text: string, maxWidth: nat)
    ensures Rewrap(text, maxWidth) == "" <==> Words(text) == []
  {
    RewrapKeepsWords(text, maxWidth);
    RewrapLinesOfWords(text, maxWidth);
  }

  /** The width bound: a line is at most `maxWidth` long unless it is a
      single word that is longer on its own. */
  lemma RewrapWithinWidth(text: string, maxWidth: nat)
    ensures var lines := RewrapLines(text, maxWidth);
      forall k | 0 <= k < |lines| :: |lines[k]| <= maxWidth || IsWord(lines[k])
  {
    var ws := Words(text);
    var gs := Wrap(ws, maxWidth);
    var lines := RewrapLines(text, maxWidth);
    RewrapLinesOfWords(text, maxWidth);
    WrapIsGreedy(ws, maxWidth);
    GroupsAreWords(gs);
    forall k | 0 <= k < |lines|
      ensures |lines[k]| <= maxWidth || IsWord(lines[k])
    {
      assert lines[k] == Join(gs[k], " ");
    }
  }

  /** Greedy maximality: no non-empty line could also have held the first
      word of the line after it. */
  lemma RewrapIsGreedy(text: string, maxWidth: nat)
    ensures var lines := RewrapLines(text, maxWidth);
      forall k | 0 <= k < |lines| - 1 ::
        lines[k] == "" || (Words(lines[k + 1]) != [] && |lines[k]| + 1 + |Words(lines[k + 1])[0]| > maxWidth)
  {
    var ws := Words(text);
    var gs := Wrap(ws, maxWidth);
    var lines := RewrapLines(text, maxWidth);
    RewrapLinesOfWords(text, maxWidth);
    WrapIsGreedy(ws, maxWidth);
    LinesHoldGroups(text, maxWidth);
    forall k | 0 <= k < |lines| - 1
      ensures lines[k] == "" || (Words(lines[k + 1]) != [] && |lines[k]| + 1 + |Words(lines[k + 1])[0]| > maxWidth)
    {
      assert lines[k] == Join(gs[k], " ");
      assert Words(lines[k + 1]) == gs[k + 1];
    }
  }

  /** The shape of the lines: no line holds a newline, and only the first
      may be empty, which happens exactly when the first word is longer
      than `maxWidth`. */
  lemma RewrapLinesShape(text: string, maxWidth: nat)
    ensures var lines := RewrapLines(text, maxWidth);
      && (forall k, i | 0 <= k < |lines| && 0 <= i < |lines[k]| :: lines[k][i] != '\n')
      && (forall k | 0 < k < |lines| :: lines[k] != "")
      && (lines != [] ==> (lines[0] == "" <==> |Words(text)[0]| > maxWidth))
      && (lines == [] <==> Words(text) == [])
  {
    var ws := Words(text);
    var gs := Wrap(ws, maxWidth);
    RewrapLinesOfWords(text, maxWidth);
    WrapIsGreedy(ws, maxWidth);
    GroupsAreWords(gs);
    LinesOfWordGroups(gs);
  }

  /** Groups of words are written out as lines without a newline, and a line
      is empty exactly when its group is. */
  lemma LinesOfWordGroups(gs: seq<seq<string>>)
    requires forall k | 0 <= k < |gs| :: AllWords(gs[k])
    ensures var lines := LinesOf(gs);
      && (forall k, i | 0 <= k < |lines| && 0 <= i < |lines[k]| :: lines[k][i] != '\n')
      && (forall k | 0 <= k < |lines| :: lines[k] == "" <==> gs[k] == [])
  {
    var lines := LinesOf(gs);
    forall k | 0 <= k < |lines|
      ensures (forall i | 0 <= i < |lines[k]| :: lines[k][i] != '\n')
      ensures lines[k] == "" <==> gs[k] == []
    {
      SpaceJoinChars(gs[k]);
    }
  }

  /** A first word too long for the width gives an empty first line: the
      result starts with a newline. Otherwise it starts with the first word. */
  lemma RewrapLeadingNewline(text: string, maxWidth: nat)
    requires Words(text) != []
    ensures Rewrap(text, maxWidth) != []
    ensures Rewrap(text, maxWidth)[0] == '\n' <==> |Words(text)[0]| > maxWidth
  {
    var lines := RewrapLines(text, maxWidth);
    RewrapEmpty(text, maxWidth);
    RewrapLinesShape(text, maxWidth);
    var ws := Words(text);
    if |ws[0]| > maxWidth {
      assert |lines| > 1;
      assert Rewrap(text, maxWidth) == lines[0] + "\n" + Join(lines[1..], "\n");
    } else {
      RewrapLinesOfWords(text, maxWidth);
      var gs := Wrap(ws, maxWidth);
      WrapIsGreedy(ws, maxWidth);
      GroupsAreWords(gs);
      SpaceJoinChars(gs[0]);
      JoinStartsWithFirst(lines, "\n");
    }
  }

  /** A text with words rewraps to a text that ends with a word character. */
  lemma RewrapEndsWithWord(text: string, maxWidth: nat)
    requires Words(text) != []
    ensures var r := Rewrap(text, maxWidth);
      r != [] && !IsSpace(r[|r| - 1])
  {
    var ws := Words(text);
    var gs := Wrap(ws, maxWidth);
    RewrapLinesOfWords(text, maxWidth);
    assert Rewrap(text, maxWidth) == Join(LinesOf(gs), "\n");
    LastGroupIsWords(ws, maxWidth);
    LinesEndWithWord(gs);
  }

  /** The greedy wrap of at least one word ends with a group of words. */
  lemma LastGroupIsWords(ws: seq<string>, maxWidth: nat)
    requires ws != [] && AllWords(ws)
    ensures var gs := Wrap(ws, maxWidth);
      gs != [] && gs[|gs| - 1] != [] && AllWords(gs[|gs| - 1])
  {
    var gs := Wrap(ws, maxWidth);
    WrapIsGreedy(ws, maxWidth);
    GroupsAreWords(gs);
    assert gs[|gs| - 1] != [] by {
      if |gs| == 1 {
        ConcatHead(gs);
      }
    }
  }

  /** Word groups whose last group is not empty are written out as text
      that ends with a word character. */
  lemma LinesEndWithWord(gs: seq<seq<string>>)
    requires gs != [] && gs[|gs| - 1] != [] && AllWords(gs[|gs| - 1])
    ensures var r := Join(LinesOf(gs), "\n");
      r != [] && !IsSpace(r[|r| - 1])
  {
    var lines := LinesOf(gs);
    assert lines[|lines| - 1] == Join(gs[|gs| - 1], " ");
    SpaceJoinChars(gs[|gs| - 1]);
    JoinEndsWithLast(lines, "\n");
  }
}
