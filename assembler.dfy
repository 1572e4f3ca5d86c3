/** The body of `adjust_line_width` between reading and writing the file:
    split the document into blocks, rewrite in place every block in which
    the subtitle pattern is found, and join the blocks with a blank line. */
module Assembler {
  import opened Text
  import opened Splitter
  import opened Parser
  import opened LineWrap

  /** What the loop leaves in the slot of one block: the block itself when
      the pattern is not found in it, otherwise the four groups written back
      with the text rewrapped. Whatever came before the match is dropped. */
  function AdjustBlock(block: string, maxWidth: nat): string {
    match Parse(block)
    case Opaque => block
    case Structured(_, number, startTime, endTime, text) =>
      Render(number, startTime, endTime, Rewrap(text, maxWidth))
  }

  /** The list of blocks after the loop. */
  function AdjustAll(blocks: seq<string>, maxWidth: nat): seq<string> {
    seq(|blocks|, k requires 0 <= k < |blocks| => AdjustBlock(blocks[k], maxWidth))
  }

  /** The whole text transform: split, adjust every block, join. */
  function Transform(srtText: string, maxWidth: nat): string {
    Join(AdjustAll(Split(srtText), maxWidth), BlankLine)
  }

  /** The loop over `subtitle_blocks`, replacing each block that matches by
      its adjusted form and leaving the others in place. */
  method AdjustBlocks(blocks: array<string>, maxWidth: nat)
    modifies blocks
    ensures blocks[..] == AdjustAll(old(blocks[..]), maxWidth)
  {
    ghost var original := blocks[..];
    for i := 0 to blocks.Length
      invariant blocks[..] == AdjustAll(original[..i], maxWidth) + original[i..]
    {
      var block := blocks[i];
      assert block == original[i];
      var m := Parse(block);
      AdjustBlockCases(block, maxWidth);
      var adjustedBlock := block;
      if m.Structured? {
        var adjustedText := AdjustText(m.text, maxWidth);
        adjustedBlock := Render(m.number, m.startTime, m.endTime, adjustedText);
      }
      AdjustAllStep(original, i, adjustedBlock, maxWidth);
      blocks[i] := adjustedBlock;
    }
    assert original[..blocks.Length] == original;
  }

  /** `adjust_line_width` without the file: the adjusted document for a
      document text and a line width. */
  method AdjustLineWidth(srtText: string, maxWidth: nat) returns (adjustedSrt: string)
    ensures adjustedSrt == Transform(srtText, maxWidth)
  {
    var pieces := Split(srtText);
    var subtitleBlocks := new string[|pieces|](k requires 0 <= k < |pieces| => pieces[k]);
    assert subtitleBlocks[..] == pieces;
    AdjustBlocks(subtitleBlocks, maxWidth);
    adjustedSrt := Join(subtitleBlocks[..], BlankLine);
  }

  // ---------------------------------------------------------------------
  // One block

  /** One more adjusted block in the list. */
  lemma AdjustAllStep(original: seq<string>, i: nat, adjustedBlock: string, maxWidth: nat)
    requires i < |original| && adjustedBlock == AdjustBlock(original[i], maxWidth)
    ensures (AdjustAll(original[..i], maxWidth) + original[i..])[i := adjustedBlock]
      == AdjustAll(original[..i + 1], maxWidth) + original[i + 1..]
  {
  }

  lemma AdjustBlockCases(block: string, maxWidth: nat)
    ensures var m := Parse(block);
      AdjustBlock(block, maxWidth)
        == if m.Opaque? then block else Render(m.number, m.startTime, m.endTime, Rewrap(m.text, maxWidth))
  {
  }

  /** A block in which the pattern is not found is left exactly as it was. */
  lemma AdjustBlockPassesThrough(block: string, maxWidth: nat)
    requires forall p | 0 <= p < |block| :: !ShapeAt(block, p)
    ensures AdjustBlock(block, maxWidth) == block
  {
  }

  /** A timing line with nothing after it is not a subtitle: `(.+)` needs a
      character, so the block is left as it was. */
  lemma TimingWithoutTextPassesThrough(number: string, startTime: string, endTime: string, maxWidth: nat)
    requires IsNumber(number) && IsTimestamp(startTime) && IsTimestamp(endTime)
    ensures AdjustBlock(Render(number, startTime, endTime, ""), maxWidth) == Render(number, startTime, endTime, "")
  {
    RenderWithoutTextIsOpaque(number, startTime, endTime);
  }

  /** A subtitle block, possibly after a prefix in which the pattern does
      not start, becomes the same number and timestamps with the text
      rewrapped; the prefix is dropped. */
  lemma AdjustBlockRewrites(pre: string, number: string, startTime: string, endTime: string, text: string, maxWidth: nat)
    requires IsNumber(number) && IsTimestamp(startTime) && IsTimestamp(endTime) && text != []
    requires forall p | 0 <= p < |pre| :: !ShapeAt(pre + Render(number, startTime, endTime, text), p)
    ensures AdjustBlock(pre + Render(number, startTime, endTime, text), maxWidth)
      == Render(number, startTime, endTime, Rewrap(text, maxWidth))
  {
    ParseAfterPrefix(pre, number, startTime, endTime, text);
  }

  /** Adjusting an adjusted block changes nothing. */
  lemma AdjustBlockIsIdempotent(block: string, maxWidth: nat)
    ensures AdjustBlock(AdjustBlock(block, maxWidth), maxWidth) == AdjustBlock(block, maxWidth)
  {
    var m := Parse(block);
    AdjustBlockCases(block, maxWidth);
    if m.Structured? {
      RewrittenBlockIsFixed(m.number, m.startTime, m.endTime, m.text, maxWidth);
    }
  }

  /** A rewritten subtitle is left as it is by a second adjustment. */
  lemma RewrittenBlockIsFixed(number: string, startTime: string, endTime: string, text: string, maxWidth: nat)
    requires IsNumber(number) && IsTimestamp(startTime) && IsTimestamp(endTime)
    ensures var r := Render(number, startTime, endTime, Rewrap(text, maxWidth));
      AdjustBlock(r, maxWidth) == r
  {
    var t := Rewrap(text, maxWidth);
    var r := Render(number, startTime, endTime, t);
    AdjustBlockCases(r, maxWidth);
    if t == "" {
      RenderWithoutTextIsOpaque(number, startTime, endTime);
    } else {
      assert "" + r == r;
      ParseAfterPrefix("", number, startTime, endTime, t);
      RewrapIsIdempotent(text, maxWidth);
    }
  }

  /** The text's first word fits on a line of `maxWidth` characters. */
  predicate FirstWordFits(text: string, maxWidth: nat) {
    Words(text) != [] && |Words(text)[0]| <= maxWidth
  }

  /** A rewritten block whose first word fits holds no blank line, starts
      with a digit and ends with a word character. */
  lemma AdjustedBlockShape(block: string, maxWidth: nat)
    requires Parse(block).Structured? && FirstWordFits(Parse(block).text, maxWidth)
    ensures var r := AdjustBlock(block, maxWidth);
      && NoBlankLine(r)
      && r != [] && IsDigit(r[0]) && !IsSpace(r[|r| - 1])
  {
    var m := Parse(block);
    AdjustBlockCases(block, maxWidth);
    RenderedTextShape(m.number, m.startTime, m.endTime, m.text, maxWidth);
  }

  /** The rendered form of a subtitle whose first word fits. */
  lemma RenderedTextShape(number: string, startTime: string, endTime: string, text: string, maxWidth: nat)
    requires IsNumber(number) && IsTimestamp(startTime) && IsTimestamp(endTime)
    requires FirstWordFits(text, maxWidth)
    ensures var r := Render(number, startTime, endTime, Rewrap(text, maxWidth));
      && NoBlankLine(r)
      && r != [] && IsDigit(r[0]) && !IsSpace(r[|r| - 1])
  {
    var t := Rewrap(text, maxWidth);
    RewrapNoBlankLine(text, maxWidth);
    RewrapEndsWithWord(text, maxWidth);
    RenderNoBlankLine(number, startTime, endTime, t);
    var r := Render(number, startTime, endTime, t);
    assert r[0] == number[0];
    assert r[|r| - 1] == t[|t| - 1];
  }

  /** A first word longer than `maxWidth` leaves an empty first line: the
      rewritten block holds a blank line, so reading the result again
      splits it in two. */
  lemma LongFirstWordLeavesBlankLine(block: string, maxWidth: nat)
    requires Parse(block).Structured?
    requires Words(Parse(block).text) != [] && |Words(Parse(block).text)[0]| > maxWidth
    ensures !NoBlankLine(AdjustBlock(block, maxWidth))
    ensures |Split(AdjustBlock(block, maxWidth))| > 1
  {
    var m := Parse(block);
    var t := Rewrap(m.text, maxWidth);
    RewrapLeadingNewline(m.text, maxWidth);
    var r := Render(m.number, m.startTime, m.endTime, t);
    var n := |m.number|;
    RenderSlices(m.number, m.startTime, m.endTime, t);
    assert r[n + 30] == '\n' && r[n + 31] == t[0];
    SplitsAtFirstBlankLine(r, n + 30);
  }

  /** A subtitle whose text is whitespace only is rewritten with an empty
      text: the block then ends with the newline after the timing line. */
  lemma BlankTextEndsWithNewline(block: string, maxWidth: nat)
    requires Parse(block).Structured? && Words(Parse(block).text) == []
    ensures var m := Parse(block);
      AdjustBlock(block, maxWidth) == Render(m.number, m.startTime, m.endTime, "")
    ensures var r := AdjustBlock(block, maxWidth);
      r != [] && r[|r| - 1] == '\n'
  {
    RewrapEmpty(Parse(block).text, maxWidth);
  }

  // ---------------------------------------------------------------------
  // The document

  /** When no block changes, the result is the document with every run of
      two or more newlines reduced to one blank line. */
  lemma TransformWhenBlocksUnchanged(srtText: string, maxWidth: nat)
    requires forall k | 0 <= k < |Split(srtText)| :: AdjustBlock(Split(srtText)[k], maxWidth) == Split(srtText)[k]
    ensures Transform(srtText, maxWidth) == CollapseBlankRuns(srtText)
  {
    var bs := Split(srtText);
    assert AdjustAll(bs, maxWidth) == bs;
    JoinOfSplit(srtText);
  }

  /** A document without subtitle blocks and with single blank lines only
      comes back unchanged. */
  lemma TransformKeepsPlainDocument(srtText: string, maxWidth: nat)
    requires NoDoubleBlankLine(srtText)
    requires forall k | 0 <= k < |Split(srtText)| :: Parse(Split(srtText)[k]).Opaque?
    ensures Transform(srtText, maxWidth) == srtText
  {
    TransformWhenBlocksUnchanged(srtText, maxWidth);
    CollapseKeepsSingleBlankLines(srtText);
  }

  /** Every subtitle block of the document has a first word that fits. */
  predicate FirstWordsFit(blocks: seq<string>, maxWidth: nat) {
    forall k | 0 <= k < |blocks| :: Parse(blocks[k]).Structured? ==> FirstWordFits(Parse(blocks[k]).text, maxWidth)
  }

  /** When every first word fits, the adjusted blocks are well separated:
      reading the result splits it into exactly the adjusted blocks. */
  lemma SplitOfTransform(srtText: string, maxWidth: nat)
    requires FirstWordsFit(Split(srtText), maxWidth)
    ensures Split(Transform(srtText, maxWidth)) == AdjustAll(Split(srtText), maxWidth)
  {
    var bs := Split(srtText);
    SplitIsWellSeparated(srtText);
    AdjustKeepsWellSeparated(bs, maxWidth);
    SplitOfJoin(AdjustAll(bs, maxWidth));
  }

  /** Adjusting well-separated blocks whose first words fit keeps them well
      separated. */
  lemma AdjustKeepsWellSeparated(bs: seq<string>, maxWidth: nat)
    requires WellSeparated(bs) && FirstWordsFit(bs, maxWidth)
    ensures WellSeparated(AdjustAll(bs, maxWidth))
  {
    var adj := AdjustAll(bs, maxWidth);
    forall k | 0 <= k < |bs|
      ensures adj[k] == bs[k] || Detached(adj[k])
    {
      BlockStaysOrDetaches(bs[k], maxWidth);
    }
    ReplacingByDetached(bs, adj);
  }

  /** A block that cannot merge with its neighbours or split: no blank line,
      not empty, and no newline at either end. */
  predicate Detached(r: string) {
    NoBlankLine(r) && r != [] && r[0] != '\n' && r[|r| - 1] != '\n'
  }

  /** A block is either kept as it is or replaced by a detached block. */
  lemma BlockStaysOrDetaches(block: string, maxWidth: nat)
    requires Parse(block).Structured? ==> FirstWordFits(Parse(block).text, maxWidth)
    ensures AdjustBlock(block, maxWidth) == block || Detached(AdjustBlock(block, maxWidth))
  {
    AdjustBlockCases(block, maxWidth);
    if Parse(block).Structured? {
      AdjustedBlockShape(block, maxWidth);
    }
  }

  /** Replacing pieces of a well-separated list by detached blocks keeps it
      well separated. */
  lemma ReplacingByDetached(bs: seq<string>, adj: seq<string>)
    requires WellSeparated(bs) && |adj| == |bs|
    requires forall k | 0 <= k < |bs| :: adj[k] == bs[k] || Detached(adj[k])
    ensures WellSeparated(adj)
  {
  }

  /** Running the transform on its own result changes nothing, as long as
      every first word fits. */
  lemma TransformIsIdempotent(srtText: string, maxWidth: nat)
    requires FirstWordsFit(Split(srtText), maxWidth)
    ensures Transform(Transform(srtText, maxWidth), maxWidth) == Transform(srtText, maxWidth)
  {
    SplitOfTransform(srtText, maxWidth);
    AdjustAllIsIdempotent(Split(srtText), maxWidth);
  }

  /** Adjusting a list of adjusted blocks changes nothing. */
  lemma AdjustAllIsIdempotent(bs: seq<string>, maxWidth: nat)
    ensures AdjustAll(AdjustAll(bs, maxWidth), maxWidth) == AdjustAll(bs, maxWidth)
  {
    var adj := AdjustAll(bs, maxWidth);
    forall k | 0 <= k < |adj|
      ensures AdjustBlock(adj[k], maxWidth) == adj[k]
    {
      AdjustBlockIsIdempotent(bs[k], maxWidth);
    }
  }

  // ---------------------------------------------------------------------
  // Blank lines in rewritten blocks

  /** A timestamp holds no newline. */
  lemma TimestampHasNoNewline(s: string)
    requires IsTimestamp(s)
    ensures forall i | 0 <= i < |s| :: s[i] != '\n'
  {
    forall i | 0 <= i < |s|
      ensures s[i] != '\n'
    {
      assert Fits(s[i], TimestampShape[i]);
    }
  }

  lemma NoNewlineNoBlankLine(s: string)
    requires forall i | 0 <= i < |s| :: s[i] != '\n'
    ensures NoBlankLine(s)
  {
  }

  /** Lines that are non-empty and hold no newline, joined with newlines,
      hold no blank line. */
  lemma {:induction false} JoinLinesNoBlankLine(lines: seq<string>)
    requires forall k | 0 <= k < |lines| :: lines[k] != []
    requires forall k, i | 0 <= k < |lines| && 0 <= i < |lines[k]| :: lines[k][i] != '\n'
    ensures NoBlankLine(Join(lines, "\n"))
  {
    if lines != [] {
      NoNewlineNoBlankLine(lines[0]);
      if |lines| > 1 {
        var rest := lines[1..];
        JoinLinesNoBlankLine(rest);
        assert rest[0] == lines[1];
        JoinStartsWithFirst(rest, "\n");
        NoBlankLineAppend(lines[0], "\n");
        NoBlankLineAppend(lines[0] + "\n", Join(rest, "\n"));
      }
    }
  }

  /** A text whose first word fits rewraps without a blank line and without
      a leading newline. */
  lemma RewrapNoBlankLine(text: string, maxWidth: nat)
    requires FirstWordFits(text, maxWidth)
    ensures var t := Rewrap(text, maxWidth);
      NoBlankLine(t) && t != [] && t[0] != '\n'
  {
    RewrapLinesShape(text, maxWidth);
    JoinLinesNoBlankLine(RewrapLines(text, maxWidth));
    RewrapLeadingNewline(text, maxWidth);
  }

  /** A rendered block holds no blank line when its text holds none and
      does not start with a newline. */
  lemma RenderNoBlankLine(number: string, startTime: string, endTime: string, text: string)
    requires IsNumber(number) && IsTimestamp(startTime) && IsTimestamp(endTime)
    requires NoBlankLine(text) && text != [] && text[0] != '\n'
    ensures NoBlankLine(Render(number, startTime, endTime, text))
  {
    TimestampHasNoNewline(startTime);
    TimestampHasNoNewline(endTime);
    NoNewlineNoBlankLine(number);
    NoNewlineNoBlankLine(startTime);
    NoNewlineNoBlankLine(endTime);
    NoNewlineNoBlankLine(Arrow);
    var a := number + "\n";
    NoBlankLineAppend(number, "\n");
    var b := a + startTime;
    NoBlankLineAppend(a, startTime);
    var c := b + Arrow;
    NoBlankLineAppend(b, Arrow);
    var d := c + endTime;
    NoBlankLineAppend(c, endTime);
    var e := d + "\n";
    NoBlankLineAppend(d, "\n");
    NoBlankLineAppend(e, text);
  }

  /** A text with a blank line at position i splits into more than one
      piece. */
  lemma {:induction false} SplitsAtFirstBlankLine(s: string, i: nat)
    requires i + 1 < |s| && s[i] == '\n' && s[i + 1] == '\n'
    ensures |Split(s)| > 1
    decreases i
  {
    if !StartsBlankRun(s) {
      assert s != [];
      SplitsAtFirstBlankLine(s[1..], i - 1);
    }
  }
}
