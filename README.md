# Subtitle line-width adjuster, modelled in Dafny

`subs.py` rewrites SubRip (`.srt`) subtitle files so that no subtitle line is
longer than a given width (60 characters when called from the folder walker).
The heart of it is the text transform inside `adjust_line_width`:

1. split the document into blocks at every run of two or more newlines;
2. in each block, search for `number`, newline, `start --> end`, newline,
   text; when found, collapse the text's whitespace, refill it greedily into
   lines of at most the width, and write the block back as
   `number\nstart --> end\ntext`, dropping whatever preceded the match;
   blocks where the pattern is not found stay as they are;
3. join the blocks with one blank line.

This project models that transform and proves what it does.

- `text.dfy` (`Text`): ASCII whitespace and digits, `str.split()`,
  `str.strip()`, `str.join()` and the whitespace collapse `re.sub(r'\s+', ' ', …)`.
- `splitter.dfy` (`Splitter`): `re.split(r'\n{2,}', …)` and its partner, the
  join with `"\n\n"`.
- `parser.dfy` (`Parser`): the `re.search` of the subtitle pattern, as a
  leftmost-position scanner, and the renderer of a block.
- `rewrap.dfy` (`LineWrap`): the text normalisation and the greedy line loop,
  as a method proved against a specification function, together with an
  independent definition of a greedy wrap.
- `assembler.dfy` (`Assembler`): the loop over the blocks, which works in
  place on an array, and the whole transform.

Behaviour kept exactly as the code has it:

- A first word longer than the width is put after an empty first line. The
  loop starts from an empty line, and that line is closed before the long
  word. The rewritten text then starts with a newline, so the block holds a
  blank line and would split in two if the file were read again
  (`LongFirstWordLeavesBlankLine`).
- Text that is only whitespace still matches `(.+)`. It is rewritten to the
  empty text, so the block ends with the newline after the timing line
  (`BlankTextEndsWithNewline`).
- A timing line with nothing after it does not match. Such a block is left
  as it is (`TimingWithoutTextPassesThrough`).
- Runs of three or more newlines between blocks become one blank line
  (`TransformWhenBlocksUnchanged`).
- A trailing newline at the end of the file is lost to `strip` when the
  last block is a subtitle (`RewrapEndsWithWord`).
- Timestamps are checked for their shape only, never as times.
- The number group is the whole run of digits before the timing line. The
  pattern's `\d+` is greedy and the search takes the leftmost match, so the
  match never starts right after a digit (`PatternAtIsShapeAt`,
  `MatchStartsAfterNonDigit`).

Two claims about the whole transform need the hypothesis that every
subtitle's first word fits the width: splitting the result again gives back
the adjusted blocks (`SplitOfTransform`), and running the transform twice
changes nothing (`TransformIsIdempotent`). Without that hypothesis the blank
line left by a long first word, or the trailing newline of an emptied text,
makes the second run split or merge blocks. The other claims about the whole
document describe particular inputs: those where no block changes
(`TransformWhenBlocksUnchanged`) and those with no subtitle at all
(`TransformKeepsPlainDocument`).

## Model

| member | source | states |
|---|---|---|
| `Text.Words` | subs.py:39 | `text.split()` yields only words: non-empty runs without whitespace |
| `Text.Strip` | subs.py:34 | `strip()` gives a text no longer than its input, with whitespace at neither end; that it is the input's own middle is stated by `Text.StripKeepsMiddle` |
| `Text.StripKeepsMiddle` | subs.py:34 | `strip()` removes whitespace at the two ends only: the result is a slice of the text, kept exactly as it was, with only whitespace before and after it |
| `Text.StripEmptyIffBlank` | subs.py:34 | `strip()` gives the empty text exactly when the text is whitespace only |
| `Text.CollapseSpaces` | subs.py:34 | scanner for `re.sub(r'\s+', ' ', …)`, each maximal whitespace run becoming one space; its property is stated by `Text.StripCollapseIsSpaceJoin` |
| `Text.Join` | subs.py:49-58 | `sep.join(parts)`, for the newline join of the lines and the blank-line join of the blocks; its properties are stated by `Splitter.JoinOfSplit`, `Splitter.SplitOfJoin` and `Text.WordsOfSpaceJoin` |
| `Text.WordsOfStrip` | subs.py:34 | `strip` neither adds nor removes a word |
| `Text.StripCollapseIsSpaceJoin` | subs.py:34 | stripping, then replacing each whitespace run by one space, gives the words joined by single spaces |
| `Text.WordsOfSpaceJoin` | subs.py:34 | splitting words joined by spaces gives the same words back |
| `Splitter.Split` | subs.py:21 | there is always at least one piece; a non-empty first piece starts with the document's first character, and the document then does not open with a blank-line run; an empty first piece followed by others means that it does |
| `Splitter.SplitIsWellSeparated` | subs.py:21 | no piece holds a blank line; only the first and last may be empty; only the first may start, and only the last may end, with a newline |
| `Splitter.JoinOfSplit` | subs.py:58 | joining the pieces with `"\n\n"` gives the document with each run of two or more newlines reduced to one blank line |
| `Splitter.SplitOfJoin` | subs.py:21 | splitting undoes the join of well-separated pieces |
| `Splitter.CollapseKeepsSingleBlankLines` | subs.py:21 | a document whose blank lines are all single is unchanged by that reduction |
| `Parser.Parse` | subs.py:26 | no match exactly when the pattern starts nowhere; otherwise the match is the leftmost one, the block is a prefix followed by the rendered groups, the number is digits, both timestamps have the `##:##:##,###` shape and the text is not empty |
| `Parser.PatternAtIsShapeAt` | subs.py:26 | the pattern matches at a position with some digit group exactly when the scanner finds the shape there, and the digit group is then the whole digit run |
| `Parser.MatchStartsAfterNonDigit` | subs.py:26 | the match never starts right after a digit |
| `Parser.ParseAfterPrefix` | subs.py:26-31 | a rendered block parses back into its own four groups, also after a prefix where the pattern does not start; the match starts where the prefix ends |
| `Parser.RenderWithoutTextIsOpaque` | subs.py:26 | a timing line with nothing after it does not match, since `(.+)` needs a character |
| `Parser.Render` | subs.py:52 | the rendered block is the number, the timing line and the text, 31 characters longer than number and text together |
| `Parser.RenderInjective` | subs.py:52 | with the length of the number known, the rendered block determines all four groups |
| `LineWrap.Normalize` | subs.py:34 | the normalised text is the words of the text joined by single spaces |
| `LineWrap.WrapWords` | subs.py:37-46 | the loop's lines are the groups of the greedy wrap of the words, each written with single spaces |
| `LineWrap.AdjustText` | subs.py:34-49 | the adjusted text is the rewrapped text |
| `LineWrap.Rewrap` | subs.py:34-49 | the adjusted text as a function of the text and the width; its properties are stated by `LineWrap.RewrapKeepsWords`, `LineWrap.RewrapIsIdempotent`, `LineWrap.RewrapWithinWidth`, `LineWrap.RewrapIsGreedy` and the rows below them |
| `LineWrap.WrapIsGreedy` | subs.py:39-46 | the loop's grouping keeps every word in order, fills each line of two or more words within the width, never leaves room on a line for the next line's first word, and has an empty first line exactly when the first word is longer than the width |
| `LineWrap.WrapIsUnique` | subs.py:39-46 | any grouping with those properties is the loop's grouping |
| `LineWrap.RewrapKeepsWords` | subs.py:34-49 | rewrapping neither adds, drops nor reorders a word |
| `LineWrap.RewrapIsIdempotent` | subs.py:34-49 | rewrapping a rewrapped text changes nothing |
| `LineWrap.RewrapEmpty` | subs.py:45-49 | the result is empty exactly when the text has no words |
| `LineWrap.RewrapWithinWidth` | subs.py:40-44 | every line is at most the width long, unless it is one word that is longer on its own |
| `LineWrap.RewrapIsGreedy` | subs.py:40-44 | no non-empty line could also have held the first word of the next line |
| `LineWrap.RewrapLinesShape` | subs.py:37-46 | no line holds a newline; only the first line may be empty, and it is empty exactly when the first word is longer than the width; there are no lines exactly when there are no words |
| `LineWrap.RewrapLeadingNewline` | subs.py:38-43 | for a text with words, the result starts with a newline exactly when the first word is longer than the width |
| `LineWrap.RewrapEndsWithWord` | subs.py:45-49 | for a text with words, the result ends with a word character |
| `Assembler.AdjustBlock` | subs.py:26-55 | one turn of the block loop; its properties are stated by `Assembler.AdjustBlockPassesThrough`, `Assembler.AdjustBlockRewrites` and `Assembler.AdjustBlockIsIdempotent` |
| `Assembler.Transform` | subs.py:21-58 | the whole text transform as a function; its properties are stated by `Assembler.SplitOfTransform`, `Assembler.TransformIsIdempotent` and the rows beside them |
| `Assembler.AdjustBlocks` | subs.py:24-55 | after the loop, each slot holds its block adjusted: rewritten when the pattern is found, unchanged otherwise |
| `Assembler.AdjustLineWidth` | subs.py:21-58 | the adjusted document is the split, block-by-block adjusted and re-joined document |
| `Assembler.AdjustBlockPassesThrough` | subs.py:26-27 | a block where the pattern starts nowhere is left exactly as it was |
| `Assembler.TimingWithoutTextPassesThrough` | subs.py:26-27 | a number and timing line with nothing after them is left as it was |
| `Assembler.AdjustBlockRewrites` | subs.py:26-55 | a subtitle block, possibly after a prefix where the pattern does not start, becomes the same number and timestamps with its text rewrapped, and the prefix is dropped |
| `Assembler.AdjustBlockIsIdempotent` | subs.py:26-55 | adjusting an adjusted block changes nothing |
| `Assembler.AdjustedBlockShape` | subs.py:52 | a rewritten block whose first word fits holds no blank line, starts with a digit and ends with a word character |
| `Assembler.LongFirstWordLeavesBlankLine` | subs.py:38-52 | a first word longer than the width leaves a blank line in the rewritten block, which then splits into several pieces |
| `Assembler.BlankTextEndsWithNewline` | subs.py:34-52 | a subtitle whose text is only whitespace is rewritten with an empty text and ends with a newline |
| `Assembler.TransformWhenBlocksUnchanged` | subs.py:21-58 | when no block changes, the result is the document with each newline run reduced to one blank line |
| `Assembler.TransformKeepsPlainDocument` | subs.py:21-58 | a document with no subtitle blocks and only single blank lines comes back unchanged |
| `Assembler.SplitOfTransform` | subs.py:21-58 | when every first word fits, splitting the result gives exactly the adjusted blocks |
| `Assembler.TransformIsIdempotent` | subs.py:21-58 | when every first word fits, transforming the result again changes nothing |

## Left out

- Reading and writing the file, and the messages printed on success or failure (subs.py:9-17, 61-64), are left out. The model takes the decoded file text and returns the text that would be written. Python's universal-newline decoding happens before the model's input.
- `zip_original_files` (subs.py:67-78) is left out. It is archive and file-system I/O only. It always walks the folder recursively, whatever the mode.
- `backup_srt_files` (subs.py:81-97) is left out. It is directory traversal that calls the transform with width 60. In recursive mode it passes every file `os.walk` yields, not only `.srt` files (subs.py:86). The non-recursive mode filters by the `.srt` suffix (subs.py:88).
- `main` (subs.py:100-123) is left out. It is argument parsing only.
- General regular expressions are not modelled. The model covers only the three expressions the transform uses, written out as scanners.
- `\s`, `\d`, `str.split()` and `str.strip()` are taken over ASCII only. In that range all three agree on the whitespace: space, tab, newline, carriage return, vertical tab, form feed and the separators `\x1c`-`\x1f`. Digits are `0`-`9`. Python also accepts whitespace and digits beyond ASCII, such as `\x85`, `\xa0` or Arabic-Indic digits; the model treats those as ordinary characters.
- The width is a natural number. The source only ever passes 60, so negative widths are not modelled.
- `LineWrap.WrapWords`: the greedy loop is a method of its own that `AdjustText` calls. In the source the loop sits inline in the same function; the computation is the same.
