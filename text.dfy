/** The string vocabulary of the subtitle transform: the whitespace and digit
    classes, `str.split()`, `str.strip()`, `str.join()` and the whitespace
    collapsing `re.sub(r'\s+', ' ', ...)`, each defined once with the facts
    the rest of the model relies on. */
module Text {

  /** Whitespace in the ASCII range, where `\s`, `str.strip()` and
      `str.split()` all take the same ten characters: tab, newline, vertical
      tab, form feed, carriage return, the four separators 0x1C-0x1F and the
      space. */
  predicate IsSpace(c: char) {
    || c == ' ' || c == '\t' || c == '\n' || c == '\r' || c == '\U{B}' || c == '\U{C}'
    || c == '\U{1C}' || c == '\U{1D}' || c == '\U{1E}' || c == '\U{1F}'
  }

  /** ASCII decimal digit (`\d` restricted to ASCII). */
  predicate IsDigit(c: char) {
    '0' <= c <= '9'
  }

  /** A word as `str.split()` yields it: non-empty and free of whitespace. */
  predicate IsWord(w: string) {
    |w| > 0 && forall i | 0 <= i < |w| :: !IsSpace(w[i])
  }

  predicate AllWords(ws: seq<string>) {
    forall i | 0 <= i < |ws| :: IsWord(ws[i])
  }

  /** `sep.join(parts)` */
  function Join(parts: seq<string>, sep: string): string {
    if parts == [] then ""
    else if |parts| == 1 then parts[0]
    else parts[0] + sep + Join(parts[1..], sep)
  }

  /** The concatenation of a sequence of word sequences. */
  function Concat(gs: seq<seq<string>>): seq<string> {
    if gs == [] then [] else gs[0] + Concat(gs[1..])
  }

  /** Length of the leading run of non-whitespace characters of `s`. */
  function WordLen(s: string): (n: nat)
    ensures n <= |s|
    ensures forall i | 0 <= i < n :: !IsSpace(s[i])
    ensures n < |s| ==> IsSpace(s[n])
  {
    if s == [] || IsSpace(s[0]) then 0 else 1 + WordLen(s[1..])
  }

  /** `s.split()`: the maximal runs of non-whitespace characters, in order. */
  function Words(s: string): (ws: seq<string>)
    ensures AllWords(ws)
    decreases |s|
  {
    if s == [] then []
    else if IsSpace(s[0]) then Words(s[1..])
    else
      var n := WordLen(s);
      [s[..n]] + Words(s[n..])
  }

  /** `s.lstrip()`: drops the leading whitespace. */
  function StripLeft(s: string): (r: string)
    ensures |r| <= |s| && r == s[|s| - |r|..]
    ensures forall i | 0 <= i < |s| - |r| :: IsSpace(s[i])
    ensures r == [] || !IsSpace(r[0])
  {
    if s != [] && IsSpace(s[0]) then StripLeft(s[1..]) else s
  }

  /** `s.rstrip()`: drops the trailing whitespace. */
  function StripRight(s: string): (r: string)
    ensures |r| <= |s| && r == s[..|r|]
    ensures forall i | |r| <= i < |s| :: IsSpace(s[i])
    ensures r == [] || !IsSpace(r[|r| - 1])
  {
    if s != [] && IsSpace(s[|s| - 1]) then StripRight(s[..|s| - 1]) else s
  }

  /** `s.strip()`: the middle of `s`, with whitespace at neither end. */
  function Strip(s: string): (r: string)
    ensures |r| <= |s|
    ensures r == [] || (!IsSpace(r[0]) && !IsSpace(r[|r| - 1]))
  {
    var t := StripLeft(s);
    assert t != [] && StripRight(t) != [] ==> StripRight(t)[0] == t[0];
    StripRight(t)
  }

  /** r is the part of s that starts at i, with only whitespace before it
      and after it. */
  predicate StrippedAt(s: string, r: string, i: nat) {
    && i + |r| <= |s|
    && r == s[i..i + |r|]
    && (forall k | 0 <= k < i :: IsSpace(s[k]))
    && (forall k | i + |r| <= k < |s| :: IsSpace(s[k]))
  }

  /** Stripping removes whitespace at the two ends only: what it keeps is a
      slice of the text, exactly as it was. */
  lemma StripKeepsMiddle(s: string)
    ensures exists i :: StrippedAt(s, Strip(s), i)
  {
    var t := StripLeft(s);
    var r := StripRight(t);
    assert Strip(s) == r;
    MiddleOfStripped(s, t, r, |s| - |t|);
  }

  /** Dropping leading whitespace and then trailing whitespace leaves a
      slice with whitespace on both sides. */
  lemma MiddleOfStripped(s: string, t: string, r: string, i: nat)
    requires i + |t| == |s| && t == s[i..] && |r| <= |t| && r == t[..|r|]
    requires forall k | 0 <= k < i :: IsSpace(s[k])
    requires forall k | |r| <= k < |t| :: IsSpace(t[k])
    ensures StrippedAt(s, r, i)
  {
    assert forall k | i + |r| <= k < |s| :: s[k] == t[k - i];
  }

  /** Stripping leaves nothing exactly when the text is whitespace only. */
  lemma StripEmptyIffBlank(s: string)
    ensures Strip(s) == [] <==> forall i | 0 <= i < |s| :: IsSpace(s[i])
  {
    var t := StripLeft(s);
    assert forall i | |s| - |t| <= i < |s| :: s[i] == t[i - (|s| - |t|)];
  }

  /** `re.sub(r'\s+', ' ', s)`: every maximal whitespace run becomes one space. */
  function CollapseSpaces(s: string): string
    decreases |s|
  {
    if s == [] then ""
    else if IsSpace(s[0]) then " " + CollapseSpaces(StripLeft(s))
    else [s[0]] + CollapseSpaces(s[1..])
  }

  // ---------------------------------------------------------------------
  // Facts about joining

  /** Appending a part appends the separator and the part. */
  lemma {:induction false} JoinSnoc(parts: seq<string>, x: string, sep: string)
    requires parts != []
    ensures Join(parts + [x], sep) == Join(parts, sep) + sep + x
  {
    if |parts| > 1 {
      assert (parts + [x])[1..] == parts[1..] + [x];
      JoinSnoc(parts[1..], x, sep);
    }
  }

  /** A join whose first part is not empty starts with that part. */
  lemma JoinStartsWithFirst(parts: seq<string>, sep: string)
    requires parts != [] && parts[0] != []
    ensures Join(parts, sep) != [] && Join(parts, sep)[0] == parts[0][0]
  {
  }

  /** A join whose last part is not empty ends with that part. */
  lemma {:induction false} JoinEndsWithLast(parts: seq<string>, sep: string)
    requires parts != [] && parts[|parts| - 1] != []
    ensures var s, last := Join(parts, sep), parts[|parts| - 1];
      s != [] && s[|s| - 1] == last[|last| - 1]
  {
    if |parts| > 1 {
      JoinEndsWithLast(parts[1..], sep);
    }
  }

  /** Words joined by single spaces hold no whitespace but those spaces,
      and start and end with a word character. */
  lemma {:induction false} SpaceJoinChars(ws: seq<string>)
    requires AllWords(ws)
    ensures var s := Join(ws, " ");
      && (forall i | 0 <= i < |s| :: s[i] == ' ' || !IsSpace(s[i]))
      && (ws != [] ==> s != [] && !IsSpace(s[0]) && !IsSpace(s[|s| - 1]))
  {
    if |ws| > 1 {
      SpaceJoinChars(ws[1..]);
      var t := Join(ws[1..], " ");
      var s := ws[0] + " " + t;
      forall i | 0 <= i < |s|
        ensures s[i] == ' ' || !IsSpace(s[i])
      {
        if i > |ws[0]| {
          assert s[i] == t[i - |ws[0]| - 1];
        }
      }
      assert s[|s| - 1] == t[|t| - 1];
    }
  }

  // ---------------------------------------------------------------------
  // Facts about words

  lemma WordLenIs(s: string, n: nat)
    requires n <= |s|
    requires forall i | 0 <= i < n :: !IsSpace(s[i])
    requires n < |s| ==> IsSpace(s[n])
    ensures WordLen(s) == n
  {
  }

  /** A whitespace character separates the words on its two sides. */
  lemma {:induction false} WordsAroundSpace(x: string, c: char, y: string)
    requires IsSpace(c)
    ensures Words(x + [c] + y) == Words(x) + Words(y)
    decreases |x|
  {
    var s := x + [c] + y;
    if x == [] {
      assert s == [c] + y;
      assert s[1..] == y;
    } else if IsSpace(x[0]) {
      assert s[1..] == x[1..] + [c] + y;
      WordsAroundSpace(x[1..], c, y);
    } else {
      var n := WordLen(x);
      WordLenIs(s, n);
      assert s[..n] == x[..n];
      assert s[n..] == x[n..] + [c] + y;
      assert Words(s) == [x[..n]] + Words(s[n..]);
      assert Words(x) == [x[..n]] + Words(x[n..]);
      WordsAroundSpace(x[n..], c, y);
    }
  }

  /** A word is its own only word. */
  lemma WordsOfWord(w: string)
    requires IsWord(w)
    ensures Words(w) == [w]
  {
    WordLenIs(w, |w|);
    assert w[..|w|] == w;
    assert w[|w|..] == [];
  }

  /** Joining words with a space and splitting again gives the words back. */
  lemma {:induction false} WordsOfSpaceJoin(ws: seq<string>)
    requires AllWords(ws)
    ensures Words(Join(ws, " ")) == ws
  {
    if ws == [] {
    } else if |ws| == 1 {
      WordsOfWord(ws[0]);
    } else {
      WordsOfWord(ws[0]);
      WordsOfSpaceJoin(ws[1..]);
      WordsAroundSpace(ws[0], ' ', Join(ws[1..], " "));
    }
  }

  /** Splitting a text joined on a whitespace character gives the words of
      its parts, in order. */
  lemma {:induction false} WordsOfJoin(parts: seq<string>, c: char)
    requires IsSpace(c)
    ensures Words(Join(parts, [c])) == Concat(seq(|parts|, k requires 0 <= k < |parts| => Words(parts[k])))
  {
    var each := seq(|parts|, k requires 0 <= k < |parts| => Words(parts[k]));
    if parts == [] {
    } else if |parts| == 1 {
      assert Concat(each) == Words(parts[0]) + Concat([]);
    } else {
      var rest := seq(|parts| - 1, k requires 0 <= k < |parts| - 1 => Words(parts[1..][k]));
      WordsOfJoin(parts[1..], c);
      WordsAroundSpace(parts[0], c, Join(parts[1..], [c]));
      assert each == [Words(parts[0])] + rest;
    }
  }

  lemma {:induction false} WordsOfStripLeft(s: string)
    ensures Words(StripLeft(s)) == Words(s)
  {
    if s != [] && IsSpace(s[0]) {
      WordsOfStripLeft(s[1..]);
    }
  }

  lemma {:induction false} WordsOfStripRight(s: string)
    ensures Words(StripRight(s)) == Words(s)
    decreases |s|
  {
    if s != [] && IsSpace(s[|s| - 1]) {
      var init := s[..|s| - 1];
      assert s == init + [s[|s| - 1]] + [];
      WordsAroundSpace(init, s[|s| - 1], []);
      WordsOfStripRight(init);
    }
  }

  /** `strip` never adds or removes a word. */
  lemma WordsOfStrip(s: string)
    ensures Words(Strip(s)) == Words(s)
  {
    WordsOfStripLeft(s);
    WordsOfStripRight(StripLeft(s));
  }

  /** A text that starts with a non-space character has at least one word,
      and its first word starts the text. */
  lemma FirstWord(s: string)
    requires s != [] && !IsSpace(s[0])
    ensures Words(s) != [] && Words(s)[0] == s[..WordLen(s)]
  {
  }

  // ---------------------------------------------------------------------
  // Facts about collapsing whitespace

  lemma {:induction false} CollapseKeepsWordThenRest(w: string, r: string)
    requires forall i | 0 <= i < |w| :: !IsSpace(w[i])
    ensures CollapseSpaces(w + r) == w + CollapseSpaces(r)
    decreases |w|
  {
    if w != [] {
      assert (w + r)[1..] == w[1..] + r;
      CollapseKeepsWordThenRest(w[1..], r);
    } else {
      assert w + r == r;
    }
  }

  lemma {:induction false} CollapseOfWord(t: string)
    requires IsWord(t)
    ensures CollapseSpaces(t) == Join(Words(t), " ")
  {
    WordsOfWord(t);
    assert t == t + [];
    CollapseKeepsWordThenRest(t, []);
  }

  /** On a text without leading or trailing whitespace, collapsing the
      whitespace runs is joining its words with single spaces. */
  lemma {:induction false} CollapseIsSpaceJoin(t: string)
    requires t == [] || (!IsSpace(t[0]) && !IsSpace(t[|t| - 1]))
    ensures CollapseSpaces(t) == Join(Words(t), " ")
    decreases |t|
  {
    if t != [] {
      var n := WordLen(t);
      if n == |t| {
        CollapseOfWord(t);
      } else {
        var u := StripLeft(t[n..]);
        RestNotBlank(t, n);
        CollapseIsSpaceJoin(u);
        CollapseAfterFirstWord(t, n, u);
      }
    }
  }

  /** The step of the proof above: the first word, one space, then the rest
      collapsed. */
  lemma {:induction false} CollapseAfterFirstWord(t: string, n: nat, u: string)
    requires 0 < n < |t| && n == WordLen(t) && !IsSpace(t[|t| - 1])
    requires u == StripLeft(t[n..])
    requires CollapseSpaces(u) == Join(Words(u), " ")
    ensures CollapseSpaces(t) == Join(Words(t), " ")
  {
    CollapseThroughRest(t, n, u);
    SpaceJoinThroughRest(t, n, u);
  }

  /** Collapsing `t` keeps its first word, one space, and the collapsed rest. */
  lemma {:induction false} CollapseThroughRest(t: string, n: nat, u: string)
    requires 0 < n < |t| && n == WordLen(t)
    requires u == StripLeft(t[n..])
    requires CollapseSpaces(u) == Join(Words(u), " ")
    ensures CollapseSpaces(t) == t[..n] + (" " + Join(Words(u), " "))
  {
    CollapseFirstWord(t, n);
  }

  /** Joining the words of `t` gives its first word, one space, and the
      words of the rest joined. */
  lemma {:induction false} SpaceJoinThroughRest(t: string, n: nat, u: string)
    requires 0 < n < |t| && n == WordLen(t) && !IsSpace(t[|t| - 1])
    requires u == StripLeft(t[n..])
    ensures Join(Words(t), " ") == t[..n] + (" " + Join(Words(u), " "))
  {
    RestHasWord(t, n, u);
    WordsFirstWord(t, n);
    JoinCons(t[..n], Words(u), " ");
  }

  /** A text that ends with a word character still has a word after its
      first one ends. */
  lemma RestHasWord(t: string, n: nat, u: string)
    requires n < |t| && !IsSpace(t[|t| - 1])
    requires u == StripLeft(t[n..])
    ensures Words(u) != []
  {
    RestNotBlank(t, n);
    FirstWord(u);
  }

  /** From any position on, a text that ends with a word character is not
      all whitespace: stripping leading whitespace leaves something, which
      ends with that same character. */
  lemma {:induction false} RestNotBlank(t: string, n: nat)
    requires n < |t| && !IsSpace(t[|t| - 1])
    ensures var u := StripLeft(t[n..]); u != [] && u[|u| - 1] == t[|t| - 1]
    decreases |t| - n
  {
    if IsSpace(t[n]) {
      assert t[n..][1..] == t[n + 1..];
      RestNotBlank(t, n + 1);
    }
  }

  lemma {:induction false} CollapseFirstWord(t: string, n: nat)
    requires 0 < n < |t| && n == WordLen(t)
    ensures CollapseSpaces(t) == t[..n] + (" " + CollapseSpaces(StripLeft(t[n..])))
  {
    CollapseWordThenRest(t, n);
    CollapseSpaceRun(t[n..]);
  }

  lemma {:induction false} CollapseWordThenRest(t: string, n: nat)
    requires 0 < n < |t| && n == WordLen(t)
    ensures CollapseSpaces(t) == t[..n] + CollapseSpaces(t[n..])
  {
    assert t == t[..n] + t[n..];
    CollapseKeepsWordThenRest(t[..n], t[n..]);
  }

  lemma {:induction false} CollapseSpaceRun(rest: string)
    requires rest != [] && IsSpace(rest[0])
    ensures CollapseSpaces(rest) == " " + CollapseSpaces(StripLeft(rest))
  {
  }

  lemma {:induction false} WordsFirstWord(t: string, n: nat)
    requires 0 < n < |t| && n == WordLen(t)
    ensures Words(t) == [t[..n]] + Words(StripLeft(t[n..]))
  {
    WordsOfStripLeft(t[n..]);
  }

  lemma {:induction false} JoinCons(x: string, parts: seq<string>, sep: string)
    requires parts != []
    ensures Join([x] + parts, sep) == x + (sep + Join(parts, sep))
  {
    assert ([x] + parts)[1..] == parts;
  }

  /** Stripping then collapsing yields the words joined by single spaces. */
  lemma {:induction false} StripCollapseIsSpaceJoin(s: string)
    ensures CollapseSpaces(Strip(s)) == Join(Words(s), " ")
  {
    CollapseIsSpaceJoin(Strip(s));
    WordsOfStrip(s);
  }
}
