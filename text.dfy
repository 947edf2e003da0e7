/**
 * String helpers shared by the composers and the scorer.
 *
 * Python's str methods and the `re` module are Unicode-aware; this model restricts the
 * character classes to ASCII (see README). Whitespace is what `str.isspace` and the
 * regex class `\s` accept among the ASCII characters; line boundaries are what
 * `str.splitlines` accepts among them.
 */
module Text {

  // ---------------------------------------------------------------------------
  // Character classes
  // ---------------------------------------------------------------------------

  predicate IsUpper(c: char) { 'A' <= c <= 'Z' }
  predicate IsLower(c: char) { 'a' <= c <= 'z' }
  predicate IsLetter(c: char) { IsUpper(c) || IsLower(c) }
  predicate IsDigit(c: char) { '0' <= c <= '9' }
  predicate IsAlnum(c: char) { IsLetter(c) || IsDigit(c) }

  /** `\t \n \v \f \r`, the separators `\x1c`..`\x1f`, and the space. */
  predicate IsSpace(c: char) { c == ' ' || '\t' <= c <= '\r' || '\U{1C}' <= c <= '\U{1F}' }

  /** `\n \v \f \r` and `\x1c`..`\x1e` (`\x1f` is whitespace but not a line boundary). */
  predicate IsLineBreak(c: char) { '\n' <= c <= '\r' || '\U{1C}' <= c <= '\U{1E}' }

  predicate NoSpace(s: string) { forall i :: 0 <= i < |s| ==> !IsSpace(s[i]) }
  predicate NoLineBreak(s: string) { forall i :: 0 <= i < |s| ==> !IsLineBreak(s[i]) }
  predicate NoUpper(s: string) { forall i :: 0 <= i < |s| ==> !IsUpper(s[i]) }

  // ---------------------------------------------------------------------------
  // Case mapping
  // ---------------------------------------------------------------------------

  function LowerChar(c: char): (r: char)
    ensures !IsUpper(r)
    ensures IsUpper(c) ==> IsLower(r)
    ensures !IsUpper(c) ==> r == c
  {
    if IsUpper(c) then (c as int + 32) as char else c
  }

  /** `str.lower` on ASCII. */
  function Lower(s: string): (r: string)
    ensures |r| == |s|
    ensures forall i :: 0 <= i < |s| ==> r[i] == LowerChar(s[i])
  {
    seq(|s|, i requires 0 <= i < |s| => LowerChar(s[i]))
  }

  lemma LowerNoUpper(s: string)
    ensures NoUpper(Lower(s))
    ensures NoUpper(s) ==> Lower(s) == s
  {
  }

  // ---------------------------------------------------------------------------
  // Stripping
  // ---------------------------------------------------------------------------

  /** Length of the leading whitespace run. */
  function SpaceRun(s: string): (n: nat)
    ensures n <= |s|
    ensures forall i :: 0 <= i < n ==> IsSpace(s[i])
    ensures n < |s| ==> !IsSpace(s[n])
    decreases |s|
  {
    if s != [] && IsSpace(s[0]) then 1 + SpaceRun(s[1..]) else 0
  }

  /** Length of the trailing whitespace run. */
  function TrailingSpaceRun(s: string): (n: nat)
    ensures n <= |s|
    ensures forall i :: |s| - n <= i < |s| ==> IsSpace(s[i])
    ensures n < |s| ==> !IsSpace(s[|s| - 1 - n])
    decreases |s|
  {
    if s != [] && IsSpace(s[|s| - 1]) then 1 + TrailingSpaceRun(s[..|s| - 1]) else 0
  }

  /** `str.lstrip()` with no argument. */
  function LStrip(s: string): string {
    s[SpaceRun(s)..]
  }

  /** `str.rstrip()` with no argument. */
  function RStrip(s: string): string {
    s[..|s| - TrailingSpaceRun(s)]
  }

  /** `str.strip()` with no argument. */
  function Strip(s: string): string {
    RStrip(LStrip(s))
  }

  /** Length of the trailing run of `c`. */
  function TrailingRun(s: string, c: char): (n: nat)
    ensures n <= |s|
    ensures n < |s| ==> s[|s| - 1 - n] != c
    decreases |s|
  {
    if s != [] && s[|s| - 1] == c then 1 + TrailingRun(s[..|s| - 1], c) else 0
  }

  /** `str.rstrip(c)`: removes every trailing occurrence of `c`. */
  function RStripChar(s: string, c: char): string {
    s[..|s| - TrailingRun(s, c)]
  }

  /** A trimmed string has no whitespace at either end. */
  predicate Trimmed(s: string) {
    s == [] || (!IsSpace(s[0]) && !IsSpace(s[|s| - 1]))
  }

  /** The stripped text has no whitespace at either end. */
  lemma StripTrimmed(s: string)
    ensures Trimmed(Strip(s))
  {
    StripProperties(s);
  }

  lemma StripProperties(s: string)
    ensures Trimmed(Strip(s))
    ensures exists i, j :: 0 <= i <= j <= |s| && Strip(s) == s[i..j]
    ensures Trimmed(s) ==> Strip(s) == s
    ensures Strip(s) == [] <==> NoNonSpace(s)
  {
    var i := SpaceRun(s);
    var l := s[i..];
    var k := TrailingSpaceRun(l);
    assert Strip(s) == s[i..|s| - k];
    if Strip(s) == [] {
      assert i == |s| || k == |l|;
    }
  }

  /** Stripping keeps a text on one line. */
  lemma StripNoLineBreak(s: string)
    requires NoLineBreak(s)
    ensures NoLineBreak(Strip(s))
  {
    var l := LStrip(s);
    assert NoLineBreak(l) by {
      forall k | 0 <= k < |l| ensures !IsLineBreak(l[k]) {
        assert l[k] == s[SpaceRun(s) + k];
      }
    }
    var r := Strip(s);
    forall k | 0 <= k < |r| ensures !IsLineBreak(r[k]) {
      assert r[k] == l[k];
    }
  }

  /** Stripping adds no character. */
  lemma StripNoChar(s: string, d: char)
    requires d !in s
    ensures d !in Strip(s)
  {
    StripProperties(s);
    var i, j :| 0 <= i <= j <= |s| && Strip(s) == s[i..j];
    assert d !in s[i..j];
  }

  /** Every character is whitespace (vacuously so for the empty string). */
  predicate NoNonSpace(s: string) { forall i :: 0 <= i < |s| ==> IsSpace(s[i]) }

  // ---------------------------------------------------------------------------
  // Whitespace runs: `re.sub(r"\s+", rep, s)`
  // ---------------------------------------------------------------------------

  /** Replaces every maximal run of whitespace by `rep`. */
  function SubSpaceRuns(s: string, rep: string): string
    decreases |s|
  {
    if s == [] then []
    else if IsSpace(s[0]) then rep + SubSpaceRuns(s[SpaceRun(s)..], rep)
    else [s[0]] + SubSpaceRuns(s[1..], rep)
  }

  /** `_cleanup_spaces`: every whitespace run becomes one space, then the ends are trimmed. */
  function Cleanup(s: string): string {
    Strip(SubSpaceRuns(s, " "))
  }

  // ---------------------------------------------------------------------------
  // Words: the non-whitespace runs of a string
  // ---------------------------------------------------------------------------

  /** Length of the leading non-whitespace run. */
  function WordLen(s: string): (n: nat)
    ensures n <= |s|
    ensures forall i :: 0 <= i < n ==> !IsSpace(s[i])
    ensures n < |s| ==> IsSpace(s[n])
    decreases |s|
  {
    if s == [] || IsSpace(s[0]) then 0 else 1 + WordLen(s[1..])
  }

  function Words(s: string): (ws: seq<string>)
    ensures GoodWords(ws)
    decreases |s|
  {
    if s == [] then []
    else if IsSpace(s[0]) then Words(s[1..])
    else
      var n := WordLen(s);
      [s[..n]] + Words(s[n..])
  }

  /** Non-empty words without whitespace. */
  predicate GoodWords(ws: seq<string>) {
    forall k :: 0 <= k < |ws| ==> ws[k] != [] && NoSpace(ws[k])
  }

  /** `sep.join(xs)`. */
  function Join(sep: string, xs: seq<string>): string
  {
    if xs == [] then ""
    else if |xs| == 1 then xs[0]
    else xs[0] + sep + Join(sep, xs[1..])
  }

  /**
   * A clean string is what `_cleanup_spaces` produces: trimmed, its only
   * whitespace is the plain space, and no two whitespace characters are adjacent.
   */
  predicate IsClean(s: string) {
    && Trimmed(s)
    && (forall i :: 0 <= i < |s| && IsSpace(s[i]) ==> s[i] == ' ')
    && (forall i :: 0 <= i < |s| - 1 ==> !(IsSpace(s[i]) && IsSpace(s[i + 1])))
  }

  // ---------------------------------------------------------------------------
  // Facts about whitespace runs and words
  // ---------------------------------------------------------------------------

  lemma {:induction false} WordsLStrip(s: string)
    ensures Words(s) == Words(LStrip(s))
    decreases |s|
  {
    if s != [] && IsSpace(s[0]) {
      WordsLStrip(s[1..]);
      assert s[1..][SpaceRun(s[1..])..] == s[SpaceRun(s)..];
    }
  }

  lemma LStripSpaceHead(y: string)
    ensures LStrip(" " + y) == LStrip(y)
  {
    assert (" " + y)[1..] == y;
    assert (" " + y)[SpaceRun(" " + y)..] == y[SpaceRun(y)..];
  }

  lemma LStripNoSpaceHead(y: string)
    requires y != [] && !IsSpace(y[0])
    ensures LStrip(y) == y
  {
  }

  lemma {:induction false} WordLenAt(s: string, n: nat)
    requires n <= |s|
    requires forall i :: 0 <= i < n ==> !IsSpace(s[i])
    requires n < |s| ==> IsSpace(s[n])
    ensures WordLen(s) == n
    decreases n
  {
    if n > 0 {
      WordLenAt(s[1..], n - 1);
    }
  }

  lemma {:induction false} SubSpaceRunsWord(s: string, rep: string)
    requires s != [] && !IsSpace(s[0])
    ensures SubSpaceRuns(s, rep) == s[..WordLen(s)] + SubSpaceRuns(s[WordLen(s)..], rep)
    decreases |s|
  {
    var n := WordLen(s);
    var t := s[1..];
    assert SubSpaceRuns(s, rep) == [s[0]] + SubSpaceRuns(t, rep);
    if n > 1 {
      assert WordLen(t) == n - 1;
      SubSpaceRunsWord(t, rep);
      assert t[..n - 1] == s[1..n];
      assert t[n - 1..] == s[n..];
      assert s[..n] == [s[0]] + s[1..n];
    } else {
      assert s[..1] == [s[0]];
      assert s[1..] == t;
    }
  }

  /** On a trimmed text, the substitution joins its words with the replacement. */
  lemma {:induction false} SubSpaceRunsTrimmed(s: string, rep: string)
    requires Trimmed(s)
    ensures SubSpaceRuns(s, rep) == Join(rep, Words(s))
    decreases |s|
  {
    if s != [] {
      var n := WordLen(s);
      if n == |s| {
        SubSpaceRunsWord(s, rep);
        assert s[..n] == s && s[n..] == [];
        assert Words(s) == [s];
      } else {
        var r := s[n..];
        assert r[|r| - 1] == s[|s| - 1];
        var t := r[SpaceRun(r)..];
        SpaceGap(r, rep, t);
        SubSpaceRunsTrimmed(t, rep);
        SubSpaceRunsTrimmedStep(s, rep, n, r, t);
      }
    }
  }

  /** The step of `SubSpaceRunsTrimmed` past the first word and the whitespace after it. */
  lemma SubSpaceRunsTrimmedStep(s: string, rep: string, n: nat, r: string, t: string)
    requires s != [] && !IsSpace(s[0]) && n == WordLen(s) && n < |s| && r == s[n..]
    requires SubSpaceRuns(r, rep) == rep + SubSpaceRuns(t, rep)
    requires Words(r) == Words(t) && Words(t) != []
    requires SubSpaceRuns(t, rep) == Join(rep, Words(t))
    ensures SubSpaceRuns(s, rep) == Join(rep, Words(s))
  {
    var w := s[..n];
    SubSpaceRunsWord(s, rep);
    assert Words(s) == [w] + Words(r);
    JoinCons(rep, w, Words(t));
    StringAssoc(w, rep, SubSpaceRuns(t, rep));
  }

  lemma EndsWith(a: string, b: string)
    ensures var p := a + b; |p| >= |b| && p[|p| - |b|..] == b
  {
  }

  lemma Assoc4(h: string, a: string, b: string, c: string, e: string)
    ensures h + (a + b + c) + e == h + a + b + c + e
  {
  }

  lemma StringAssoc(a: string, b: string, c: string)
    ensures a + (b + c) == a + b + c
  {
  }

  /** A whitespace run between two words becomes one replacement and separates no words. */
  lemma SpaceGap(r: string, rep: string, t: string)
    requires r != [] && IsSpace(r[0]) && !IsSpace(r[|r| - 1])
    requires t == r[SpaceRun(r)..]
    ensures |t| < |r| && Trimmed(t) && t != []
    ensures SubSpaceRuns(r, rep) == rep + SubSpaceRuns(t, rep)
    ensures Words(r) == Words(t) && Words(t) != []
  {
    var k := SpaceRun(r);
    assert k < |r|;
    assert t[|t| - 1] == r[|r| - 1];
    WordsLStrip(r);
    WordsEmpty(t);
  }

  lemma JoinCons(sep: string, x: string, xs: seq<string>)
    requires xs != []
    ensures Join(sep, [x] + xs) == x + sep + Join(sep, xs)
  {
    assert ([x] + xs)[1..] == xs;
  }

  lemma {:induction false} TrailingSpaceRunAppend(a: string, b: string)
    requires !NoNonSpace(b)
    ensures TrailingSpaceRun(a + b) == TrailingSpaceRun(b)
    decreases |b|
  {
    var ab := a + b;
    if IsSpace(b[|b| - 1]) {
      var b' := b[..|b| - 1];
      assert ab[..|ab| - 1] == a + b';
      assert !NoNonSpace(b') by {
        var i :| 0 <= i < |b| && !IsSpace(b[i]);
        assert b'[i] == b[i];
      }
      TrailingSpaceRunAppend(a, b');
    }
  }

  lemma RStripAppend(a: string, b: string)
    requires !NoNonSpace(b)
    ensures RStrip(a + b) == a + RStrip(b)
  {
    TrailingSpaceRunAppend(a, b);
    assert (a + b)[..|a + b| - TrailingSpaceRun(b)] == a + b[..|b| - TrailingSpaceRun(b)];
  }

  lemma RStripNoSpaceTail(y: string)
    requires y != [] && !IsSpace(y[|y| - 1])
    ensures RStrip(y) == y
  {
  }

  lemma RStripSpaceTail(w: string)
    requires w != [] && !IsSpace(w[|w| - 1])
    ensures RStrip(w + " ") == w
  {
    var t := w + " ";
    assert t[..|t| - 1] == w;
    assert TrailingSpaceRun(t) == 1;
  }

  /** The key characterisation: cleanup joins the words of the text with single spaces. */
  lemma {:induction false} CleanupIsJoinedWords(s: string)
    ensures Cleanup(s) == Join(" ", Words(s))
    decreases |s|
  {
    if s == [] {
    } else if IsSpace(s[0]) {
      var t := LStrip(s);
      var y := SubSpaceRuns(t, " ");
      assert SubSpaceRuns(s, " ") == " " + y;
      LStripSpaceHead(y);
      CleanupIsJoinedWords(t);
      WordsLStrip(s);
    } else {
      var n := WordLen(s);
      var r := s[n..];
      if r != [] && LStrip(r) != [] {
        assert |LStrip(r)| <= |r| < |s|;
        CleanupIsJoinedWords(LStrip(r));
      }
      CleanupFirstWord(s, n, r);
    }
  }

  /** The step of `CleanupIsJoinedWords` past a first word. */
  lemma CleanupFirstWord(s: string, n: nat, r: string)
    requires s != [] && !IsSpace(s[0]) && n == WordLen(s) && r == s[n..]
    requires r != [] && LStrip(r) != [] ==> Cleanup(LStrip(r)) == Join(" ", Words(LStrip(r)))
    ensures Cleanup(s) == Join(" ", Words(s))
  {
    var w := s[..n];
    SubSpaceRunsWord(s, " ");
    assert Words(s) == [w] + Words(r);
    if r == [] {
      assert s == w;
      assert SubSpaceRuns(s, " ") == w + [];
      LStripNoSpaceHead(w);
      RStripNoSpaceTail(w);
    } else if LStrip(r) == [] {
      CleanupTrailingSpaces(w, r);
    } else {
      CleanupWordGap(w, r, LStrip(r));
    }
  }

  /** A word followed by nothing but whitespace cleans to the word. */
  lemma CleanupTrailingSpaces(w: string, r: string)
    requires w != [] && NoSpace(w)
    requires r != [] && IsSpace(r[0]) && LStrip(r) == []
    ensures Strip(w + SubSpaceRuns(r, " ")) == w && Words(r) == []
  {
    var y := SubSpaceRuns(LStrip(r), " ");
    assert SubSpaceRuns(r, " ") == " " + y && y == [];
    WordsLStrip(r);
    assert w + " " + [] == w + " ";
    LStripNoSpaceHead(w + " ");
    RStripSpaceTail(w);
  }

  /** A word, whitespace, then more words: cleanup puts one space after the word. */
  lemma CleanupWordGap(w: string, r: string, t: string)
    requires w != [] && NoSpace(w)
    requires r != [] && IsSpace(r[0]) && t == LStrip(r) && t != []
    requires Cleanup(t) == Join(" ", Words(t))
    ensures Strip(w + SubSpaceRuns(r, " ")) == Join(" ", [w] + Words(r))
  {
    var y := SubSpaceRuns(t, " ");
    assert SubSpaceRuns(r, " ") == " " + y;
    WordsLStrip(r);
    WordsEmpty(t);
    StripAfterWord(w, y);
    JoinCons(" ", w, Words(t));
  }

  /** Stripping after a leading word strips only what follows the space. */
  lemma StripAfterWord(w: string, y: string)
    requires w != [] && NoSpace(w) && y != [] && !IsSpace(y[0])
    ensures Strip(w + (" " + y)) == w + " " + Strip(y)
  {
    assert w + (" " + y) == (w + " ") + y;
    assert !NoNonSpace(y);
    RStripAppend(w + " ", y);
    LStripNoSpaceHead(w + (" " + y));
    LStripNoSpaceHead(y);
  }

  lemma {:induction false} JoinWordsClean(ws: seq<string>)
    requires GoodWords(ws)
    ensures IsClean(Join(" ", ws))
    ensures Join(" ", ws) == [] <==> ws == []
  {
    if |ws| >= 2 {
      var w, j := ws[0], Join(" ", ws[1..]);
      JoinWordsClean(ws[1..]);
      var t := w + " " + j;
      assert t == Join(" ", ws);
      forall i | 0 <= i < |t| && IsSpace(t[i]) ensures t[i] == ' ' {
        if i > |w| { assert t[i] == j[i - |w| - 1]; }
      }
      forall i | 0 <= i < |t| - 1 ensures !(IsSpace(t[i]) && IsSpace(t[i + 1])) {
        if i > |w| { assert t[i] == j[i - |w| - 1] && t[i + 1] == j[i - |w|]; }
      }
    } else if |ws| == 1 {
      assert Join(" ", ws) == ws[0];
    }
  }

  lemma {:induction false} WordsOfJoin(ws: seq<string>)
    requires GoodWords(ws)
    ensures Words(Join(" ", ws)) == ws
  {
    if |ws| == 1 {
      var w := ws[0];
      WordLenAt(w, |w|);
      assert w[..|w|] == w && w[|w|..] == [];
      assert Words(w) == [w] + Words([]);
    } else if |ws| >= 2 {
      var w, j := ws[0], Join(" ", ws[1..]);
      assert Join(" ", ws) == w + " " + j;
      WordsOfWordSpace(w, j);
      WordsOfJoin(ws[1..]);
    }
  }

  /** A word, one space, then anything: the word comes first. */
  lemma WordsOfWordSpace(w: string, j: string)
    requires w != [] && NoSpace(w)
    ensures Words(w + " " + j) == [w] + Words(j)
  {
    var t := w + " " + j;
    WordLenAt(t, |w|);
    assert t[..|w|] == w;
    assert t[|w|..] == " " + j;
    assert (" " + j)[1..] == j;
  }

  lemma {:induction false} WordsEmpty(s: string)
    ensures Words(s) == [] <==> NoNonSpace(s)
    decreases |s|
  {
    if s != [] && IsSpace(s[0]) {
      WordsEmpty(s[1..]);
    }
  }

  lemma WordsRStrip(s: string)
    ensures Words(RStrip(s)) == Words(s)
  {
    var k := TrailingSpaceRun(s);
    var r := RStrip(s);
    if k > 0 {
      var tail := s[|s| - k + 1..];
      assert s == r + [s[|s| - k]] + tail;
      WordsSplitAtSpace(r, s[|s| - k], tail);
      WordsEmpty(tail);
    } else {
      assert r == s[..|s|] == s;
    }
  }

  lemma WordsSplitAtSpace(a: string, c: char, b: string)
    requires IsSpace(c)
    ensures Words(a + [c] + b) == Words(a) + Words(b)
  {
    var tail := [c] + b;
    assert a + [c] + b == a + tail;
    assert tail[1..] == b;
    WordsBeforeSpace(a, tail);
  }

  /** Text followed by whitespace splits into its own words and those after it. */
  lemma {:induction false} WordsBeforeSpace(a: string, tail: string)
    requires tail != [] && IsSpace(tail[0])
    ensures Words(a + tail) == Words(a) + Words(tail)
    decreases |a|
  {
    if a == [] {
      assert a + tail == tail;
    } else if IsSpace(a[0]) {
      WordsBeforeSpace(a[1..], tail);
      assert (a + tail)[1..] == a[1..] + tail;
    } else {
      var n := WordLen(a);
      WordsBeforeSpace(a[n..], tail);
      WordsFirstAppended(a, tail, n);
      ConsAssoc(Words(a + tail), Words(a), a[..n], Words(a[n..] + tail), Words(a[n..]), Words(tail));
    }
  }

  /** The first word of `a` stays the first word when whitespace-led text follows. */
  lemma WordsFirstAppended(a: string, tail: string, n: nat)
    requires a != [] && !IsSpace(a[0]) && n == WordLen(a)
    requires tail != [] && IsSpace(tail[0])
    ensures Words(a + tail) == [a[..n]] + Words(a[n..] + tail)
    ensures Words(a) == [a[..n]] + Words(a[n..])
  {
    var s := a + tail;
    WordLenAt(s, n);
    SliceOfAppend(a, tail, n);
  }

  lemma {:induction false} JoinAppend(sep: string, xs: seq<string>, ys: seq<string>)
    requires xs != [] && ys != []
    ensures Join(sep, xs + ys) == Join(sep, xs) + sep + Join(sep, ys)
  {
    if |xs| == 1 {
      assert (xs + ys)[1..] == ys;
    } else {
      assert (xs + ys)[1..] == xs[1..] + ys;
      JoinAppend(sep, xs[1..], ys);
    }
  }

  // ---------------------------------------------------------------------------
  // Consequences for `_cleanup_spaces`
  // ---------------------------------------------------------------------------

  /** Cleanup output has no whitespace run, only plain spaces, and no whitespace at the ends. */
  lemma CleanupIsClean(s: string)
    ensures IsClean(Cleanup(s))
    ensures Cleanup(s) == [] <==> NoNonSpace(s)
  {
    CleanupIsJoinedWords(s);
    JoinWordsClean(Words(s));
    WordsEmpty(s);
  }

  /** Cleaning twice is cleaning once. */
  lemma CleanupIdempotent(s: string)
    ensures Cleanup(Cleanup(s)) == Cleanup(s)
  {
    CleanupIsJoinedWords(s);
    CleanupIsJoinedWords(Cleanup(s));
    WordsOfJoin(Words(s));
  }

  /** Only plain spaces, never two whitespace characters in a row. */
  predicate SingleSpaced(s: string) {
    && (forall i :: 0 <= i < |s| && IsSpace(s[i]) ==> s[i] == ' ')
    && (forall i :: 0 <= i < |s| - 1 ==> !(IsSpace(s[i]) && IsSpace(s[i + 1])))
  }

  lemma {:induction false} SubSpaceRunsOfSingleSpaced(t: string)
    requires SingleSpaced(t)
    ensures SubSpaceRuns(t, " ") == t
    decreases |t|
  {
    if t != [] {
      SingleSpacedTail(t);
      SubSpaceRunsOfSingleSpaced(t[1..]);
      SubSpaceRunsSingleHead(t);
      assert t == [t[0]] + t[1..];
    }
  }

  lemma SingleSpacedTail(t: string)
    requires SingleSpaced(t) && t != []
    ensures SingleSpaced(t[1..])
  {
    var t' := t[1..];
    forall i | 0 <= i < |t'| - 1 ensures !(IsSpace(t'[i]) && IsSpace(t'[i + 1])) {
      assert t'[i] == t[i + 1] && t'[i + 1] == t[i + 2];
    }
  }

  /** On single-spaced text the substitution keeps the first character and goes on with the rest. */
  lemma SubSpaceRunsSingleHead(t: string)
    requires SingleSpaced(t) && t != []
    ensures SubSpaceRuns(t, " ") == [t[0]] + SubSpaceRuns(t[1..], " ")
  {
    if IsSpace(t[0]) {
      assert |t| > 1 ==> !IsSpace(t[1]);
      assert SpaceRun(t) == 1;
    }
  }

  /** A string that is already clean is left alone. */
  lemma CleanupOfClean(t: string)
    requires IsClean(t)
    ensures Cleanup(t) == t
  {
    SubSpaceRunsOfSingleSpaced(t);
    StripProperties(t);
  }

  /** Cleanup of two texts around a space is the space-join of their cleanups. */
  lemma CleanupAroundSpace(a: string, b: string)
    ensures Cleanup(a + " " + b) ==
      if Cleanup(a) == "" then Cleanup(b)
      else if Cleanup(b) == "" then Cleanup(a)
      else Cleanup(a) + " " + Cleanup(b)
  {
    CleanupIsJoinedWords(a + " " + b);
    CleanupIsJoinedWords(a);
    CleanupIsJoinedWords(b);
    WordsSplitAtSpace(a, ' ', b);
    JoinWordsClean(Words(a));
    JoinWordsClean(Words(b));
    if Words(a) != [] && Words(b) != [] {
      JoinAppend(" ", Words(a), Words(b));
    } else if Words(a) == [] {
      assert Words(a) + Words(b) == Words(b);
    } else {
      assert Words(a) + Words(b) == Words(a);
    }
  }

  /** Trimming before cleaning changes nothing. */
  /** The empty text cleans to itself. */
  lemma CleanupEmpty()
    ensures Cleanup("") == ""
  {
    assert IsClean("");
    CleanupOfClean("");
  }

  lemma CleanupOfStrip(s: string)
    ensures Cleanup(Strip(s)) == Cleanup(s)
  {
    CleanupIsJoinedWords(s);
    CleanupIsJoinedWords(Strip(s));
    WordsLStrip(s);
    WordsRStrip(LStrip(s));
  }

  /** Every character of a whitespace substitution is a replacement character or comes from the input. */
  lemma {:induction false} SubSpaceRunsChars(s: string, rep: string)
    ensures forall i :: 0 <= i < |SubSpaceRuns(s, rep)| ==>
      SubSpaceRuns(s, rep)[i] in rep || SubSpaceRuns(s, rep)[i] in s
    decreases |s|
  {
    if s == [] {
    } else {
      var k := if IsSpace(s[0]) then SpaceRun(s) else 1;
      var t := s[k..];
      SubSpaceRunsChars(t, rep);
      forall c | c in t ensures c in s {
        var j :| 0 <= j < |t| && t[j] == c;
        assert s[k + j] == c;
      }
    }
  }

  /** Every character of a cleaned string is a space or comes from the input. */
  lemma CleanupChars(s: string)
    ensures forall i :: 0 <= i < |Cleanup(s)| ==> Cleanup(s)[i] == ' ' || Cleanup(s)[i] in s
  {
    var y := SubSpaceRuns(s, " ");
    SubSpaceRunsChars(s, " ");
    var i := SpaceRun(y);
    var k := TrailingSpaceRun(y[i..]);
    assert Cleanup(s) == y[i..|y| - k];
    forall m | 0 <= m < |Cleanup(s)| ensures Cleanup(s)[m] == ' ' || Cleanup(s)[m] in s {
      assert Cleanup(s)[m] == y[i + m];
    }
  }

  /** Cleanup of a space-joined list is the space-join of its cleaned, non-blank parts. */
  lemma {:induction false} CleanupJoin(ps: seq<string>)
    ensures Cleanup(Join(" ", ps)) == Join(" ", CleanParts(ps))
  {
    if |ps| == 1 {
      assert Join(" ", ps) == ps[0];
      assert CleanParts(ps) == CleanParts([ps[0]]) == (if Cleanup(ps[0]) == "" then [] else [Cleanup(ps[0])]) + CleanParts([]);
    } else if |ps| >= 2 {
      CleanupJoin(ps[1..]);
      CleanupJoinCons(ps, ps[0], ps[1..]);
    }
  }

  /** The step of `CleanupJoin` past the first part. */
  lemma CleanupJoinCons(ps: seq<string>, x: string, q: seq<string>)
    requires |ps| >= 2 && x == ps[0] && q == ps[1..]
    requires Cleanup(Join(" ", q)) == Join(" ", CleanParts(q))
    ensures Cleanup(Join(" ", ps)) == Join(" ", CleanParts(ps))
  {
    var rest := CleanParts(q);
    assert Join(" ", ps) == x + " " + Join(" ", q);
    assert CleanParts(ps) == (if Cleanup(x) == "" then [] else [Cleanup(x)]) + rest;
    CleanupAroundSpace(x, Join(" ", q));
    JoinNonEmpty(" ", rest);
    if Cleanup(x) != "" && rest != [] {
      JoinCons(" ", Cleanup(x), rest);
    } else if Cleanup(x) != "" {
      assert CleanParts(ps) == [Cleanup(x)];
    } else {
      assert CleanParts(ps) == rest;
    }
  }

  /** The cleaned non-blank parts of a list, in order. */
  function CleanParts(ps: seq<string>): (r: seq<string>)
    ensures forall k :: 0 <= k < |r| ==> r[k] != "" && IsClean(r[k])
  {
    if ps == [] then []
    else
      CleanupIsClean(ps[0]);
      (if Cleanup(ps[0]) == "" then [] else [Cleanup(ps[0])]) + CleanParts(ps[1..])
  }

  /** `[p for p in ps if p]`. */
  function NonEmpty(ps: seq<string>): (r: seq<string>)
    ensures forall k :: 0 <= k < |r| ==> r[k] != ""
  {
    if ps == [] then [] else (if ps[0] == "" then [] else [ps[0]]) + NonEmpty(ps[1..])
  }

  lemma {:induction false} CleanPartsNonEmpty(ps: seq<string>)
    ensures CleanParts(NonEmpty(ps)) == CleanParts(ps)
  {
    if ps != [] {
      CleanPartsNonEmpty(ps[1..]);
      var head := if ps[0] == "" then [] else [ps[0]];
      CleanPartsAppend(head, NonEmpty(ps[1..]));
      if ps[0] == "" {
        assert Cleanup(ps[0]) == "";
      } else {
        assert CleanParts(head) == CleanParts([ps[0]]);
        assert [ps[0]][1..] == [];
      }
    }
  }

  lemma {:induction false} CleanPartsAppend(a: seq<string>, b: seq<string>)
    ensures CleanParts(a + b) == CleanParts(a) + CleanParts(b)
  {
    if a != [] {
      var head := if Cleanup(a[0]) == "" then [] else [Cleanup(a[0])];
      assert (a + b)[0] == a[0];
      assert (a + b)[1..] == a[1..] + b;
      assert CleanParts(a + b) == head + CleanParts(a[1..] + b);
      assert CleanParts(a) == head + CleanParts(a[1..]);
      CleanPartsAppend(a[1..], b);
    } else {
      assert a + b == b;
    }
  }

  /** A join of at least two parts begins with the first and ends with the last, each set off by the separator. */
  lemma JoinEnds(sep: string, xs: seq<string>)
    requires |xs| >= 2
    ensures Join(sep, xs) == xs[0] + sep + Join(sep, xs[1..])
    ensures Join(sep, xs) == Join(sep, xs[..|xs| - 1]) + sep + xs[|xs| - 1]
  {
    JoinAppend(sep, xs[..|xs| - 1], [xs[|xs| - 1]]);
    assert xs[..|xs| - 1] + [xs[|xs| - 1]] == xs;
  }

  lemma {:induction false} JoinNonEmpty(sep: string, xs: seq<string>)
    requires forall k :: 0 <= k < |xs| ==> xs[k] != ""
    ensures Join(sep, xs) == "" <==> xs == []
  {
    if |xs| >= 2 {
      JoinNonEmpty(sep, xs[1..]);
    }
  }

  // ---------------------------------------------------------------------------
  // Slicing, splitting and joining lines
  // ---------------------------------------------------------------------------

  /** Python's `s[:n]`. */
  function Take<T>(s: seq<T>, n: nat): (r: seq<T>)
    ensures |r| <= n && |r| <= |s| && r == s[..|r|]
    ensures |s| >= n ==> |r| == n
    ensures |s| <= n ==> r == s
  {
    if |s| <= n then s else s[..n]
  }

  /** Index of the first `d`, or `|s|` when there is none. */
  function IndexOf<T(==)>(s: seq<T>, d: T): (n: nat)
    ensures n <= |s|
    ensures forall i :: 0 <= i < n ==> s[i] != d
    ensures n < |s| ==> s[n] == d
    decreases |s|
  {
    if s == [] || s[0] == d then 0 else 1 + IndexOf(s[1..], d)
  }

  /** `s.split(d)` for a one-character separator. */
  function Split(s: string, d: char): (r: seq<string>)
    ensures r != []
    ensures forall k :: 0 <= k < |r| ==> d !in r[k]
    decreases |s|
  {
    var n := IndexOf(s, d);
    if n == |s| then [s] else [s[..n]] + Split(s[n + 1..], d)
  }

  /** Index of the first line boundary, or `|s|` when there is none. */
  function LineLen(s: string): (n: nat)
    ensures n <= |s|
    ensures forall i :: 0 <= i < n ==> !IsLineBreak(s[i])
    ensures n < |s| ==> IsLineBreak(s[n])
    decreases |s|
  {
    if s == [] || IsLineBreak(s[0]) then 0 else 1 + LineLen(s[1..])
  }

  /**
   * `s.splitlines()`: lines without their boundaries, `\r\n` counting as one
   * boundary, and no empty line after a final boundary.
   */
  function SplitLines(s: string): (r: seq<string>)
    ensures forall k :: 0 <= k < |r| ==> NoLineBreak(r[k])
    decreases |s|
  {
    if s == [] then []
    else
      var n := LineLen(s);
      if n == |s| then [s]
      else
        var k := if s[n] == '\r' && n + 1 < |s| && s[n + 1] == '\n' then n + 2 else n + 1;
        [s[..n]] + SplitLines(s[k..])
  }

  lemma {:induction false} JoinSplit(s: string, d: char)
    ensures Join([d], Split(s, d)) == s
    decreases |s|
  {
    var n := IndexOf(s, d);
    if n < |s| {
      var rest := Split(s[n + 1..], d);
      JoinSplit(s[n + 1..], d);
      assert Split(s, d) == [s[..n]] + rest;
      assert s == s[..n] + [d] + s[n + 1..];
    }
  }

  lemma {:induction false} SplitJoin(items: seq<string>, d: char)
    requires items != []
    requires forall k :: 0 <= k < |items| ==> d !in items[k]
    ensures Split(Join([d], items), d) == items
  {
    var x := items[0];
    if |items| >= 2 {
      var j := Join([d], items[1..]);
      var t := x + ([d] + j);
      assert Join([d], items) == t;
      IndexOfAppend(x, [d] + j, d);
      assert IndexOf(x, d) == |x|;
      assert IndexOf([d] + j, d) == 0;
      assert t[..|x|] == x && t[|x| + 1..] == j;
      SplitJoin(items[1..], d);
    } else {
      assert Join([d], items) == x;
      assert IndexOf(x, d) == |x|;
    }
  }

  /** Cutting a concatenation inside its first part. */
  lemma SliceOfAppend<T>(a: seq<T>, b: seq<T>, n: nat)
    requires n <= |a|
    ensures (a + b)[..n] == a[..n] && (a + b)[n..] == a[n..] + b
  {
  }

  lemma {:induction false} IndexOfAppend<T>(s: seq<T>, t: seq<T>, d: T)
    ensures IndexOf(s + t, d) == if d in s then IndexOf(s, d) else |s| + IndexOf(t, d)
    decreases |s|
  {
    if s == [] {
      assert s + t == t;
    } else if s[0] != d {
      assert (s + t)[1..] == s[1..] + t;
      assert d in s <==> d in s[1..];
      IndexOfAppend(s[1..], t, d);
    }
  }

  lemma {:induction false} LineLenAppend(s: string, t: string)
    requires NoLineBreak(s)
    ensures LineLen(s + t) == |s| + LineLen(t)
    decreases |s|
  {
    if s == [] {
      assert s + t == t;
    } else {
      assert (s + t)[1..] == s[1..] + t;
      LineLenAppend(s[1..], t);
    }
  }

  /** Joining single-line texts with newlines and a final newline, then splitting, gives them back. */
  lemma {:induction false} SplitLinesOfTerminated(items: seq<string>)
    requires items != []
    requires forall k :: 0 <= k < |items| ==> NoLineBreak(items[k])
    ensures SplitLines(Join("\n", items) + "\n") == items
  {
    var x := items[0];
    if |items| >= 2 {
      var j := Join("\n", items[1..]);
      var rest := j + "\n";
      assert Join("\n", items) == x + "\n" + j;
      assert Join("\n", items) + "\n" == x + ("\n" + rest);
      SplitLinesOfTerminated(items[1..]);
      SplitLinesCons(x, rest);
    } else {
      assert Join("\n", items) == x;
      SplitLinesCons(x, "");
      assert x + "\n" == x + ("\n" + "");
    }
  }

  /** A single-line text followed by a newline is the first line. */
  lemma SplitLinesCons(x: string, rest: string)
    requires NoLineBreak(x)
    ensures SplitLines(x + ("\n" + rest)) == [x] + SplitLines(rest)
  {
    var s := x + ("\n" + rest);
    LineLenAppend(x, "\n" + rest);
    assert LineLen("\n" + rest) == 0;
    assert s[|x|] == '\n';
    assert s[..|x|] == x && s[|x| + 1..] == rest;
  }

  /** The same without the final newline, provided the last text is not empty. */
  lemma {:induction false} SplitLinesOfJoined(items: seq<string>)
    requires items != [] && items[|items| - 1] != ""
    requires forall k :: 0 <= k < |items| ==> NoLineBreak(items[k])
    ensures SplitLines(Join("\n", items)) == items
  {
    var x := items[0];
    if |items| >= 2 {
      var rest := Join("\n", items[1..]);
      assert Join("\n", items) == x + ("\n" + rest);
      SplitLinesOfJoined(items[1..]);
      SplitLinesCons(x, rest);
    } else {
      assert Join("\n", items) == x;
      LineLenAppend(x, "");
      assert x + "" == x;
    }
  }

  /** A line boundary inside `s` is found before anything appended to it. */
  lemma {:induction false} LineLenPrefix(s: string, t: string)
    requires LineLen(s) < |s|
    ensures LineLen(s + t) == LineLen(s)
    decreases |s|
  {
    if !IsLineBreak(s[0]) {
      assert (s + t)[1..] == s[1..] + t;
      LineLenPrefix(s[1..], t);
    }
  }

  /** Splitting at a newline that follows a text not ending in a line boundary. */
  lemma {:induction false} SplitLinesAfter(p: string, t: string)
    requires p != [] && !IsLineBreak(p[|p| - 1])
    ensures SplitLines(p + ("\n" + t)) == SplitLines(p) + SplitLines(t)
    decreases |p|
  {
    var n := LineLen(p);
    if n == |p| {
      assert NoLineBreak(p);
      SplitLinesCons(p, t);
    } else {
      var k := LineStart(p, n);
      assert k < |p|;
      assert p[k..][|p[k..]| - 1] == p[|p| - 1];
      SplitLinesAfter(p[k..], t);
      SplitLinesAfterStep(p, "\n" + t, t, n, k);
    }
  }

  /**
   * The step of `SplitLinesAfter` past the first line boundary of `p`: whatever
   * follows `p`, once the rest of `p` splits apart from it, so does `p`.
   */
  lemma SplitLinesAfterStep(p: string, tail: string, t: string, n: nat, k: nat)
    requires n == LineLen(p) && n < |p|
    requires k == LineStart(p, n)
    requires k < |p|
    requires SplitLines(p[k..] + tail) == SplitLines(p[k..]) + SplitLines(t)
    ensures SplitLines(p + tail) == SplitLines(p) + SplitLines(t)
  {
    SplitLinesUnfoldAppended(p, tail, n, k);
    SplitLinesUnfold(p, n, k);
    ConsAssoc(SplitLines(p + tail), SplitLines(p), p[..n], SplitLines(p[k..] + tail), SplitLines(p[k..]), SplitLines(t));
  }

  lemma ConsAssoc<T>(l: seq<T>, r: seq<T>, x: T, a: seq<T>, b: seq<T>, c: seq<T>)
    requires l == [x] + a && a == b + c && r == [x] + b
    ensures l == r + c
  {
  }

  /** The first line of `p` stays the first line whatever is appended after its boundary. */
  lemma SplitLinesUnfoldAppended(p: string, tail: string, n: nat, k: nat)
    requires n == LineLen(p) && n < |p| && k == LineStart(p, n) && k < |p|
    ensures SplitLines(p + tail) == [p[..n]] + SplitLines(p[k..] + tail)
  {
    BoundaryBeforeTail(p, tail, n, k);
    SplitLinesUnfold(p + tail, n, k);
  }

  /** Where the line after a boundary at `n` starts. */
  function LineStart(s: string, n: nat): nat
    requires n < |s|
  {
    if s[n] == '\r' && n + 1 < |s| && s[n + 1] == '\n' then n + 2 else n + 1
  }

  lemma SplitLinesUnfold(s: string, n: nat, k: nat)
    requires n == LineLen(s) && n < |s| && k == LineStart(s, n)
    ensures SplitLines(s) == [s[..n]] + SplitLines(s[k..])
  {
  }

  /** A line boundary well inside `p` is seen the same way with more text after `p`. */
  lemma BoundaryBeforeTail(p: string, tail: string, n: nat, k: nat)
    requires n == LineLen(p) && n < |p| && k == LineStart(p, n) && k < |p|
    ensures LineLen(p + tail) == n && LineStart(p + tail, n) == k
    ensures (p + tail)[..n] == p[..n] && (p + tail)[k..] == p[k..] + tail
  {
    LineLenPrefix(p, tail);
    SliceOfAppend(p, tail, k);
    SliceOfAppend(p, tail, n);
    assert (p + tail)[n] == p[n] && (p + tail)[n + 1] == p[n + 1];
  }

  // ---------------------------------------------------------------------------
  // Formatting integers as `f"{n}"` does
  // ---------------------------------------------------------------------------

  function DigitChar(d: nat): char
    requires d < 10
  {
    "0123456789"[d]
  }

  function NatToString(n: nat): (r: string)
    ensures r != []
    decreases n
  {
    if n < 10 then [DigitChar(n)] else NatToString(n / 10) + [DigitChar(n % 10)]
  }

  function IntToString(i: int): string {
    if i < 0 then "-" + NatToString(-i) else NatToString(i)
  }
}
