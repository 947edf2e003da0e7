/**
 * `_cleanup_spaces_preserve_paragraphs` of the cover-letter generator: every line
 * is whitespace-collapsed and trimmed, the lines are joined again with newlines,
 * every run of three or more newlines becomes two, and the whole text is trimmed.
 *
 * The main theorem, `CleanupParagraphsLines`, says what that amounts to on lines:
 * the cleaned lines with blank lines removed at both ends and every run of blank
 * lines reduced to one.
 */
module Paragraphs {
  import opened Text

  // ---------------------------------------------------------------------------
  // Character level: `re.sub(r"\n{3,}", "\n\n", s)`
  // ---------------------------------------------------------------------------

  function Newlines(k: nat): (r: string)
    ensures |r| == k && forall i :: 0 <= i < k ==> r[i] == '\n'
  {
    if k == 0 then "" else "\n" + Newlines(k - 1)
  }

  /**
   * `re.sub(r"\n{3,}", "\n\n", s)`: every maximal run of three or more newlines becomes
   * two newlines, which is the same as keeping at most two newlines of every run.
   */
  function CollapseNewlines(s: string): string {
    CollapseAfter(s, 0)
  }

  /** The collapse of `s` when `run` newlines came just before it. */
  function CollapseAfter(s: string, run: nat): string
    decreases |s|
  {
    if s == [] then []
    else if s[0] == '\n' then (if run >= 2 then "" else "\n") + CollapseAfter(s[1..], run + 1)
    else [s[0]] + CollapseAfter(s[1..], 0)
  }

  /** The number of newlines at the end of `s`, counting the `run` before it when `s` has no other character. */
  function RunAfter(s: string, run: nat): nat
    decreases |s|
  {
    if s == [] then run else RunAfter(s[1..], if s[0] == '\n' then run + 1 else 0)
  }

  /** `[_whitespace_re.sub(" ", line).strip() for line in lines]`. */
  function CleanLines(ls: seq<string>): (r: seq<string>)
    ensures |r| == |ls| && forall i :: 0 <= i < |ls| ==> r[i] == Cleanup(ls[i])
  {
    if ls == [] then [] else [Cleanup(ls[0])] + CleanLines(ls[1..])
  }

  /** `_cleanup_spaces_preserve_paragraphs`. */
  function CleanupParagraphs(text: string): string {
    Strip(CollapseNewlines(Join("\n", CleanLines(SplitLines(text)))))
  }

  /** No three newlines in a row. */
  predicate NoTripleNewline(s: string) {
    forall i :: 0 <= i < |s| - 2 ==> !(s[i] == '\n' && s[i + 1] == '\n' && s[i + 2] == '\n')
  }

  // ---------------------------------------------------------------------------
  // Line level
  // ---------------------------------------------------------------------------

  function Blanks(k: nat): (r: seq<string>)
    ensures |r| == k && forall i :: 0 <= i < k ==> r[i] == ""
  {
    if k == 0 then [] else [""] + Blanks(k - 1)
  }

  predicate AllBlank(ls: seq<string>) { forall i :: 0 <= i < |ls| ==> ls[i] == "" }

  /** No two blank lines in a row. */
  predicate NoDoubleBlank(ls: seq<string>) {
    forall i :: 0 <= i < |ls| - 1 ==> !(ls[i] == "" && ls[i + 1] == "")
  }

  /** Blank lines come one at a time, and never first or last. */
  predicate IsTidy(ls: seq<string>) {
    NoDoubleBlank(ls) && (ls != [] ==> ls[0] != "" && ls[|ls| - 1] != "")
  }

  function LeadingBlanks(ls: seq<string>): (n: nat)
    ensures n <= |ls|
    ensures forall i :: 0 <= i < n ==> ls[i] == ""
    ensures n < |ls| ==> ls[n] != ""
    decreases |ls|
  {
    if ls != [] && ls[0] == "" then 1 + LeadingBlanks(ls[1..]) else 0
  }

  function TrailingBlanks(ls: seq<string>): (n: nat)
    ensures n <= |ls|
    ensures forall i :: |ls| - n <= i < |ls| ==> ls[i] == ""
    ensures n < |ls| ==> ls[|ls| - 1 - n] != ""
    decreases |ls|
  {
    if ls != [] && ls[|ls| - 1] == "" then 1 + TrailingBlanks(ls[..|ls| - 1]) else 0
  }

  /** Every run of blank lines reduced to a single blank line. */
  function Squeeze(ls: seq<string>): (r: seq<string>)
    ensures ls != [] ==> r != [] && r[0] == ls[0] && r[|r| - 1] == ls[|ls| - 1]
    ensures NoDoubleBlank(r)
    decreases |ls|
  {
    if ls == [] then []
    else if |ls| >= 2 && ls[0] == "" && ls[1] == "" then Squeeze(ls[1..])
    else [ls[0]] + Squeeze(ls[1..])
  }

  /** Blank lines dropped at both ends, and runs of blank lines squeezed to one. */
  function TidyLines(ls: seq<string>): (r: seq<string>)
    ensures IsTidy(r)
    ensures r == [] <==> AllBlank(ls)
  {
    Squeeze(DropBlankEnds(ls))
  }

  /** The lines with the blank lines at both ends removed. */
  function DropBlankEnds(ls: seq<string>): seq<string> {
    var m := ls[LeadingBlanks(ls)..];
    m[..|m| - TrailingBlanks(m)]
  }

  // ---------------------------------------------------------------------------
  // Facts about the character-level collapse
  // ---------------------------------------------------------------------------

  lemma {:induction false} CollapseAfterAppend(a: string, b: string, run: nat)
    ensures CollapseAfter(a + b, run) == CollapseAfter(a, run) + CollapseAfter(b, RunAfter(a, run))
    decreases |a|
  {
    if a == [] {
      assert a + b == b;
    } else {
      var next := if a[0] == '\n' then run + 1 else 0;
      CollapseAfterAppend(a[1..], b, next);
      CollapseAfterStep(a, b, run);
    }
  }

  /** The step of `CollapseAfterAppend` past the first character. */
  lemma CollapseAfterStep(a: string, b: string, run: nat)
    requires a != []
    requires var next := if a[0] == '\n' then run + 1 else 0;
      CollapseAfter(a[1..] + b, next) == CollapseAfter(a[1..], next) + CollapseAfter(b, RunAfter(a[1..], next))
    ensures CollapseAfter(a + b, run) == CollapseAfter(a, run) + CollapseAfter(b, RunAfter(a, run))
  {
    var next := if a[0] == '\n' then run + 1 else 0;
    var h := if a[0] == '\n' then (if run >= 2 then "" else "\n") else [a[0]];
    var c := CollapseAfter(a[1..], next);
    var d := CollapseAfter(b, RunAfter(a[1..], next));
    assert (a + b)[0] == a[0];
    SliceOfAppend(a, b, 1);
    assert CollapseAfter(a + b, run) == h + (c + d);
    assert h + (c + d) == (h + c) + d;
  }

  lemma {:induction false} RunAfterEnd(a: string, run: nat)
    requires a != [] && a[|a| - 1] != '\n'
    ensures RunAfter(a, run) == 0
    decreases |a|
  {
    if |a| > 1 {
      RunAfterEnd(a[1..], if a[0] == '\n' then run + 1 else 0);
    } else {
      assert a[1..] == [];
    }
  }

  lemma CollapseAfterStart(b: string, run: nat)
    requires b == [] || b[0] != '\n'
    ensures CollapseAfter(b, run) == CollapseAfter(b, 0)
  {
  }

  /** The collapse works piecewise when the cut is not inside a run of newlines. */
  lemma CollapseAppend(a: string, b: string)
    requires a == [] || b == [] || a[|a| - 1] != '\n' || b[0] != '\n'
    ensures CollapseNewlines(a + b) == CollapseNewlines(a) + CollapseNewlines(b)
  {
    CollapseAfterAppend(a, b, 0);
    if a != [] && a[|a| - 1] != '\n' {
      RunAfterEnd(a, 0);
    } else if a != [] {
      CollapseAfterStart(b, RunAfter(a, 0));
    }
  }

  lemma {:induction false} CollapseAfterPlain(s: string, run: nat)
    requires NoLineBreak(s)
    ensures CollapseAfter(s, run) == s
    decreases |s|
  {
    if s != [] {
      assert !IsLineBreak(s[0]);
      CollapseAfterPlain(s[1..], 0);
    }
  }

  lemma CollapseNoNewline(s: string)
    requires NoLineBreak(s)
    ensures CollapseNewlines(s) == s
  {
    CollapseAfterPlain(s, 0);
  }

  lemma NewlinesSucc(k: nat)
    ensures Newlines(k) + "\n" == Newlines(k + 1) == "\n" + Newlines(k)
  {
  }

  /** A run of `k` newlines after `run` others keeps what is left of the two allowed. */
  lemma {:induction false} CollapseAfterRun(k: nat, run: nat)
    ensures CollapseAfter(Newlines(k), run)
      == Newlines(if run >= 2 then 0 else if k <= 2 - run then k else 2 - run)
    decreases k
  {
    if k > 0 {
      var s := Newlines(k);
      assert s[0] == '\n' && s[1..] == Newlines(k - 1);
      CollapseAfterRun(k - 1, run + 1);
      if run < 2 {
        NewlinesSucc(if run + 1 >= 2 then 0 else if k - 1 <= 1 - run then k - 1 else 1 - run);
      }
    }
  }

  lemma CollapseRun(k: nat)
    ensures CollapseNewlines(Newlines(k)) == Newlines(if k >= 3 then 2 else k)
  {
    CollapseAfterRun(k, 0);
  }

  // ---------------------------------------------------------------------------
  // Facts about joins and blank lines
  // ---------------------------------------------------------------------------

  lemma JoinFirst(sep: string, xs: seq<string>)
    requires xs != [] && xs[0] != ""
    ensures Join(sep, xs) != [] && Join(sep, xs)[0] == xs[0][0]
  {
    if |xs| >= 2 {
      JoinEnds(sep, xs);
    }
  }

  lemma JoinLast(sep: string, xs: seq<string>)
    requires xs != [] && xs[|xs| - 1] != ""
    ensures var j := Join(sep, xs); j != [] && j[|j| - 1] == xs[|xs| - 1][|xs[|xs| - 1]| - 1]
  {
    if |xs| >= 2 {
      JoinEnds(sep, xs);
    }
  }

  lemma {:induction false} JoinBlanksPrefix(k: nat, r: seq<string>)
    requires r != []
    ensures Join("\n", Blanks(k) + r) == Newlines(k) + Join("\n", r)
  {
    if k == 0 {
      assert Blanks(k) + r == r;
    } else {
      var y := Blanks(k - 1) + r;
      JoinBlanksPrefix(k - 1, r);
      assert Blanks(k) + r == [""] + y;
      JoinCons("\n", "", y);
      NewlinesSucc(k - 1);
      StringAssoc("\n", Newlines(k - 1), Join("\n", r));
    }
  }

  lemma JoinBlanks(k: nat)
    requires k >= 1
    ensures Join("\n", Blanks(k)) == Newlines(k - 1)
  {
    assert Blanks(k) == Blanks(k - 1) + [""];
    JoinBlanksPrefix(k - 1, [""]);
  }

  lemma JoinBlanksSuffix(r: seq<string>, k: nat)
    requires r != []
    ensures Join("\n", r + Blanks(k)) == Join("\n", r) + Newlines(k)
  {
    if k == 0 {
      assert r + Blanks(k) == r;
    } else {
      JoinAppend("\n", r, Blanks(k));
      JoinBlanks(k);
      assert "\n" + Newlines(k - 1) == Newlines(k);
    }
  }

  // ---------------------------------------------------------------------------
  // Facts about squeezing
  // ---------------------------------------------------------------------------

  lemma SqueezeBlanksPrefix(k: nat, rest: seq<string>)
    requires rest != [] && rest[0] != ""
    ensures Squeeze(Blanks(k) + rest) == (if k == 0 then [] else [""]) + Squeeze(rest)
  {
    var x := Blanks(k) + rest;
    assert x[k..] == rest;
    SqueezeLeadingBlanks(x, k);
  }

  /** A run of `k` leading blank lines squeezes to one blank line, or none when `k` is 0. */
  lemma {:induction false} SqueezeLeadingBlanks(x: seq<string>, k: nat)
    requires k < |x| && x[k] != ""
    requires forall i :: 0 <= i < k ==> x[i] == ""
    ensures Squeeze(x) == (if k == 0 then [] else [""]) + Squeeze(x[k..])
    decreases k
  {
    if k == 0 {
      assert x[k..] == x;
    } else if k == 1 {
      assert x[0] == "" && x[1] != "";
    } else {
      assert x[0] == "" && x[1] == "";
      SqueezeLeadingBlanks(x[1..], k - 1);
      assert x[1..][k - 1..] == x[k..];
    }
  }

  lemma {:induction false} SqueezeAppend(x: seq<string>, y: seq<string>)
    requires y != [] && y[0] != ""
    ensures Squeeze(x + y) == Squeeze(x) + Squeeze(y)
    decreases |x|
  {
    if x == [] {
      assert x + y == y;
    } else {
      assert (x + y)[0] == x[0];
      assert (x + y)[1] == if |x| >= 2 then x[1] else y[0];
      assert (x + y)[1..] == x[1..] + y;
      SqueezeAppend(x[1..], y);
    }
  }

  lemma {:induction false} SqueezeOfTidy(ls: seq<string>)
    requires NoDoubleBlank(ls)
    ensures Squeeze(ls) == ls
    decreases |ls|
  {
    if ls != [] {
      SqueezeOfTidy(ls[1..]);
    }
  }

  // ---------------------------------------------------------------------------
  // From characters to lines
  // ---------------------------------------------------------------------------

  lemma CleanNoLineBreak(s: string)
    requires IsClean(s)
    ensures NoLineBreak(s)
  {
    forall i | 0 <= i < |s| ensures !IsLineBreak(s[i]) {
      if IsLineBreak(s[i]) {
        assert IsSpace(s[i]);
      }
    }
  }

  lemma JoinLineBlanks(x: string, k: nat, rest: seq<string>)
    requires rest != []
    ensures Join("\n", [x] + (Blanks(k) + rest)) == x + (Newlines(k + 1) + Join("\n", rest))
  {
    JoinBlanksPrefix(k, rest);
    JoinAppend("\n", [x], Blanks(k) + rest);
    assert "\n" + Newlines(k) == Newlines(k + 1);
  }

  lemma CollapseRunThen(k: nat, t: string)
    requires t != [] && t[0] != '\n'
    ensures CollapseNewlines(Newlines(k + 1) + t) == Newlines(if k == 0 then 1 else 2) + CollapseNewlines(t)
  {
    CollapseAppend(Newlines(k + 1), t);
    CollapseRun(k + 1);
  }

  lemma CollapseLineThen(x: string, t: string)
    requires x != "" && NoLineBreak(x)
    ensures CollapseNewlines(x + t) == x + CollapseNewlines(t)
  {
    assert !IsLineBreak(x[|x| - 1]);
    CollapseNoNewline(x);
    CollapseAppend(x, t);
  }

  /** A line, `k` blank lines and more lines, joined and collapsed. */
  lemma CollapseStep(x: string, k: nat, rest: seq<string>)
    requires x != "" && NoLineBreak(x)
    requires rest != [] && rest[0] != "" && !IsLineBreak(rest[0][0])
    ensures CollapseNewlines(Join("\n", [x] + (Blanks(k) + rest)))
      == x + Newlines(if k == 0 then 1 else 2) + CollapseNewlines(Join("\n", rest))
  {
    var jr := Join("\n", rest);
    var n := Newlines(k + 1);
    var m := Newlines(if k == 0 then 1 else 2);
    var c := CollapseNewlines(jr);
    JoinLineBlanks(x, k, rest);
    JoinFirst("\n", rest);
    CollapseRunThen(k, jr);
    CollapseLineThen(x, n + jr);
    assert x + (m + c) == x + m + c;
  }

  lemma SqueezeCons(x: string, r: seq<string>)
    requires x != ""
    ensures Squeeze([x] + r) == [x] + Squeeze(r)
  {
    assert ([x] + r)[1..] == r;
  }

  lemma BlankLineBetween(x: string, j: string)
    ensures x + "\n" + ("" + "\n" + j) == x + Newlines(2) + j
  {
    assert Newlines(2) == "\n" + "\n";
  }

  lemma OneNewline(x: string, j: string)
    ensures x + "\n" + j == x + Newlines(1) + j
  {
    assert Newlines(1) == "\n";
  }

  /** The same lines squeezed, then joined. */
  lemma SqueezeStep(x: string, k: nat, rest: seq<string>)
    requires x != ""
    requires rest != [] && rest[0] != ""
    ensures Join("\n", Squeeze([x] + (Blanks(k) + rest)))
      == x + Newlines(if k == 0 then 1 else 2) + Join("\n", Squeeze(rest))
  {
    SqueezeCons(x, Blanks(k) + rest);
    SqueezeBlanksPrefix(k, rest);
    var sq := Squeeze(rest);
    assert Squeeze([x] + (Blanks(k) + rest)) == [x] + ((if k == 0 then [] else [""]) + sq);
    JoinGap(x, k, sq);
  }

  /** One line, at most one blank line, then further lines, joined with newlines. */
  lemma JoinGap(x: string, k: nat, sq: seq<string>)
    requires sq != []
    ensures Join("\n", [x] + ((if k == 0 then [] else [""]) + sq))
      == x + Newlines(if k == 0 then 1 else 2) + Join("\n", sq)
  {
    var j := Join("\n", sq);
    if k == 0 {
      assert [x] + ([] + sq) == [x] + sq;
      JoinCons("\n", x, sq);
      OneNewline(x, j);
    } else {
      JoinCons("\n", x, [""] + sq);
      JoinCons("\n", "", sq);
      BlankLineBetween(x, j);
    }
  }

  /** A line list cut after its first line and the blank lines that follow it. */
  lemma CoreSplit(core: seq<string>) returns (k: nat, rest: seq<string>)
    requires |core| >= 2 && core[|core| - 1] != ""
    requires forall i :: 0 <= i < |core| ==> NoLineBreak(core[i])
    ensures core == [core[0]] + (Blanks(k) + rest)
    ensures rest != [] && rest[0] != "" && rest[|rest| - 1] == core[|core| - 1]
    ensures !IsLineBreak(rest[0][0])
    ensures forall i :: 0 <= i < |rest| ==> NoLineBreak(rest[i])
    ensures |rest| < |core|
  {
    var r := core[1..];
    k := LeadingBlanks(r);
    rest := r[k..];
    assert r == Blanks(k) + rest;
    assert NoLineBreak(rest[0]);
  }

  /** Between two lines that are not blank, the collapse squeezes the blank lines. */
  lemma {:induction false} CollapseCore(core: seq<string>)
    requires core != [] && core[0] != "" && core[|core| - 1] != ""
    requires forall i :: 0 <= i < |core| ==> NoLineBreak(core[i])
    ensures CollapseNewlines(Join("\n", core)) == Join("\n", Squeeze(core))
    decreases |core|
  {
    var x := core[0];
    if |core| == 1 {
      CollapseNoNewline(x);
    } else {
      var k, rest := CoreSplit(core);
      CollapseStep(x, k, rest);
      SqueezeStep(x, k, rest);
      CollapseCore(rest);
    }
  }

  lemma StripPadded(p: string, y: string, q: string)
    requires NoNonSpace(p) && NoNonSpace(q)
    requires y != [] && !IsSpace(y[0]) && !IsSpace(y[|y| - 1])
    ensures Strip(p + y + q) == y
  {
    var s := p + y + q;
    assert s[|p|] == y[0];
    assert SpaceRun(s) == |p|;
    assert LStrip(s) == y + q;
    var l := y + q;
    assert l[|y| - 1] == y[|y| - 1];
    assert TrailingSpaceRun(l) == |q|;
    assert l[..|y|] == y;
  }

  lemma NewlinesAllSpace(k: nat)
    ensures NoNonSpace(Newlines(k))
  {
  }

  /** Newlines around a text that neither starts nor ends with one collapse on their own. */
  lemma CollapsePadded(l: nat, y: string, t: nat)
    requires y != [] && y[0] != '\n' && y[|y| - 1] != '\n'
    ensures CollapseNewlines(Newlines(l) + (y + Newlines(t)))
      == Newlines(if l >= 3 then 2 else l) + CollapseNewlines(y) + Newlines(if t >= 3 then 2 else t)
  {
    CollapseAppend(Newlines(l), y + Newlines(t));
    CollapseAppend(y, Newlines(t));
    CollapseRun(l);
    CollapseRun(t);
  }

  /** The lines between the leading and the trailing blank lines, padded back with blanks. */
  lemma PaddedCore(l: nat, core: seq<string>, t: nat)
    requires core != [] && core[0] != "" && core[|core| - 1] != ""
    requires forall i :: 0 <= i < |core| ==> NoLineBreak(core[i])
    requires !IsSpace(core[0][0]) && !IsSpace(core[|core| - 1][|core[|core| - 1]| - 1])
    ensures Strip(CollapseNewlines(Join("\n", Blanks(l) + (core + Blanks(t))))) == Join("\n", Squeeze(core))
  {
    JoinBlanksPrefix(l, core + Blanks(t));
    JoinBlanksSuffix(core, t);
    var jc := Join("\n", core);
    JoinFirst("\n", core);
    JoinLast("\n", core);
    CollapsePadded(l, jc, t);
    CollapseCore(core);
    var sq := Squeeze(core);
    JoinFirst("\n", sq);
    JoinLast("\n", sq);
    NewlinesAllSpace(if l >= 3 then 2 else l);
    NewlinesAllSpace(if t >= 3 then 2 else t);
    StripPadded(Newlines(if l >= 3 then 2 else l), Join("\n", sq), Newlines(if t >= 3 then 2 else t));
  }

  lemma AllBlankCleanup(ls: seq<string>)
    requires AllBlank(ls)
    ensures Strip(CollapseNewlines(Join("\n", ls))) == ""
  {
    if ls != [] {
      assert ls == Blanks(|ls|);
      JoinBlanks(|ls|);
      CollapseRun(|ls| - 1);
      NewlinesAllSpace(if |ls| - 1 >= 3 then 2 else |ls| - 1);
      StripProperties(CollapseNewlines(Join("\n", ls)));
    }
  }

  /** Lines with no line break and no whitespace at either end. */
  predicate TrimmedLines(ls: seq<string>) {
    forall i :: 0 <= i < |ls| ==> NoLineBreak(ls[i]) && Trimmed(ls[i])
  }

  /** The character-level cleanup of joined trimmed lines is the join of their tidied lines. */
  lemma StripCollapseJoin(ls: seq<string>)
    requires TrimmedLines(ls)
    ensures Strip(CollapseNewlines(Join("\n", ls))) == Join("\n", TidyLines(ls))
  {
    var l := LeadingBlanks(ls);
    var m := ls[l..];
    if l == |ls| {
      AllBlankCleanup(ls);
    } else {
      var t := TrailingBlanks(m);
      var core := m[..|m| - t];
      assert TidyLines(ls) == Squeeze(core);
      assert m[0] == ls[l];
      assert t < |m|;
      assert forall i :: |ls| - t <= i < |ls| ==> ls[i] == m[i - l];
      assert ls[|ls| - 1 - t] == m[|m| - 1 - t];
      assert core == ls[l..|ls| - t];
      CoreOfLines(ls, l, t, core);
      PaddedCore(l, core, t);
    }
  }

  /** Trimmed lines that are not all blank: blank lines, a core that starts and ends with text, blank lines. */
  lemma CoreOfLines(ls: seq<string>, l: nat, t: nat, core: seq<string>)
    requires TrimmedLines(ls)
    requires l + t < |ls|
    requires forall i :: 0 <= i < l ==> ls[i] == ""
    requires forall i :: |ls| - t <= i < |ls| ==> ls[i] == ""
    requires ls[l] != "" && ls[|ls| - 1 - t] != ""
    requires core == ls[l..|ls| - t]
    ensures core != [] && core[0] != "" && core[|core| - 1] != ""
    ensures forall i :: 0 <= i < |core| ==> NoLineBreak(core[i])
    ensures !IsSpace(core[0][0]) && !IsSpace(core[|core| - 1][|core[|core| - 1]| - 1])
    ensures ls == Blanks(l) + (core + Blanks(t))
  {
    forall i | 0 <= i < |core| ensures NoLineBreak(core[i]) {
      assert core[i] == ls[l + i];
    }
    var first, last := core[0], core[|core| - 1];
    assert first == ls[l] && last == ls[|ls| - 1 - t];
    assert Trimmed(first) && Trimmed(last);
    PaddedShape(ls, l, t, core);
  }

  lemma PaddedShape(ls: seq<string>, l: nat, t: nat, core: seq<string>)
    requires l + t <= |ls|
    requires forall i :: 0 <= i < l ==> ls[i] == ""
    requires forall i :: |ls| - t <= i < |ls| ==> ls[i] == ""
    requires core == ls[l..|ls| - t]
    ensures ls == Blanks(l) + (core + Blanks(t))
  {
    var front, back := ls[..l], ls[|ls| - t..];
    assert AllBlank(front) by {
      forall i | 0 <= i < |front| ensures front[i] == "" {
        assert front[i] == ls[i];
      }
    }
    assert AllBlank(back) by {
      forall i | 0 <= i < |back| ensures back[i] == "" {
        assert back[i] == ls[|ls| - t + i];
      }
    }
    AllBlankIsBlanks(front);
    AllBlankIsBlanks(back);
    assert ls == front + (core + back);
  }

  lemma AllBlankIsBlanks(x: seq<string>)
    requires AllBlank(x)
    ensures x == Blanks(|x|)
  {
  }

  // ---------------------------------------------------------------------------
  // No run of three newlines survives
  // ---------------------------------------------------------------------------

  /** At most two newlines, then a character that is not one, cannot start a triple. */
  lemma NoTripleAfterNewlines(m: nat, c: char, q: string)
    requires m <= 2 && c != '\n' && NoTripleNewline(q)
    ensures NoTripleNewline(Newlines(m) + ([c] + q))
  {
    var s := Newlines(m) + ([c] + q);
    assert s[m] == c;
    forall i | m < i < |s| - 2 ensures !(s[i] == '\n' && s[i + 1] == '\n' && s[i + 2] == '\n') {
      assert s[i] == q[i - m - 1] && s[i + 1] == q[i - m] && s[i + 2] == q[i - m + 1];
    }
  }

  /** After `run` newlines, the collapse never completes three in a row. */
  lemma {:induction false} CollapseAfterNoTriple(s: string, run: nat)
    ensures NoTripleNewline(Newlines(if run >= 2 then 2 else run) + CollapseAfter(s, run))
    decreases |s|
  {
    var m := if run >= 2 then 2 else run;
    if s == [] {
      assert Newlines(m) + CollapseAfter(s, run) == Newlines(m);
    } else if s[0] == '\n' {
      var t := CollapseAfter(s[1..], run + 1);
      CollapseAfterNoTriple(s[1..], run + 1);
      if run < 2 {
        assert CollapseAfter(s, run) == "\n" + t;
        NewlinesSucc(run);
        assert Newlines(run) + ("\n" + t) == Newlines(run + 1) + t;
      } else {
        assert CollapseAfter(s, run) == t;
      }
    } else {
      var t := CollapseAfter(s[1..], 0);
      CollapseAfterNoTriple(s[1..], 0);
      assert Newlines(0) + t == t;
      NoTripleAfterNewlines(m, s[0], t);
    }
  }

  /** The collapse leaves no three newlines in a row, and does not add a leading newline. */
  lemma CollapseNoTriple(s: string)
    ensures NoTripleNewline(CollapseNewlines(s))
    ensures s == [] || s[0] != '\n' ==> CollapseNewlines(s) == [] || CollapseNewlines(s)[0] != '\n'
  {
    CollapseAfterNoTriple(s, 0);
    assert Newlines(0) + CollapseNewlines(s) == CollapseNewlines(s);
  }

  lemma NoTripleSlice(s: string, i: nat, j: nat)
    requires i <= j <= |s| && NoTripleNewline(s)
    ensures NoTripleNewline(s[i..j])
  {
    var t := s[i..j];
    forall k | 0 <= k < |t| - 2 ensures !(t[k] == '\n' && t[k + 1] == '\n' && t[k + 2] == '\n') {
      assert t[k] == s[i + k] && t[k + 1] == s[i + k + 1] && t[k + 2] == s[i + k + 2];
    }
  }

  /** The cleaned text has no whitespace at either end and never three newlines in a row. */
  lemma CleanupParagraphsShape(text: string)
    ensures NoTripleNewline(CleanupParagraphs(text))
    ensures Trimmed(CleanupParagraphs(text))
  {
    var c := CollapseNewlines(Join("\n", CleanLines(SplitLines(text))));
    CollapseNoTriple(Join("\n", CleanLines(SplitLines(text))));
    StripProperties(c);
    var i, j :| 0 <= i <= j <= |c| && Strip(c) == c[i..j];
    NoTripleSlice(c, i, j);
  }

  // ---------------------------------------------------------------------------
  // From the text to its lines
  // ---------------------------------------------------------------------------

  predicate AllClean(ls: seq<string>) { forall i :: 0 <= i < |ls| ==> IsClean(ls[i]) }

  lemma CleanLinesClean(ls: seq<string>)
    ensures AllClean(CleanLines(ls)) && TrimmedLines(CleanLines(ls))
  {
    var r := CleanLines(ls);
    forall i | 0 <= i < |r| ensures IsClean(r[i]) && NoLineBreak(r[i]) && Trimmed(r[i]) {
      CleanupIsClean(ls[i]);
      CleanNoLineBreak(r[i]);
    }
  }

  /** The paragraph cleanup is the join of the cleaned lines, tidied. */
  lemma CleanupParagraphsLines(text: string)
    ensures CleanupParagraphs(text) == Join("\n", TidyLines(CleanLines(SplitLines(text))))
  {
    CleanLinesClean(SplitLines(text));
    StripCollapseJoin(CleanLines(SplitLines(text)));
  }

  lemma {:induction false} SqueezeClean(ls: seq<string>)
    requires AllClean(ls)
    ensures AllClean(Squeeze(ls))
    decreases |ls|
  {
    if ls != [] {
      assert AllClean(ls[1..]) by {
        forall i | 0 <= i < |ls| - 1 ensures IsClean(ls[1..][i]) { assert ls[1..][i] == ls[i + 1]; }
      }
      SqueezeClean(ls[1..]);
    }
  }

  lemma TidyClean(ls: seq<string>)
    requires AllClean(ls)
    ensures AllClean(TidyLines(ls))
  {
    var l := LeadingBlanks(ls);
    var m := ls[l..];
    var core := m[..|m| - TrailingBlanks(m)];
    assert AllClean(core) by {
      forall i | 0 <= i < |core| ensures IsClean(core[i]) { assert core[i] == ls[l + i]; }
    }
    SqueezeClean(core);
  }

  /** Read back line by line, the cleaned text is exactly the tidied cleaned lines. */
  lemma CleanupParagraphsLinesOf(text: string)
    ensures SplitLines(CleanupParagraphs(text)) == TidyLines(CleanLines(SplitLines(text)))
    ensures CleanupParagraphs(text) == Join("\n", SplitLines(CleanupParagraphs(text)))
    ensures IsTidy(SplitLines(CleanupParagraphs(text)))
    ensures AllClean(SplitLines(CleanupParagraphs(text)))
  {
    var ls := CleanLines(SplitLines(text));
    var t := TidyLines(ls);
    CleanupParagraphsLines(text);
    CleanLinesClean(SplitLines(text));
    TidyClean(ls);
    if t != [] {
      forall k | 0 <= k < |t| ensures NoLineBreak(t[k]) {
        CleanNoLineBreak(t[k]);
      }
      SplitLinesOfJoined(t);
    }
  }

  /** The letter comes out empty exactly when every line of the input is whitespace only. */
  lemma CleanupParagraphsEmpty(text: string)
    ensures CleanupParagraphs(text) == "" <==>
      forall i :: 0 <= i < |SplitLines(text)| ==> NoNonSpace(SplitLines(text)[i])
  {
    var ls := CleanLines(SplitLines(text));
    var t := TidyLines(ls);
    CleanupParagraphsLines(text);
    forall i | 0 <= i < |ls| ensures ls[i] == "" <==> NoNonSpace(SplitLines(text)[i]) {
      CleanupIsClean(SplitLines(text)[i]);
    }
    if t != [] {
      JoinFirst("\n", t);
    }
  }

  lemma CleanLinesOfClean(ls: seq<string>)
    requires AllClean(ls)
    ensures CleanLines(ls) == ls
  {
    forall i | 0 <= i < |ls| ensures Cleanup(ls[i]) == ls[i] {
      CleanupOfClean(ls[i]);
    }
  }

  lemma TidyOfTidy(ls: seq<string>)
    requires IsTidy(ls)
    ensures TidyLines(ls) == ls
  {
    if ls != [] {
      assert LeadingBlanks(ls) == 0 && TrailingBlanks(ls) == 0;
      assert ls[0..] == ls && ls[..|ls| - 0] == ls;
      SqueezeOfTidy(ls);
    }
  }

  /** Cleaning an already cleaned text changes nothing. */
  lemma CleanupParagraphsIdempotent(text: string)
    ensures CleanupParagraphs(CleanupParagraphs(text)) == CleanupParagraphs(text)
  {
    var o := CleanupParagraphs(text);
    CleanupParagraphsLinesOf(text);
    var t := SplitLines(o);
    CleanLinesOfClean(t);
    TidyOfTidy(t);
    CleanupParagraphsLines(o);
  }

  // ---------------------------------------------------------------------------
  // Tidying around known lines
  // ---------------------------------------------------------------------------

  lemma CleanLinesAppend(a: seq<string>, b: seq<string>)
    ensures CleanLines(a + b) == CleanLines(a) + CleanLines(b)
  {
    var r := CleanLines(a + b);
    assert forall i :: 0 <= i < |a| ==> r[i] == Cleanup(a[i]);
    assert forall i :: |a| <= i < |r| ==> r[i] == Cleanup(b[i - |a|]);
  }

  /** A first line that is not blank stays the first line. */
  lemma TidyLinesHead(ls: seq<string>)
    requires ls != [] && ls[0] != ""
    ensures TidyLines(ls) != [] && TidyLines(ls)[0] == ls[0]
  {
    assert LeadingBlanks(ls) == 0 && ls[0..] == ls;
    var core := ls[..|ls| - TrailingBlanks(ls)];
    assert core != [] && core[0] == ls[0];
  }

  lemma {:induction false} LeadingBlanksAppend(z: seq<string>, w: seq<string>)
    requires !AllBlank(z)
    ensures LeadingBlanks(z + w) == LeadingBlanks(z)
    decreases |z|
  {
    assert (z + w)[0] == z[0];
    if z[0] == "" {
      assert (z + w)[1..] == z[1..] + w;
      LeadingBlanksAppend(z[1..], w);
    }
  }

  lemma DropBlankEndsNoTrailing(ls: seq<string>)
    requires ls != [] && ls[|ls| - 1] != ""
    ensures DropBlankEnds(ls) == ls[LeadingBlanks(ls)..]
  {
    var m := ls[LeadingBlanks(ls)..];
    assert m != [] && m[|m| - 1] == ls[|ls| - 1];
    assert TrailingBlanks(m) == 0;
    assert m[..|m| - 0] == m;
  }

  lemma TidyNoTrailing(ls: seq<string>)
    requires ls != [] && ls[|ls| - 1] != ""
    ensures TidyLines(ls) == Squeeze(ls[LeadingBlanks(ls)..])
  {
    DropBlankEndsNoTrailing(ls);
  }

  /** Tidy lines at the end stay at the end. */
  lemma TidyLinesEnd(x: seq<string>, y: seq<string>)
    requires y != [] && IsTidy(y)
    ensures var r := TidyLines(x + y); |r| >= |y| && r[|r| - |y|..] == y
  {
    var z := x + y;
    assert z[|z| - 1] == y[|y| - 1];
    TidyNoTrailing(z);
    SqueezeOfTidy(y);
    if AllBlank(x) {
      assert LeadingBlanks(z) == |x| by {
        assert forall i :: 0 <= i < |x| ==> z[i] == "";
        assert z[|x|] == y[0];
      }
      assert z[|x|..] == y;
    } else {
      var l := LeadingBlanks(x);
      LeadingBlanksAppend(x, y);
      assert z[l..] == x[l..] + y;
      SqueezeAppend(x[l..], y);
    }
  }

  /** A blank last line makes no difference. */
  lemma TidyLinesDropBlank(z: seq<string>)
    ensures TidyLines(z + [""]) == TidyLines(z)
  {
    DropBlankEndsSnoc(z, z + [""]);
  }

  lemma DropBlankEndsSnoc(z: seq<string>, z': seq<string>)
    requires z' == z + [""]
    ensures DropBlankEnds(z') == DropBlankEnds(z)
  {
    if AllBlank(z) {
      assert AllBlank(z');
      AllBlankEnds(z);
      AllBlankEnds(z');
    } else {
      var l := LeadingBlanks(z);
      LeadingBlanksAppend(z, [""]);
      var m := z[l..];
      var m' := z'[l..];
      assert m' == m + [""];
      TrailingBlanksSnoc(m, m');
    }
  }

  lemma AllBlankEnds(ls: seq<string>)
    requires AllBlank(ls)
    ensures DropBlankEnds(ls) == []
  {
    assert LeadingBlanks(ls) == |ls|;
  }

  lemma TrailingBlanksSnoc(m: seq<string>, m': seq<string>)
    requires m' == m + [""]
    ensures TrailingBlanks(m') == 1 + TrailingBlanks(m)
    ensures m'[..|m'| - TrailingBlanks(m')] == m[..|m| - TrailingBlanks(m)]
  {
    TrailingBlanksOfSnoc(m, m');
    SliceOfAppend(m, [""], |m| - TrailingBlanks(m));
  }

  lemma TrailingBlanksOfSnoc(m: seq<string>, m': seq<string>)
    requires m' == m + [""]
    ensures TrailingBlanks(m') == 1 + TrailingBlanks(m)
  {
    assert m'[..|m'| - 1] == m;
  }

  /** Squeezing leaves a prefix alone when it has no two blank lines in a row and ends on a text line. */
  lemma {:induction false} SqueezeTidyFront(x: seq<string>, w: seq<string>)
    requires x != [] && NoDoubleBlank(x) && x[|x| - 1] != ""
    ensures Squeeze(x + w) == x + Squeeze(w)
    decreases |x|
  {
    var z := x + w;
    assert z[0] == x[0] && z[1..] == x[1..] + w;
    if |x| >= 2 {
      assert z[1] == x[1];
      SqueezeTidyFront(x[1..], w);
    }
  }

  /** Tidy lines at the start stay at the start. */
  lemma TidyLinesFront(x: seq<string>, y: seq<string>)
    requires x != [] && IsTidy(x)
    ensures var r := TidyLines(x + y); |r| >= |x| && r[..|x|] == x
  {
    var z := x + y;
    assert z[0] == x[0];
    assert LeadingBlanks(z) == 0;
    assert z[0..] == z;
    var t := TrailingBlanks(z);
    assert z[|x| - 1] == x[|x| - 1];
    assert t <= |y|;
    assert z[..|z| - t] == x + y[..|y| - t];
    SqueezeTidyFront(x, y[..|y| - t]);
  }

  /** Splitting newline-joined lines gives back the single-line ones at the front. */
  lemma {:induction false} SplitLinesJoinedFront(p: seq<string>, q: seq<string>)
    requires q != []
    requires forall i :: 0 <= i < |p| ==> NoLineBreak(p[i])
    ensures SplitLines(Join("\n", p + q) + "\n") == p + SplitLines(Join("\n", q) + "\n")
    decreases |p|
  {
    if p == [] {
      assert p + q == q;
    } else {
      SplitLinesJoinedFront(p[1..], q);
      SplitFrontStep(p[0], p[1..], q, SplitLines(Join("\n", q) + "\n"));
      assert [p[0]] + p[1..] == p;
    }
  }

  lemma SplitFrontStep(x: string, p: seq<string>, q: seq<string>, t: seq<string>)
    requires NoLineBreak(x) && q != []
    requires SplitLines(Join("\n", p + q) + "\n") == p + t
    ensures SplitLines(Join("\n", [x] + p + q) + "\n") == [x] + p + t
  {
    var r := p + q;
    assert [x] + p + q == [x] + r;
    SplitJoinedCons(x, r);
    assert [x] + (p + t) == [x] + p + t;
  }

  lemma SplitJoinedCons(x: string, xs: seq<string>)
    requires NoLineBreak(x) && xs != []
    ensures SplitLines(Join("\n", [x] + xs) + "\n") == [x] + SplitLines(Join("\n", xs) + "\n")
  {
    var rest := Join("\n", xs) + "\n";
    JoinEnds("\n", [x] + xs);
    assert ([x] + xs)[1..] == xs;
    assert x + "\n" + Join("\n", xs) + "\n" == x + ("\n" + rest);
    SplitLinesCons(x, rest);
  }

  /**
   * Single-line paragraphs at the front of a newline-terminated text that clean to tidy
   * lines are the first lines of the cleaned text, each whitespace-collapsed.
   */
  lemma CleanupParagraphsFront(bl: seq<string>, k: nat)
    requires 0 < k < |bl|
    requires forall i :: 0 <= i < k ==> NoLineBreak(bl[i])
    requires IsTidy(CleanLines(bl[..k]))
    ensures var lines := SplitLines(CleanupParagraphs(Join("\n", bl) + "\n"));
      |lines| >= k && lines[..k] == CleanLines(bl[..k])
  {
    var body := Join("\n", bl) + "\n";
    var tail := SplitLines(Join("\n", bl[k..]) + "\n");
    assert bl == bl[..k] + bl[k..];
    SplitLinesJoinedFront(bl[..k], bl[k..]);
    CleanLinesAppend(bl[..k], tail);
    CleanupParagraphsLinesOf(body);
    TidyLinesFront(CleanLines(bl[..k]), CleanLines(tail));
  }
}
