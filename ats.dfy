/**
 * The ATS score of the resume generator (`ats_optimization_score`): keyword overlap
 * between a resume and a job description plus four structural checks.
 */
module Ats {
  import opened Text
  import opened Keywords

  datatype AtsScoreResult = AtsScoreResult(
    score: int,
    matchedKeywords: seq<string>,
    missingKeywords: seq<string>,
    notes: seq<string>)

  // ---------------------------------------------------------------------------
  // Python string order and `sorted`
  // ---------------------------------------------------------------------------

  /** Python's `<` on `str`: code point by code point, a proper prefix first. */
  predicate LexLess(a: string, b: string)
    decreases |a|
  {
    if a == [] then b != []
    else if b == [] then false
    else if a[0] != b[0] then a[0] < b[0]
    else LexLess(a[1..], b[1..])
  }

  lemma {:induction false} LexLessIrreflexive(a: string)
    ensures !LexLess(a, a)
    decreases |a|
  {
    if a != [] {
      LexLessIrreflexive(a[1..]);
    }
  }

  lemma {:induction false} LexLessTransitive(a: string, b: string, c: string)
    requires LexLess(a, b) && LexLess(b, c)
    ensures LexLess(a, c)
    decreases |a|
  {
    if a != [] && b != [] && c != [] && a[0] == b[0] && b[0] == c[0] {
      LexLessTransitive(a[1..], b[1..], c[1..]);
    }
  }

  lemma {:induction false} LexLessTotal(a: string, b: string)
    requires a != b
    ensures LexLess(a, b) || LexLess(b, a)
    decreases |a|
  {
    if a != [] && b != [] && a[0] == b[0] {
      assert a == [a[0]] + a[1..] && b == [b[0]] + b[1..];
      LexLessTotal(a[1..], b[1..]);
    }
  }

  lemma LexLessAsymmetric(a: string, b: string)
    requires LexLess(a, b)
    ensures !LexLess(b, a)
  {
    if LexLess(b, a) {
      LexLessTransitive(a, b, a);
      LexLessIrreflexive(a);
    }
  }

  predicate StrictlySorted(s: seq<string>) {
    forall i, j :: 0 <= i < j < |s| ==> LexLess(s[i], s[j])
  }

  function InsertSorted(x: string, s: seq<string>): (r: seq<string>)
    ensures multiset(r) == multiset(s) + multiset{x}
  {
    if s == [] then [x]
    else
      assert s == [s[0]] + s[1..];
      if LexLess(s[0], x) then [s[0]] + InsertSorted(x, s[1..]) else [x] + s
  }

  /** `sorted(xs)` by insertion. */
  function SortStrings(xs: seq<string>): (r: seq<string>)
    ensures multiset(r) == multiset(xs)
  {
    if xs == [] then []
    else
      assert xs == xs[..|xs| - 1] + [xs[|xs| - 1]];
      InsertSorted(xs[|xs| - 1], SortStrings(xs[..|xs| - 1]))
  }

  lemma {:induction false} InsertSortedSorted(x: string, s: seq<string>)
    requires StrictlySorted(s) && x !in s
    ensures StrictlySorted(InsertSorted(x, s))
  {
    if s != [] {
      if LexLess(s[0], x) {
        var q := InsertSorted(x, s[1..]);
        InsertSortedSorted(x, s[1..]);
        assert InsertSorted(x, s) == [s[0]] + q;
        forall j | 0 < j < |q| + 1
          ensures LexLess(s[0], ([s[0]] + q)[j])
        {
          var y := q[j - 1];
          assert y in multiset(q);
          if y != x {
            var k :| 1 <= k < |s| && s[k] == y;
          }
        }
        forall i, j | 0 <= i < j < |q| + 1
          ensures LexLess(([s[0]] + q)[i], ([s[0]] + q)[j])
        {
          if i > 0 {
            assert ([s[0]] + q)[i] == q[i - 1] && ([s[0]] + q)[j] == q[j - 1];
          }
        }
      } else {
        LexLessTotal(s[0], x);
        forall i, j | 0 <= i < j < |s| + 1
          ensures LexLess(([x] + s)[i], ([x] + s)[j])
        {
          if i == 0 && j > 1 {
            LexLessTransitive(x, s[0], s[j - 1]);
          }
        }
      }
    }
  }

  /** `sorted` of distinct words is strictly increasing. */
  lemma {:induction false} SortStringsSorted(xs: seq<string>)
    requires NoDup(xs)
    ensures StrictlySorted(SortStrings(xs))
  {
    if xs != [] {
      var p := xs[..|xs| - 1];
      var e := xs[|xs| - 1];
      assert NoDup(p);
      SortStringsSorted(p);
      assert e !in multiset(SortStrings(p)) by {
        assert e !in p;
      }
      InsertSortedSorted(e, SortStrings(p));
    }
  }

  /** A set has exactly one strictly increasing listing. */
  lemma {:induction false} SortedListingUnique(a: seq<string>, b: seq<string>)
    requires StrictlySorted(a) && StrictlySorted(b)
    requires forall x :: x in a <==> x in b
    ensures a == b
  {
    assert (a == []) == (b == []) by {
      if a != [] { assert a[0] in b; }
      if b != [] { assert b[0] in a; }
    }
    if a != [] && b != [] {
      assert b[0] in a by { assert b[0] in b; }
      assert a[0] in b by { assert a[0] in a; }
      if a[0] != b[0] {
        var i :| 0 <= i < |a| && a[i] == b[0];
        var j :| 0 <= j < |b| && b[j] == a[0];
        assert LexLess(a[0], b[0]) && LexLess(b[0], a[0]);
        LexLessAsymmetric(a[0], b[0]);
      }
      assert a == [a[0]] + a[1..] && b == [b[0]] + b[1..];
      forall x
        ensures x in a[1..] <==> x in b[1..]
      {
        if x in a[1..] {
          var k :| 0 <= k < |a| - 1 && a[1..][k] == x;
          assert LexLess(a[0], a[k + 1]);
          LexLessIrreflexive(x);
          assert x in b;
          var j :| 0 <= j < |b| && b[j] == x;
          assert b[1..][j - 1] == x;
        }
        if x in b[1..] {
          var k :| 0 <= k < |b| - 1 && b[1..][k] == x;
          assert LexLess(b[0], b[k + 1]);
          LexLessIrreflexive(x);
          assert x in a;
          var j :| 0 <= j < |a| && a[j] == x;
          assert a[1..][j - 1] == x;
        }
      }
      SortedListingUnique(a[1..], b[1..]);
    }
  }

  // ---------------------------------------------------------------------------
  // Keyword overlap
  // ---------------------------------------------------------------------------

  function Filter(xs: seq<string>, keep: set<string>, inside: bool): (r: seq<string>)
    ensures forall x :: x in r <==> x in xs && (x in keep <==> inside)
    ensures NoDup(xs) ==> NoDup(r)
  {
    if xs == [] then []
    else
      var rest := Filter(xs[1..], keep, inside);
      assert xs == [xs[0]] + xs[1..];
      assert NoDup(xs) ==> NoDup(xs[1..]) && xs[0] !in rest;
      if (xs[0] in keep) == inside then [xs[0]] + rest else rest
  }

  function SeqSet(xs: seq<string>): set<string> {
    set x | x in xs
  }

  /** `sorted(set(rk) & set(jk))`. */
  function Matched(rk: seq<string>, jk: seq<string>): seq<string> {
    SortStrings(Filter(jk, SeqSet(rk), true))
  }

  /** `sorted(set(jk) - set(rk))`. */
  function Missing(rk: seq<string>, jk: seq<string>): seq<string> {
    SortStrings(Filter(jk, SeqSet(rk), false))
  }

  /**
   * Both lists are the sorted listings of the intersection and the difference: strictly
   * increasing, disjoint, and together exactly the job-description keywords.
   */
  lemma OverlapProperties(rk: seq<string>, jk: seq<string>)
    requires NoDup(jk)
    ensures StrictlySorted(Matched(rk, jk)) && StrictlySorted(Missing(rk, jk))
    ensures forall x :: x in Matched(rk, jk) <==> x in rk && x in jk
    ensures forall x :: x in Missing(rk, jk) <==> x !in rk && x in jk
    ensures |Matched(rk, jk)| + |Missing(rk, jk)| == |SeqSet(jk)|
    ensures forall s :: StrictlySorted(s) && (forall x :: x in s <==> x in rk && x in jk) ==> s == Matched(rk, jk)
  {
    var f := Filter(jk, SeqSet(rk), true);
    var g := Filter(jk, SeqSet(rk), false);
    SortStringsSorted(f);
    SortStringsSorted(g);
    forall x
      ensures x in Matched(rk, jk) <==> x in f
      ensures x in Missing(rk, jk) <==> x in g
    {
      assert x in Matched(rk, jk) <==> x in multiset(Matched(rk, jk));
      assert x in Missing(rk, jk) <==> x in multiset(Missing(rk, jk));
    }
    forall s | StrictlySorted(s) && (forall x :: x in s <==> x in rk && x in jk)
      ensures s == Matched(rk, jk)
    {
      SortedListingUnique(s, Matched(rk, jk));
    }
    FilterPartition(jk, SeqSet(rk));
    NoDupCard(jk);
    assert |Matched(rk, jk)| == |multiset(Matched(rk, jk))| == |multiset(f)| == |f|;
    assert |Missing(rk, jk)| == |multiset(Missing(rk, jk))| == |multiset(g)| == |g|;
  }

  lemma {:induction false} FilterPartition(xs: seq<string>, keep: set<string>)
    ensures |Filter(xs, keep, true)| + |Filter(xs, keep, false)| == |xs|
  {
    if xs != [] {
      FilterPartition(xs[1..], keep);
    }
  }

  lemma {:induction false} NoDupCard(xs: seq<string>)
    requires NoDup(xs)
    ensures |SeqSet(xs)| == |xs|
  {
    if xs != [] {
      var p := xs[..|xs| - 1];
      var e := xs[|xs| - 1];
      assert NoDup(p);
      NoDupCard(p);
      assert xs == p + [e];
      assert e !in p;
      assert SeqSet(xs) == SeqSet(p) + {e};
    }
  }

  // ---------------------------------------------------------------------------
  // Base score: `int(round(70 * matched / max(1, n)))`
  // ---------------------------------------------------------------------------

  /** `round(a / b)` with ties to even, on the exact ratio. */
  function RoundHalfEven(a: nat, b: nat): nat
    requires b > 0
  {
    var q := a / b;
    var rem := a % b;
    if 2 * rem > b then q + 1
    else if 2 * rem < b then q
    else if q % 2 == 0 then q
    else q + 1
  }

  function BaseScore(m: nat, n: nat): nat {
    RoundHalfEven(70 * m, if n < 1 then 1 else n)
  }

  lemma MulStep(x: nat, y: nat, n: nat)
    requires x < y
    ensures x * n + n <= y * n
  {
    var d := y - x - 1;
    assert y * n == x * n + d * n + n;
  }

  lemma DivUnique(a: nat, n: nat, q: nat, r: nat)
    requires n > 0 && r < n && a == q * n + r
    ensures a / n == q && a % n == r
  {
    var q', r' := a / n, a % n;
    assert a == q' * n + r';
    if q' > q {
      MulStep(q, q', n);
    } else if q' < q {
      MulStep(q', q, n);
    }
  }

  /**
   * With at most 80 keywords the base score is between 0 and 70, it is 70 exactly when
   * every keyword is matched, and 0 exactly when none is.
   */
  lemma BaseScoreBounds(m: nat, n: nat)
    requires 1 <= n <= 80 && m <= n
    ensures BaseScore(m, n) <= 70
    ensures BaseScore(m, n) == 70 <==> m == n
    ensures BaseScore(m, n) == 0 <==> m == 0
  {
    var a := 70 * m;
    var q := a / n;
    var rem := a % n;
    assert a == q * n + rem && rem < n;
    if m == n {
      DivUnique(a, n, 70, 0);
    } else if m == 0 {
      DivUnique(a, n, 0, 0);
    } else {
      assert a <= 70 * n - 70;
      if q >= 70 {
        MulStep(69, q, n);
      }
      assert q <= 69;
      if q == 69 {
        assert 2 * rem < n;
      }
      if q == 0 {
        assert rem == a;
      }
    }
  }
  /** The base score of extracted keywords never exceeds 70, and is 70 iff nothing is missing. */
  lemma KeywordBaseScore(rk: seq<string>, jdText: string)
    ensures var jk := TopKeywords(jdText);
      && BaseScore(|Matched(rk, jk)|, |SeqSet(jk)|) <= 70
      && (jk != [] ==> (BaseScore(|Matched(rk, jk)|, |SeqSet(jk)|) == 70 <==> Missing(rk, jk) == []))
  {
    var jk := TopKeywords(jdText);
    KeywordsProperties(jdText);
    OverlapProperties(rk, jk);
    NoDupCard(jk);
    if jk != [] {
      assert jk[0] in SeqSet(jk);
      BaseScoreBounds(|Matched(rk, jk)|, |SeqSet(jk)|);
    } else {
      assert SeqSet(jk) == {};
    }
  }

  // ---------------------------------------------------------------------------
  // Structural checks
  // ---------------------------------------------------------------------------

  /** `\w` restricted to ASCII. */
  predicate IsWordChar(c: char) { IsAlnum(c) || c == '_' }

  /** `p` occurs at `i` with a word boundary on both sides (for a `p` that starts and ends with word characters). */
  predicate WordAt(s: string, p: string, i: nat) {
    && i + |p| <= |s|
    && s[i..i + |p|] == p
    && (i == 0 || !IsWordChar(s[i - 1]))
    && (i + |p| == |s| || !IsWordChar(s[i + |p|]))
  }

  /** `re.search(r"\bp\b", s)` succeeds. */
  predicate ContainsWord(s: string, p: string) {
    exists i: nat :: i + |p| <= |s| && WordAt(s, p, i)
  }

  predicate HasExperience(s: string) {
    ContainsWord(s, "experience") || ContainsWord(s, "employment") || ContainsWord(s, "work history")
  }

  predicate HasEducation(s: string) {
    ContainsWord(s, "education") || ContainsWord(s, "qualifications")
  }

  predicate HasSkills(s: string) {
    ContainsWord(s, "skills") || ContainsWord(s, "competencies") || ContainsWord(s, "core skills")
  }

  /** Position of a section name in the fixed check order experience, education, skills. */
  function SectionRank(name: string): nat {
    if name == "experience" then 0 else if name == "education" then 1 else 2
  }

  /** Section names whose pattern is absent, in the order experience, education, skills. */
  function MissingSections(s: string): (r: seq<string>)
    ensures "experience" in r <==> !HasExperience(s)
    ensures "education" in r <==> !HasEducation(s)
    ensures "skills" in r <==> !HasSkills(s)
    ensures |r| <= 3
    ensures r == [] <==> HasExperience(s) && HasEducation(s) && HasSkills(s)
    ensures forall k :: 0 <= k < |r| ==> r[k] in {"experience", "education", "skills"}
    ensures forall j, k :: 0 <= j < k < |r| ==> SectionRank(r[j]) < SectionRank(r[k])
  {
    (if HasExperience(s) then [] else ["experience"])
    + (if HasEducation(s) then [] else ["education"])
    + (if HasSkills(s) then [] else ["skills"])
  }

  function CountLong(lines: seq<string>, threshold: nat): (n: nat)
    ensures n <= |lines|
    ensures n == 0 <==> forall k :: 0 <= k < |lines| ==> |lines[k]| <= threshold
  {
    if lines == [] then 0
    else (if |lines[0]| > threshold then 1 else 0) + CountLong(lines[1..], threshold)
  }

  /** `_count_long_lines(text, 120)`. */
  function CountLongLines(text: string): nat {
    CountLong(SplitLines(text), 120)
  }

  predicate IsSymbol(c: char) { !IsAlnum(c) && !IsSpace(c) }

  function SymbolCount(s: string): (n: nat)
    ensures n <= |s|
  {
    if s == [] then 0 else (if IsSymbol(s[0]) then 1 else 0) + SymbolCount(s[1..])
  }

  /** `_symbol_density(text) < 0.06`; empty text has density 0. */
  predicate LowSymbolDensity(text: string) {
    text == [] || 100 * SymbolCount(text) < 6 * |text|
  }

  /** No symbol is counted exactly when the text has none. */
  lemma {:induction false} SymbolCountZero(s: string)
    ensures SymbolCount(s) == 0 <==> forall i :: 0 <= i < |s| ==> !IsSymbol(s[i])
  {
    if s != [] {
      SymbolCountZero(s[1..]);
      assert forall i :: 1 <= i < |s| ==> s[i] == s[1..][i - 1];
    }
  }

  /** Every character is counted exactly when every character is a symbol. */
  lemma {:induction false} SymbolCountAll(s: string)
    ensures SymbolCount(s) == |s| <==> forall i :: 0 <= i < |s| ==> IsSymbol(s[i])
  {
    if s != [] {
      SymbolCountAll(s[1..]);
      assert forall i :: 1 <= i < |s| ==> s[i] == s[1..][i - 1];
    }
  }

  /** Text without symbols passes the density test; non-empty text of symbols only fails it. */
  lemma LowSymbolDensityCases(text: string)
    ensures (forall i :: 0 <= i < |text| ==> !IsSymbol(text[i])) ==> LowSymbolDensity(text)
    ensures text != [] && (forall i :: 0 <= i < |text| ==> IsSymbol(text[i])) ==> !LowSymbolDensity(text)
  {
    SymbolCountZero(text);
    SymbolCountAll(text);
  }

  /** `len(_word_re.findall(text))`. */
  function WordCount(text: string): nat {
    |FindTokens(text)|
  }

  predicate GoodWordCount(text: string) {
    250 <= WordCount(text) <= 950
  }

  // ---------------------------------------------------------------------------
  // Notes
  // ---------------------------------------------------------------------------

  /** The notes the scorer can write, one constructor per message. */
  datatype Note =
    | EmptyJobDescription
    | MissingSectionHeadings(sections: seq<string>)
    | LongLines(count: nat)
    | HighSymbolDensity
    | WordCountOutOfRange(count: nat)
    | LooksFriendly

  /** The message text of each note. */
  function NoteText(n: Note): string {
    match n
    case EmptyJobDescription => "Job description is empty or not readable; cannot compute ATS match."
    case MissingSectionHeadings(sections) => "Missing common section headings: " + Join(", ", sections) + "."
    case LongLines(count) => "Found " + NatToString(count) + " very long lines (>120 chars). Consider wrapping text."
    case HighSymbolDensity => "High symbol density detected. Avoid heavy tables/graphics for ATS-friendly resumes."
    case WordCountOutOfRange(count) =>
      "Resume word count is " + NatToString(count) + ". Typical ranges are ~250–950 depending on seniority."
    case LooksFriendly => "Looks reasonably ATS-friendly. Improve by adding missing key terms naturally."
  }

  function NoteTexts(ns: seq<Note>): (r: seq<string>)
    ensures |r| == |ns|
    ensures forall i :: 0 <= i < |ns| ==> r[i] == NoteText(ns[i])
  {
    seq(|ns|, i requires 0 <= i < |ns| => NoteText(ns[i]))
  }

  /** The points the four checks award, 10, 8, 6 and 6. */
  function StructurePoints(resumeText: string): (p: nat)
    ensures p <= 30
  {
    (if MissingSections(Normalize(resumeText)) == [] then 10 else 0)
    + (if CountLongLines(resumeText) == 0 then 8 else 0)
    + (if LowSymbolDensity(resumeText) then 6 else 0)
    + (if GoodWordCount(resumeText) then 6 else 0)
  }

  function SectionNotes(resumeText: string): seq<Note> {
    var missing := MissingSections(Normalize(resumeText));
    if missing == [] then [] else [MissingSectionHeadings(missing)]
  }

  function LineNotes(resumeText: string): seq<Note> {
    if CountLongLines(resumeText) == 0 then [] else [LongLines(CountLongLines(resumeText))]
  }

  function DensityNotes(resumeText: string): seq<Note> {
    if LowSymbolDensity(resumeText) then [] else [HighSymbolDensity]
  }

  function WordCountNotes(resumeText: string): seq<Note> {
    if GoodWordCount(resumeText) then [] else [WordCountOutOfRange(WordCount(resumeText))]
  }

  /** The notes of the failed checks, in check order. */
  function StructureNotes(resumeText: string): seq<Note> {
    SectionNotes(resumeText) + LineNotes(resumeText) + DensityNotes(resumeText) + WordCountNotes(resumeText)
  }

  predicate AllChecksPass(resumeText: string) {
    && HasExperience(Normalize(resumeText)) && HasEducation(Normalize(resumeText)) && HasSkills(Normalize(resumeText))
    && (forall k :: 0 <= k < |SplitLines(resumeText)| ==> |SplitLines(resumeText)[k]| <= 120)
    && LowSymbolDensity(resumeText)
    && GoodWordCount(resumeText)
  }

  /** Each check awards its points iff it passes, and no note is written iff all pass. */
  lemma StructureProperties(resumeText: string)
    ensures StructurePoints(resumeText) == 30 <==> AllChecksPass(resumeText)
    ensures StructureNotes(resumeText) == [] <==> AllChecksPass(resumeText)
    ensures |StructureNotes(resumeText)| <= 4
  {
  }

  // ---------------------------------------------------------------------------
  // The score
  // ---------------------------------------------------------------------------

  function Min(a: int, b: int): int { if a < b then a else b }

  /** The formatting and structure heuristics of `ats_optimization_score`, in order. */
  method CheckStructure(resumeText: string) returns (structurePoints: nat, notes: seq<Note>)
    ensures structurePoints == StructurePoints(resumeText)
    ensures notes == StructureNotes(resumeText)
  {
    var resumeClean := Normalize(resumeText);
    notes := [];
    structurePoints := 0;

    var missingSections := MissingSections(resumeClean);
    if missingSections != [] {
      notes := notes + [MissingSectionHeadings(missingSections)];
    } else {
      structurePoints := structurePoints + 10;
    }
    assert notes == SectionNotes(resumeText);

    var longLines := CountLongLines(resumeText);
    if longLines == 0 {
      structurePoints := structurePoints + 8;
    } else {
      notes := notes + [LongLines(longLines)];
    }
    assert notes == SectionNotes(resumeText) + LineNotes(resumeText);

    if LowSymbolDensity(resumeText) {
      structurePoints := structurePoints + 6;
    } else {
      notes := notes + [HighSymbolDensity];
    }
    assert notes == SectionNotes(resumeText) + LineNotes(resumeText) + DensityNotes(resumeText);

    var wordCount := WordCount(resumeText);
    if 250 <= wordCount <= 950 {
      structurePoints := structurePoints + 6;
    } else {
      notes := notes + [WordCountOutOfRange(wordCount)];
    }
  }

  /** `ats_optimization_score`. */
  method AtsOptimizationScore(resumeText: string, jobDescription: string) returns (res: AtsScoreResult)
    ensures 0 <= res.score <= 100
    ensures TopKeywords(Normalize(jobDescription)) == [] ==>
      res == AtsScoreResult(0, [], [], NoteTexts([EmptyJobDescription]))
    ensures TopKeywords(Normalize(jobDescription)) != [] ==>
      var rk := TopKeywords(Normalize(resumeText));
      var jk := TopKeywords(Normalize(jobDescription));
      && res.score == Min(100, BaseScore(|Matched(rk, jk)|, |SeqSet(jk)|) + StructurePoints(resumeText))
      && res.matchedKeywords == Take(Matched(rk, jk), 30)
      && res.missingKeywords == Take(Missing(rk, jk), 20)
      && res.notes == NoteTexts(if AllChecksPass(resumeText) then [LooksFriendly] else StructureNotes(resumeText))
  {
    var resumeClean := Normalize(resumeText);
    var jdClean := Normalize(jobDescription);
    var resumeKeywords := ExtractKeywords(resumeClean);
    var jdKeywords := ExtractKeywords(jdClean);
    if jdKeywords == [] {
      return AtsScoreResult(0, [], [], NoteTexts([EmptyJobDescription]));
    }
    var matched := Matched(resumeKeywords, jdKeywords);
    var missing := Missing(resumeKeywords, jdKeywords);
    var distinctJd := |SeqSet(jdKeywords)|;
    var score := BaseScore(|matched|, distinctJd);
    KeywordBaseScore(resumeKeywords, jdClean);

    var structurePoints, notes := CheckStructure(resumeText);
    score := Min(100, score + structurePoints);
    StructureProperties(resumeText);
    res := AtsScoreResult(score, Take(matched, 30), Take(missing, 20), NoteTexts(if notes == [] then [LooksFriendly] else notes));
  }
}
