/**
 * Text normalisation and keyword extraction of the resume generator:
 * `_normalize_text` and `_extract_keywords`.
 */
module Keywords {
  import opened Text

  // ---------------------------------------------------------------------------
  // Normalisation
  // ---------------------------------------------------------------------------

  /** The three typographic characters the generator maps to ASCII. */
  predicate IsSpecial(c: char) { c == '\U{2019}' || c == '\U{2013}' || c == '\U{2014}' }

  predicate NoSpecial(s: string) { forall i :: 0 <= i < |s| ==> !IsSpecial(s[i]) }

  /** Right single quote becomes an apostrophe, en and em dashes become hyphens. */
  function AsciiPunct(c: char): (r: char)
    ensures !IsSpecial(r)
    ensures !IsSpecial(c) ==> r == c
    ensures IsUpper(r) ==> IsUpper(c)
  {
    if c == '\U{2019}' then '\''
    else if c == '\U{2013}' || c == '\U{2014}' then '-'
    else c
  }

  function ReplaceSpecials(s: string): (r: string)
    ensures |r| == |s|
    ensures forall i :: 0 <= i < |s| ==> r[i] == AsciiPunct(s[i])
  {
    seq(|s|, i requires 0 <= i < |s| => AsciiPunct(s[i]))
  }

  /** `_normalize_text`: lower-case, map the specials, collapse whitespace, trim. */
  function Normalize(s: string): string {
    Cleanup(ReplaceSpecials(Lower(s)))
  }

  /** Normalised text is lower-case, ASCII-punctuated, single-spaced and trimmed, and a fixed point. */
  lemma NormalizeProperties(s: string)
    ensures NoUpper(Normalize(s)) && NoSpecial(Normalize(s))
    ensures IsClean(Normalize(s))
    ensures Normalize(Normalize(s)) == Normalize(s)
  {
    var u := ReplaceSpecials(Lower(s));
    var r := Normalize(s);
    assert NoUpper(u) && NoSpecial(u);
    CleanupChars(u);
    forall i | 0 <= i < |r|
      ensures !IsUpper(r[i]) && !IsSpecial(r[i])
    {
      if r[i] != ' ' {
        assert r[i] in u;
      }
    }
    CleanupIsClean(u);
    LowerNoUpper(r);
    assert ReplaceSpecials(r) == r;
    CleanupOfClean(r);
  }

  // ---------------------------------------------------------------------------
  // Tokens: `re.findall(r"[A-Za-z][A-Za-z\-\+\.]{1,}", s)`
  // ---------------------------------------------------------------------------

  predicate IsTokenChar(c: char) { IsLetter(c) || c == '-' || c == '+' || c == '.' }

  /** A letter followed by one or more letters, hyphens, pluses or dots. */
  predicate IsToken(t: string) {
    |t| >= 2 && IsLetter(t[0]) && forall i :: 1 <= i < |t| ==> IsTokenChar(t[i])
  }

  /** Length of the leading run of token characters. */
  function TokenRun(s: string): (n: nat)
    ensures n <= |s|
    ensures forall i :: 0 <= i < n ==> IsTokenChar(s[i])
    ensures n < |s| ==> !IsTokenChar(s[n])
    decreases |s|
  {
    if s == [] || !IsTokenChar(s[0]) then 0 else 1 + TokenRun(s[1..])
  }

  /** The greedy, non-overlapping, left-to-right matches of the token pattern. */
  function FindTokens(s: string): (ts: seq<string>)
    ensures forall k :: 0 <= k < |ts| ==> IsToken(ts[k])
    decreases |s|
  {
    if |s| < 2 then []
    else if IsLetter(s[0]) && IsTokenChar(s[1]) then
      var n := 1 + TokenRun(s[1..]);
      assert forall i :: 1 <= i < n ==> s[..n][i] == s[1..][i - 1];
      [s[..n]] + FindTokens(s[n..])
    else
      FindTokens(s[1..])
  }

  lemma {:induction false} TokenRunSep(a: string, c: char, b: string)
    requires !IsTokenChar(c)
    ensures TokenRun(a + [c] + b) == TokenRun(a)
    decreases |a|
  {
    if a != [] && IsTokenChar(a[0]) {
      assert (a + [c] + b)[1..] == a[1..] + [c] + b;
      TokenRunSep(a[1..], c, b);
    }
  }

  /** A character that cannot be part of a token splits the scan in two independent halves. */
  lemma {:induction false} FindTokensSep(a: string, c: char, b: string)
    requires !IsTokenChar(c)
    ensures FindTokens(a + [c] + b) == FindTokens(a) + FindTokens(b)
    decreases |a|
  {
    var s := a + [c] + b;
    if a == [] {
      assert s == [c] + b;
      if b != [] {
        assert s[1..] == b;
      }
    } else if |a| == 1 {
      assert s[1..] == [c] + b;
      FindTokensSep([], c, b);
      assert [] + [c] + b == [c] + b;
    } else if IsLetter(a[0]) && IsTokenChar(a[1]) {
      assert s[1..] == a[1..] + [c] + b;
      TokenRunSep(a[1..], c, b);
      var n := 1 + TokenRun(a[1..]);
      assert s[..n] == a[..n];
      assert s[n..] == a[n..] + [c] + b;
      FindTokensSep(a[n..], c, b);
    } else {
      assert s[1..] == a[1..] + [c] + b;
      FindTokensSep(a[1..], c, b);
    }
  }

  lemma FindTokensOfToken(t: string)
    requires IsToken(t)
    ensures FindTokens(t) == [t]
  {
    assert forall i :: 0 <= i < |t| - 1 ==> t[1..][i] == t[i + 1];
    assert TokenRun(t[1..]) == |t| - 1;
    assert t[..|t|] == t;
  }

  /** Scanning space-separated tokens gives them back. */
  lemma {:induction false} FindTokensOfJoin(ts: seq<string>)
    requires forall k :: 0 <= k < |ts| ==> IsToken(ts[k])
    ensures FindTokens(Join(" ", ts)) == ts
  {
    if |ts| == 1 {
      FindTokensOfToken(ts[0]);
    } else if |ts| >= 2 {
      FindTokensOfToken(ts[0]);
      FindTokensOfJoin(ts[1..]);
      assert Join(" ", ts) == ts[0] + [' '] + Join(" ", ts[1..]);
      FindTokensSep(ts[0], ' ', Join(" ", ts[1..]));
    }
  }

  // ---------------------------------------------------------------------------
  // Candidate terms
  // ---------------------------------------------------------------------------

  /** The literal stop set of `_extract_keywords`. */
  const StopWords: set<string> := {
    "and", "the", "for", "with", "from", "that", "this", "have", "has", "had", "are", "was", "were", "been",
    "to", "of", "in", "on", "at", "as", "by", "or", "an", "a", "it", "is", "be", "will", "can", "may",
    "your", "you", "we", "our", "their", "they", "them", "i", "my", "me", "us",
    "role", "job", "work", "team", "ability", "skills", "experience", "years", "including"
  }

  /** A word that may be reported as a keyword. */
  predicate IsKeyword(w: string) {
    IsToken(w) && NoUpper(w) && |w| >= 3 && w !in StopWords
  }

  lemma LowerToken(t: string)
    requires IsToken(t)
    ensures IsToken(Lower(t))
  {
  }

  /** Lower-case every token and keep those of length three or more outside the stop set. */
  function Terms(ts: seq<string>): (r: seq<string>)
    requires forall k :: 0 <= k < |ts| ==> IsToken(ts[k])
    ensures forall k :: 0 <= k < |r| ==> IsKeyword(r[k])
  {
    if ts == [] then []
    else
      var w := Lower(ts[0]);
      LowerToken(ts[0]);
      LowerNoUpper(ts[0]);
      (if |w| >= 3 && w !in StopWords then [w] else []) + Terms(ts[1..])
  }

  function Candidates(text: string): (c: seq<string>)
    ensures forall k :: 0 <= k < |c| ==> IsKeyword(c[k])
  {
    Terms(FindTokens(text))
  }

  // ---------------------------------------------------------------------------
  // Frequency table (`Counter`) and its first-occurrence order
  // ---------------------------------------------------------------------------

  predicate NoDup(s: seq<string>) {
    forall i, j :: 0 <= i < j < |s| ==> s[i] != s[j]
  }

  /** The distinct words of `c` in order of first occurrence (a `Counter`'s key order). */
  function Distinct(c: seq<string>): (d: seq<string>)
    ensures forall x :: x in d <==> x in c
    ensures NoDup(d)
  {
    if c == [] then []
    else
      var d := Distinct(c[..|c| - 1]);
      assert c == c[..|c| - 1] + [c[|c| - 1]];
      if c[|c| - 1] in d then d else d + [c[|c| - 1]]
  }

  /** A `Counter` lookup: absent words count zero. */
  function Get(t: map<string, nat>, w: string): nat {
    if w in t then t[w] else 0
  }

  /** `Counter(c)`, filled one word at a time. */
  function Tally(c: seq<string>): (t: map<string, nat>)
    ensures forall x :: x in t <==> x in c
  {
    if c == [] then map[]
    else
      var t := Tally(c[..|c| - 1]);
      assert c == c[..|c| - 1] + [c[|c| - 1]];
      t[c[|c| - 1] := Get(t, c[|c| - 1]) + 1]
  }

  /** The table holds the number of occurrences of every word. */
  lemma {:induction false} TallyCounts(c: seq<string>)
    ensures forall w :: Get(Tally(c), w) == multiset(c)[w]
  {
    if c != [] {
      var p := c[..|c| - 1];
      TallyCounts(p);
      assert c == p + [c[|c| - 1]];
      assert multiset(c) == multiset(p) + multiset{c[|c| - 1]};
    }
  }

  /** Counting the candidates one by one, as `Counter` does. */
  method CountTerms(tokens: seq<string>) returns (order: seq<string>, counts: map<string, nat>)
    ensures order == Distinct(tokens)
    ensures counts == Tally(tokens)
  {
    order := [];
    counts := map[];
    var i := 0;
    while i < |tokens|
      invariant 0 <= i <= |tokens|
      invariant order == Distinct(tokens[..i])
      invariant counts == Tally(tokens[..i])
    {
      var w := tokens[i];
      var nextOrder := if w in counts then order else order + [w];
      var nextCounts := counts[w := Get(counts, w) + 1];
      CountStep(tokens, i, order, counts, nextOrder, nextCounts);
      order, counts, i := nextOrder, nextCounts, i + 1;
    }
    CountedAll(tokens, order, counts);
  }

  /** One more token: a new word joins the order with count 1, a known one counts once more. */
  lemma CountStep(tokens: seq<string>, i: nat, order: seq<string>, counts: map<string, nat>,
                  nextOrder: seq<string>, nextCounts: map<string, nat>)
    requires i < |tokens| && order == Distinct(tokens[..i]) && counts == Tally(tokens[..i])
    requires nextOrder == if tokens[i] in counts then order else order + [tokens[i]]
    requires nextCounts == counts[tokens[i] := Get(counts, tokens[i]) + 1]
    ensures nextOrder == Distinct(tokens[..i + 1]) && nextCounts == Tally(tokens[..i + 1])
  {
    assert tokens[..i + 1] == tokens[..i] + [tokens[i]];
    DistinctSnoc(tokens[..i], tokens[i]);
    TallySnoc(tokens[..i], tokens[i]);
  }

  lemma CountedAll(tokens: seq<string>, order: seq<string>, counts: map<string, nat>)
    requires order == Distinct(tokens[..|tokens|]) && counts == Tally(tokens[..|tokens|])
    ensures order == Distinct(tokens) && counts == Tally(tokens)
  {
    assert tokens[..|tokens|] == tokens;
  }

  lemma DistinctSnoc(p: seq<string>, w: string)
    ensures Distinct(p + [w]) == if w in p then Distinct(p) else Distinct(p) + [w]
  {
    var q := p + [w];
    assert q[..|q| - 1] == p;
  }

  lemma TallySnoc(p: seq<string>, w: string)
    ensures Tally(p + [w]) == Tally(p)[w := Get(Tally(p), w) + 1]
  {
    var q := p + [w];
    assert q[..|q| - 1] == p;
  }

  // ---------------------------------------------------------------------------
  // Ranking: `Counter.most_common`, a stable sort by decreasing count
  // ---------------------------------------------------------------------------

  /** Insert `w` after every word counted at least as often. */
  function Insert(w: string, r: seq<string>, t: map<string, nat>): (q: seq<string>)
    ensures multiset(q) == multiset(r) + multiset{w}
  {
    if r == [] then [w]
    else
      assert r == [r[0]] + r[1..];
      if Get(t, r[0]) >= Get(t, w) then [r[0]] + Insert(w, r[1..], t)
      else [w] + r
  }

  /** Stable insertion sort of `ws` by decreasing count. */
  function Rank(ws: seq<string>, t: map<string, nat>): (r: seq<string>)
    ensures multiset(r) == multiset(ws)
  {
    if ws == [] then []
    else
      assert ws == ws[..|ws| - 1] + [ws[|ws| - 1]];
      Insert(ws[|ws| - 1], Rank(ws[..|ws| - 1], t), t)
  }

  /** `[w for w, _ in Counter(candidates).most_common(80)]`. */
  function TopKeywords(text: string): seq<string> {
    var c := Candidates(text);
    Take(Rank(Distinct(c), Tally(c)), 80)
  }

  /** `_extract_keywords`. */
  method ExtractKeywords(text: string) returns (kws: seq<string>)
    ensures kws == TopKeywords(text)
  {
    var tokens := Candidates(text);
    var order, counts := CountTerms(tokens);
    kws := Take(Rank(order, counts), 80);
  }

  // ---------------------------------------------------------------------------
  // What the ranking guarantees
  // ---------------------------------------------------------------------------

  /** `x` precedes `y`: more occurrences, or as many and seen earlier in `c`. */
  predicate Outranks(t: map<string, nat>, c: seq<string>, x: string, y: string) {
    Get(t, x) > Get(t, y) || (Get(t, x) == Get(t, y) && IndexOf(c, x) < IndexOf(c, y))
  }

  predicate OutranksAll(t: map<string, nat>, c: seq<string>, x: string, s: seq<string>) {
    forall y :: y in s ==> Outranks(t, c, x, y)
  }

  predicate Ranked(t: map<string, nat>, c: seq<string>, r: seq<string>) {
    r == [] || (OutranksAll(t, c, r[0], r[1..]) && Ranked(t, c, r[1..]))
  }

  /** Every pair in a ranked list is in rank order. */
  lemma {:induction false} RankedPairs(t: map<string, nat>, c: seq<string>, r: seq<string>)
    requires Ranked(t, c, r)
    ensures forall i, j :: 0 <= i < j < |r| ==> Outranks(t, c, r[i], r[j])
  {
    if r != [] {
      RankedPairs(t, c, r[1..]);
      forall i, j | 0 <= i < j < |r|
        ensures Outranks(t, c, r[i], r[j])
      {
        if i == 0 {
          assert r[j] == r[1..][j - 1];
        } else {
          assert r[i] == r[1..][i - 1] && r[j] == r[1..][j - 1];
        }
      }
    }
  }

  lemma {:induction false} InsertRanked(w: string, r: seq<string>, t: map<string, nat>, c: seq<string>)
    requires Ranked(t, c, r)
    requires forall x :: x in r ==> IndexOf(c, x) < IndexOf(c, w)
    ensures Ranked(t, c, Insert(w, r, t))
  {
    if r == [] {
      assert Insert(w, r, t) == [w];
      assert [w][1..] == [];
    } else if Get(t, r[0]) >= Get(t, w) {
      var q := Insert(w, r[1..], t);
      InsertRanked(w, r[1..], t, c);
      assert Insert(w, r, t) == [r[0]] + q;
      assert ([r[0]] + q)[1..] == q;
      forall y | y in q
        ensures Outranks(t, c, r[0], y)
      {
        assert y in multiset(q);
      }
    } else {
      assert Insert(w, r, t) == [w] + r;
      assert ([w] + r)[1..] == r;
      forall y | y in r
        ensures Outranks(t, c, w, y)
      {
        if y != r[0] {
          assert y in r[1..];
        }
      }
    }
  }

  /** Words listed in order of first occurrence. */
  predicate InFirstOccurrenceOrder(c: seq<string>, ws: seq<string>) {
    forall i, j :: 0 <= i < j < |ws| ==> IndexOf(c, ws[i]) < IndexOf(c, ws[j])
  }

  lemma {:induction false} RankRanked(ws: seq<string>, t: map<string, nat>, c: seq<string>)
    requires InFirstOccurrenceOrder(c, ws)
    ensures Ranked(t, c, Rank(ws, t))
  {
    if ws != [] {
      var p := ws[..|ws| - 1];
      var w := ws[|ws| - 1];
      assert InFirstOccurrenceOrder(c, p);
      RankRanked(p, t, c);
      forall x | x in Rank(p, t)
        ensures IndexOf(c, x) < IndexOf(c, w)
      {
        assert x in multiset(Rank(p, t));
        var i :| 0 <= i < |p| && p[i] == x;
      }
      InsertRanked(w, Rank(p, t), t, c);
    }
  }

  lemma {:induction false} DistinctInOrder(c: seq<string>)
    ensures InFirstOccurrenceOrder(c, Distinct(c))
  {
    if c != [] {
      var p := c[..|c| - 1];
      var e := c[|c| - 1];
      var d := Distinct(p);
      DistinctInOrder(p);
      assert c == p + [e];
      forall x | x in p
        ensures IndexOf(c, x) == IndexOf(p, x) < |p|
      {
        IndexOfAppend(p, [e], x);
      }
      if e !in d {
        IndexOfAppend(p, [e], e);
        assert IndexOf(c, e) == |p|;
        forall i, j | 0 <= i < j < |d + [e]|
          ensures IndexOf(c, (d + [e])[i]) < IndexOf(c, (d + [e])[j])
        {
          assert (d + [e])[i] == d[i];
          assert d[i] in p;
        }
      } else {
        forall i, j | 0 <= i < j < |d|
          ensures IndexOf(c, d[i]) < IndexOf(c, d[j])
        {
          assert d[i] in p && d[j] in p;
        }
      }
    }
  }

  /** The full ranking of the candidates, before the cap. */
  function FullRanking(text: string): seq<string> {
    var c := Candidates(text);
    Rank(Distinct(c), Tally(c))
  }

  lemma FullRankingProperties(text: string)
    ensures multiset(FullRanking(text)) == multiset(Distinct(Candidates(text)))
    ensures forall i, j :: 0 <= i < j < |FullRanking(text)| ==>
      Outranks(Tally(Candidates(text)), Candidates(text), FullRanking(text)[i], FullRanking(text)[j])
  {
    var c := Candidates(text);
    DistinctInOrder(c);
    RankRanked(Distinct(c), Tally(c), c);
    RankedPairs(Tally(c), c, FullRanking(text));
  }

  /**
   * `_extract_keywords` returns distinct keyword-shaped candidates of the text, at most 80,
   * in decreasing count order with ties in first-occurrence order.
   */
  lemma KeywordsProperties(text: string)
    ensures forall w :: Get(Tally(Candidates(text)), w) == multiset(Candidates(text))[w]
    ensures |TopKeywords(text)| <= 80
    ensures NoDup(TopKeywords(text))
    ensures forall k :: 0 <= k < |TopKeywords(text)| ==>
      IsKeyword(TopKeywords(text)[k]) && TopKeywords(text)[k] in Candidates(text)
    ensures forall i, j :: 0 <= i < j < |TopKeywords(text)| ==>
      Outranks(Tally(Candidates(text)), Candidates(text), TopKeywords(text)[i], TopKeywords(text)[j])
  {
    var c := Candidates(text);
    var big := FullRanking(text);
    TallyCounts(c);
    FullRankingProperties(text);
    PermutedDistinct(big, Distinct(c), c);
    RankingPrefix(Tally(c), c, big, TopKeywords(text));
  }

  /** A prefix of a ranking of distinct candidates is one too. */
  lemma RankingPrefix(t: map<string, nat>, c: seq<string>, big: seq<string>, r: seq<string>)
    requires |r| <= |big| && r == big[..|r|]
    requires NoDup(big)
    requires forall k :: 0 <= k < |big| ==> IsKeyword(big[k]) && big[k] in c
    requires forall i, j :: 0 <= i < j < |big| ==> Outranks(t, c, big[i], big[j])
    ensures NoDup(r)
    ensures forall k :: 0 <= k < |r| ==> IsKeyword(r[k]) && r[k] in c
    ensures forall i, j :: 0 <= i < j < |r| ==> Outranks(t, c, r[i], r[j])
  {
    assert forall k :: 0 <= k < |r| ==> r[k] == big[k];
  }

  /** A permutation of the distinct candidates has no duplicate and holds only candidates. */
  lemma PermutedDistinct(big: seq<string>, d: seq<string>, c: seq<string>)
    requires multiset(big) == multiset(d) && NoDup(d)
    requires forall x :: x in d <==> x in c
    requires forall k :: 0 <= k < |c| ==> IsKeyword(c[k])
    ensures NoDup(big)
    ensures forall k :: 0 <= k < |big| ==> IsKeyword(big[k]) && big[k] in c
  {
    forall i, j | 0 <= i < j < |big|
      ensures big[i] != big[j]
    {
      if big[i] == big[j] {
        TwiceCount(big, i, j);
        NoDupCount(d, big[i]);
        assert false;
      }
    }
    forall k | 0 <= k < |big|
      ensures IsKeyword(big[k]) && big[k] in c
    {
      assert big[k] in multiset(d);
      assert big[k] in c;
      var m :| 0 <= m < |c| && c[m] == big[k];
    }
  }

  /** A word at two positions occurs at least twice. */
  lemma TwiceCount(s: seq<string>, i: nat, j: nat)
    requires i < j < |s| && s[i] == s[j]
    ensures multiset(s)[s[i]] >= 2
  {
    var x := s[i];
    var a, b, e := s[..i], s[i + 1..j], s[j + 1..];
    assert s == a + [x] + b + [x] + e;
    assert multiset(s) == multiset(a) + multiset{x} + multiset(b) + multiset{x} + multiset(e);
  }

  /** A word occurs at most once in a list without duplicates. */
  lemma {:induction false} NoDupCount(d: seq<string>, x: string)
    requires NoDup(d)
    ensures multiset(d)[x] <= 1
    decreases |d|
  {
    if d != [] {
      var p, e := d[..|d| - 1], d[|d| - 1];
      assert d == p + [e];
      assert NoDup(p) by {
        forall i, j | 0 <= i < j < |p|
          ensures p[i] != p[j]
        {
          assert p[i] == d[i] && p[j] == d[j];
        }
      }
      NoDupCount(p, x);
      if e == x {
        assert x !in p by {
          forall i | 0 <= i < |p|
            ensures p[i] != x
          {
            assert p[i] == d[i];
          }
        }
      }
    }
  }

  /** Every candidate left out is outranked by all 80 words returned. */
  lemma KeywordsComplete(text: string)
    ensures forall w :: w in Candidates(text) && w !in TopKeywords(text) ==>
      |TopKeywords(text)| == 80 &&
      forall k :: 0 <= k < 80 ==> Outranks(Tally(Candidates(text)), Candidates(text), TopKeywords(text)[k], w)
  {
    var c := Candidates(text);
    var t := Tally(c);
    var big := FullRanking(text);
    var r := TopKeywords(text);
    FullRankingProperties(text);
    assert r == Take(big, 80);
    forall w | w in c && w !in r
      ensures |r| == 80 && forall k :: 0 <= k < 80 ==> Outranks(t, c, r[k], w)
    {
      assert w in multiset(big);
      var j :| 0 <= j < |big| && big[j] == w;
      forall k | 0 <= k < 80
        ensures Outranks(t, c, r[k], w)
      {
        assert r[k] == big[k];
      }
    }
  }
}
