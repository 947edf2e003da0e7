/**
 * The professional summary of the resume generator: the template composer
 * (`_generate_summary_template`), the prompt for the remote model
 * (`_build_summary_prompt`) and the choice between them (`generate_summary`).
 */
module Summary {
  import opened Wrappers
  import opened Text
  import opened Keywords
  import opened Selection

  datatype CandidateProfile = CandidateProfile(
    fullName: string,
    title: string,
    yearsExperience: int,
    coreSkills: seq<string>,
    industries: seq<string>,
    achievements: seq<string>,
    tools: seq<string>,
    location: string,
    email: string,
    phone: string,
    links: seq<string>)

  datatype SummaryResult = SummaryResult(summary: string, source: string)

  // ---------------------------------------------------------------------------
  // Clauses of the template
  // ---------------------------------------------------------------------------

  function TemplateTitle(profile: CandidateProfile, targetTitle: Option<string>): string {
    if Given(targetTitle) then Strip(targetTitle.value) else Strip(profile.title)
  }

  function Opening(title: string, years: int): string {
    title + " with " + IntToString(years) + "+ years of experience delivering measurable results."
  }

  /** "Strong communicator with a focus on quality, timeliness, and stakeholder collaboration." */
  const ClosingWords: seq<string> :=
    ["Strong", "communicator", "with", "a", "focus", "on", "quality,", "timeliness,", "and", "stakeholder", "collaboration."]

  const Closing := Join(" ", ClosingWords)

  /** `f"{lead}{", ".join(items[:cap]).strip()}."`, or nothing when the joined list is blank. */
  function ListClause(lead: string, items: seq<string>, cap: nat): string {
    var joined := Strip(Join(", ", Take(items, cap)));
    if joined == "" then "" else lead + joined + "."
  }

  function SkillsClause(profile: CandidateProfile): string {
    ListClause("Skilled in ", profile.coreSkills, 8)
  }

  function ToolsClause(profile: CandidateProfile): string {
    ListClause("Tools: ", profile.tools, 6)
  }

  function IndustriesClause(profile: CandidateProfile): string {
    ListClause("Industry exposure: ", profile.industries, 4)
  }

  function AchievementLine(profile: CandidateProfile): string {
    if profile.achievements == [] then ""
    else " " + TrackRecordLead + " " + RStripChar(profile.achievements[0], '.') + "."
  }

  function LowerSet(xs: seq<string>): set<string> {
    set x | x in xs :: Lower(x)
  }

  /** JD keywords that are not, case-insensitively, one of the candidate's skills. */
  function UnlistedTerms(kws: seq<string>, skills: set<string>): (r: seq<string>)
    ensures forall k :: 0 <= k < |r| ==> r[k] in kws && Lower(r[k]) !in skills
    ensures forall x :: x in kws && Lower(x) !in skills ==> x in r
    ensures |r| <= |kws|
  {
    if kws == [] then []
    else (if Lower(kws[0]) in skills then [] else [kws[0]]) + UnlistedTerms(kws[1..], skills)
  }

  /** Filtering distributes over concatenation; with `UnlistedTermsSingle` this fixes the order. */
  lemma {:induction false} UnlistedTermsAppend(a: seq<string>, b: seq<string>, skills: set<string>)
    ensures UnlistedTerms(a + b, skills) == UnlistedTerms(a, skills) + UnlistedTerms(b, skills)
  {
    if a == [] {
      assert a + b == b;
    } else {
      assert (a + b)[0] == a[0];
      assert (a + b)[1..] == a[1..] + b;
      UnlistedTermsAppend(a[1..], b, skills);
    }
  }

  /** A single keyword is kept exactly when it is not a skill. */
  lemma UnlistedTermsSingle(x: string, skills: set<string>)
    ensures UnlistedTerms([x], skills) == if Lower(x) in skills then [] else [x]
  {
    assert [x][1..] == [];
  }

  /** The at most four "Experienced in" terms. */
  function HintTerms(profile: CandidateProfile, jobDescription: Option<string>): seq<string> {
    if Given(jobDescription) then
      Take(UnlistedTerms(TopKeywords(Normalize(jobDescription.value)), LowerSet(profile.coreSkills)), 4)
    else []
  }

  function HintLine(profile: CandidateProfile, jobDescription: Option<string>): string {
    var terms := HintTerms(profile, jobDescription);
    if terms == [] then "" else " Experienced in " + Join(", ", terms) + "."
  }

  function SummaryParts(profile: CandidateProfile, targetTitle: Option<string>, jobDescription: Option<string>): seq<string> {
    [ Opening(TemplateTitle(profile, targetTitle), profile.yearsExperience),
      SkillsClause(profile),
      ToolsClause(profile),
      IndustriesClause(profile),
      AchievementLine(profile),
      HintLine(profile, jobDescription),
      Closing ]
  }

  /** The final assembly of the template: drop blank clauses, space-join, strip and collapse whitespace. */
  function AssembleClauses(ps: seq<string>): string {
    Cleanup(Strip(Join(" ", NonEmpty(ps))))
  }

  /** `_generate_summary_template`. */
  function SummaryTemplate(profile: CandidateProfile, targetTitle: Option<string>, jobDescription: Option<string>): string {
    AssembleClauses(SummaryParts(profile, targetTitle, jobDescription))
  }

  // ---------------------------------------------------------------------------
  // What the template guarantees
  // ---------------------------------------------------------------------------

  /** The assembled text is the non-blank clauses, each whitespace-collapsed, joined by single spaces. */
  lemma AssembledIsJoinedClauses(ps: seq<string>)
    ensures AssembleClauses(ps) == Join(" ", CleanParts(ps))
  {
    CleanupOfStrip(Join(" ", NonEmpty(ps)));
    CleanupJoin(NonEmpty(ps));
    CleanPartsNonEmpty(ps);
  }

  lemma ClosingIsClean()
    ensures IsClean(Closing) && Closing != ""
  {
    assert GoodWords(ClosingWords);
    JoinWordsClean(ClosingWords);
  }

  lemma OpeningNotBlank(title: string, years: int)
    ensures Cleanup(Opening(title, years)) != ""
  {
    var o := Opening(title, years);
    assert o[|title| + 1] == 'w';
    CleanupIsClean(o);
  }

  /** A single part cleans to itself cleaned, or to nothing when it is blank. */
  lemma CleanPartsSingle(x: string)
    ensures CleanParts([x]) == if Cleanup(x) == "" then [] else [Cleanup(x)]
  {
    assert [x][1..] == [];
  }

  /** Cleaning a clause list whose first clause is not blank and whose last is clean. */
  lemma CleanClauses(first: string, mid: seq<string>, last: string)
    requires Cleanup(first) != ""
    requires IsClean(last) && last != ""
    ensures CleanParts([first] + mid + [last]) == [Cleanup(first)] + CleanParts(mid) + [last]
  {
    CleanupOfClean(last);
    CleanPartsSingle(first);
    CleanPartsSingle(last);
    CleanPartsAppend([first], mid);
    CleanPartsAppend([first] + mid, [last]);
  }

  lemma ConcatSlices(a: string, b: string)
    ensures (a + b)[..|a|] == a && (a + b)[|a|..] == b
  {
  }

  /** A space-join of a non-empty first part, any middle parts and a last part. */
  lemma JoinShape(first: string, mid: seq<string>, last: string)
    requires first != ""
    ensures var s := Join(" ", [first] + mid + [last]);
      && |s| > |first| + |last|
      && s[..|first| + 1] == first + " "
      && s[|s| - |last| - 1..] == " " + last
  {
    var all := [first] + mid + [last];
    JoinEnds(" ", all);
    assert all[1..] == mid + [last];
    assert all[..|all| - 1] == [first] + mid;
    var s := Join(" ", all);
    var tail := Join(" ", all[1..]);
    var init := Join(" ", all[..|all| - 1]);
    ConcatSlices(first + " ", tail);
    assert s == init + (" " + last);
    ConcatSlices(init, " " + last);
    assert |init| >= |first| by {
      if |all[..|all| - 1]| >= 2 {
        JoinEnds(" ", all[..|all| - 1]);
      }
    }
  }

  /** `s` begins with the clause `t` followed by a space. */
  predicate OpensWith(s: string, t: string) {
    |s| > |t| && s[..|t| + 1] == t + " "
  }

  /** `s` ends with a space followed by the clause `t`. */
  predicate ClosesWith(s: string, t: string) {
    |s| > |t| && s[|s| - |t| - 1..] == " " + t
  }

  /** The cleaned space-join of a clause list opens with its first clause and closes with its last. */
  lemma ClausesShape(ps: seq<string>)
    requires |ps| >= 2 && Cleanup(ps[0]) != ""
    requires IsClean(ps[|ps| - 1]) && ps[|ps| - 1] != ""
    ensures var s := AssembleClauses(ps);
      && IsClean(s)
      && |s| > |Cleanup(ps[0])| + |ps[|ps| - 1]|
      && OpensWith(s, Cleanup(ps[0]))
      && ClosesWith(s, ps[|ps| - 1])
  {
    var last := ps[|ps| - 1];
    var mid := ps[1..|ps| - 1];
    assert ps == [ps[0]] + mid + [last];
    CleanClauses(ps[0], mid, last);
    JoinShape(Cleanup(ps[0]), CleanParts(mid), last);
    CleanupJoin(ps);
    CleanupIsClean(Join(" ", ps));
    AssembledIsJoinedClauses(ps);
  }

  /**
   * The summary opens with the whitespace-collapsed opening sentence and closes with
   * the fixed closing sentence, and it is single-spaced and trimmed.
   */
  lemma SummaryShape(profile: CandidateProfile, targetTitle: Option<string>, jobDescription: Option<string>)
    ensures var s := SummaryTemplate(profile, targetTitle, jobDescription);
      var opening := Cleanup(Opening(TemplateTitle(profile, targetTitle), profile.yearsExperience));
      && IsClean(s)
      && |s| > |opening| + |Closing|
      && OpensWith(s, opening)
      && ClosesWith(s, Closing)
  {
    var ps := SummaryParts(profile, targetTitle, jobDescription);
    OpeningNotBlank(TemplateTitle(profile, targetTitle), profile.yearsExperience);
    ClosingIsClean();
    assert |ps| == 7 && ps[|ps| - 1] == Closing;
    ClausesShape(ps);
  }

  /** "Proven track record including:" */
  const TrackRecordLead := Join(" ", ["Proven", "track", "record", "including:"])

  /**
   * With achievements, the summary carries the cleaned achievement clause among the other
   * cleaned clauses: the fixed lead, then the first achievement with its trailing full
   * stops replaced by one.
   */
  lemma AchievementClause(profile: CandidateProfile, targetTitle: Option<string>, jobDescription: Option<string>)
    requires profile.achievements != []
    ensures SummaryTemplate(profile, targetTitle, jobDescription)
      == Join(" ", CleanParts([Opening(TemplateTitle(profile, targetTitle), profile.yearsExperience),
                               SkillsClause(profile), ToolsClause(profile), IndustriesClause(profile)])
                   + [TrackRecordLead + " " + Cleanup(RStripChar(profile.achievements[0], '.') + ".")]
                   + CleanParts([HintLine(profile, jobDescription), Closing]))
  {
    var r := RStripChar(profile.achievements[0], '.');
    StringAssoc(" " + TrackRecordLead + " ", r, ".");
    AchievementPresent(Opening(TemplateTitle(profile, targetTitle), profile.yearsExperience),
      SkillsClause(profile), ToolsClause(profile), IndustriesClause(profile),
      AchievementLine(profile), HintLine(profile, jobDescription), Closing, r + ".");
  }

  /** Without achievements, the summary is the assembly of the six other clauses. */
  lemma NoAchievementClause(profile: CandidateProfile, targetTitle: Option<string>, jobDescription: Option<string>)
    requires profile.achievements == []
    ensures SummaryTemplate(profile, targetTitle, jobDescription)
      == AssembleClauses([Opening(TemplateTitle(profile, targetTitle), profile.yearsExperience),
                          SkillsClause(profile), ToolsClause(profile), IndustriesClause(profile),
                          HintLine(profile, jobDescription), Closing])
  {
    AchievementAbsent(Opening(TemplateTitle(profile, targetTitle), profile.yearsExperience),
      SkillsClause(profile), ToolsClause(profile), IndustriesClause(profile),
      AchievementLine(profile), HintLine(profile, jobDescription), Closing);
  }

  lemma AchievementPresent(o: string, s: string, t: string, i: string, a: string, h: string, c: string, y: string)
    requires a == " " + TrackRecordLead + " " + y
    requires y != [] && y[|y| - 1] == '.'
    ensures AssembleClauses([o, s, t, i, a, h, c])
      == Join(" ", CleanParts([o, s, t, i]) + [TrackRecordLead + " " + Cleanup(y)] + CleanParts([h, c]))
  {
    var ps := [o, s, t, i, a, h, c];
    assert ps[..4] == [o, s, t, i] && ps[5..] == [h, c];
    AchievementLineClean(y);
    CleanAroundPart(ps, 4);
    CleanPartsSingle(a);
  }

  lemma AchievementAbsent(o: string, s: string, t: string, i: string, a: string, h: string, c: string)
    requires a == ""
    ensures AssembleClauses([o, s, t, i, a, h, c]) == AssembleClauses([o, s, t, i, h, c])
  {
    var ps := [o, s, t, i, a, h, c];
    assert ps[..4] + ps[5..] == [o, s, t, i, h, c];
    CleanAroundPart(ps, 4);
  }

  /** The assembly around one clause: the cleaned clauses before it, its own, and those after. */
  lemma CleanAroundPart(ps: seq<string>, i: nat)
    requires i < |ps|
    ensures AssembleClauses(ps) == Join(" ", CleanParts(ps[..i]) + CleanParts([ps[i]]) + CleanParts(ps[i + 1..]))
    ensures ps[i] == "" ==> AssembleClauses(ps) == AssembleClauses(ps[..i] + ps[i + 1..])
  {
    var a, x, c := ps[..i], ps[i], ps[i + 1..];
    assert ps == a + [x] + c;
    CleanPartsAround(a, x, c);
    AssembledIsJoinedClauses(ps);
    if x == "" {
      AssembledIsJoinedClauses(a + c);
      CleanPartsBlank(a, c);
    }
  }

  lemma CleanPartsAround(a: seq<string>, x: string, c: seq<string>)
    ensures CleanParts(a + [x] + c) == CleanParts(a) + CleanParts([x]) + CleanParts(c)
  {
    CleanPartsAppend(a + [x], c);
    CleanPartsAppend(a, [x]);
  }

  lemma CleanPartsBlank(a: seq<string>, c: seq<string>)
    ensures CleanParts(a + [""] + c) == CleanParts(a + c)
  {
    CleanPartsAround(a, "", c);
    CleanPartsSingle("");
    CleanupEmpty();
    CleanPartsAppend(a, c);
  }

  /** The cleaned achievement clause: the fixed lead, a space, the cleaned achievement. */
  lemma AchievementLineClean(y: string)
    requires y != [] && y[|y| - 1] == '.'
    ensures Cleanup(" " + TrackRecordLead + " " + y) == TrackRecordLead + " " + Cleanup(y)
      && Cleanup(y) != ""
  {
    TrackRecordLeadClean();
    assert !NoNonSpace(y) by {
      assert !IsSpace(y[|y| - 1]);
    }
    CleanupIsClean(y);
    CleanupAroundSpace(" " + TrackRecordLead, y);
  }

  lemma TrackRecordLeadClean()
    ensures Cleanup(" " + TrackRecordLead) == TrackRecordLead && TrackRecordLead != ""
  {
    LeadIsClean();
    CleanupAfterSpace(TrackRecordLead);
  }

  lemma LeadIsClean()
    ensures IsClean(TrackRecordLead) && TrackRecordLead != ""
  {
    var ws := ["Proven", "track", "record", "including:"];
    assert GoodWords(ws);
    JoinWordsClean(ws);
  }

  /** A leading space is cleaned away from a clean text. */
  lemma CleanupAfterSpace(t: string)
    requires IsClean(t)
    ensures Cleanup(" " + t) == t
  {
    CleanupOfClean(t);
    CleanupEmpty();
    CleanupAroundSpace("", t);
    assert "" + " " + t == " " + t;
  }

  /** Only the first 8 skills, 6 tools and 4 industries are listed. */
  lemma ListCaps(profile: CandidateProfile)
    ensures SkillsClause(profile) == SkillsClause(profile.(coreSkills := Take(profile.coreSkills, 8)))
    ensures ToolsClause(profile) == ToolsClause(profile.(tools := Take(profile.tools, 6)))
    ensures IndustriesClause(profile) == IndustriesClause(profile.(industries := Take(profile.industries, 4)))
  {
    TakeTake(profile.coreSkills, 8);
    TakeTake(profile.tools, 6);
    TakeTake(profile.industries, 4);
  }

  lemma TakeTake(xs: seq<string>, n: nat)
    ensures Take(Take(xs, n), n) == Take(xs, n)
  {
  }

  /**
   * The "Experienced in" terms are the first (at most) four keywords of the job description,
   * in keyword order, that are not equal, ignoring case, to any of the candidate's skills;
   * an unlisted keyword is left out only when four were already taken. There are none
   * without a job description.
   */
  lemma HintTermsProperties(profile: CandidateProfile, jobDescription: Option<string>)
    ensures |HintTerms(profile, jobDescription)| <= 4
    ensures !Given(jobDescription) ==> HintTerms(profile, jobDescription) == []
    ensures Given(jobDescription) ==>
      var u := UnlistedTerms(TopKeywords(Normalize(jobDescription.value)), LowerSet(profile.coreSkills));
      var h := HintTerms(profile, jobDescription);
      |h| == (if |u| < 4 then |u| else 4) && h == u[..|h|]
    ensures Given(jobDescription) ==>
      forall x ::
        (&& x in TopKeywords(Normalize(jobDescription.value))
         && x !in HintTerms(profile, jobDescription)
         && (forall j :: 0 <= j < |profile.coreSkills| ==> Lower(x) != Lower(profile.coreSkills[j])))
        ==> |HintTerms(profile, jobDescription)| == 4
    ensures Given(jobDescription) ==>
      forall k :: 0 <= k < |HintTerms(profile, jobDescription)| ==>
        HintTerms(profile, jobDescription)[k] in TopKeywords(Normalize(jobDescription.value))
    ensures forall k, j :: 0 <= k < |HintTerms(profile, jobDescription)| && 0 <= j < |profile.coreSkills| ==>
      Lower(HintTerms(profile, jobDescription)[k]) != Lower(profile.coreSkills[j])
  {
    if Given(jobDescription) {
      var kws := TopKeywords(Normalize(jobDescription.value));
      var skills := LowerSet(profile.coreSkills);
      var u := UnlistedTerms(kws, skills);
      var h := HintTerms(profile, jobDescription);
      forall k, j | 0 <= k < |h| && 0 <= j < |profile.coreSkills|
        ensures Lower(h[k]) != Lower(profile.coreSkills[j])
      {
        assert h[k] == u[k];
        assert Lower(profile.coreSkills[j]) in skills;
      }
      forall x | x in kws && x !in h && (forall j :: 0 <= j < |profile.coreSkills| ==> Lower(x) != Lower(profile.coreSkills[j]))
        ensures |h| == 4
      {
        assert Lower(x) !in skills;
        assert x in u;
      }
    }
  }

  // ---------------------------------------------------------------------------
  // The prompt for the remote model
  // ---------------------------------------------------------------------------

  const PromptEnd := "Return only the summary text."

  function PromptHead(profile: CandidateProfile, title: string): string {
    "Write a concise, ATS-friendly professional summary (3–4 sentences) for a resume.\n"
    + "Target role title: " + title + "\n"
    + "Years of experience: " + IntToString(profile.yearsExperience) + "\n"
    + "Core skills: " + Join(", ", Take(profile.coreSkills, 12)) + "\n"
    + "Tools: " + Join(", ", Take(profile.tools, 10)) + "\n"
    + "Key achievements: " + Join("; ", Take(profile.achievements, 3)) + "\n"
  }

  function JdSection(jobDescription: Option<string>): string {
    var jd := if Given(jobDescription) then Strip(jobDescription.value) else "";
    if jd == "" then "" else "Job description context:\n" + jd + "\n"
  }

  /** `_build_summary_prompt`. */
  function BuildSummaryPrompt(profile: CandidateProfile, title: string, jobDescription: Option<string>): string {
    PromptHead(profile, title) + JdSection(jobDescription) + PromptEnd
  }

  /**
   * The prompt ends with the fixed instruction; it carries the stripped job description
   * exactly when that is not blank, and is otherwise the prompt without one.
   */
  lemma PromptProperties(profile: CandidateProfile, title: string, jobDescription: Option<string>)
    ensures var p := BuildSummaryPrompt(profile, title, jobDescription);
      |p| >= |PromptEnd| && p[|p| - |PromptEnd|..] == PromptEnd
    ensures jobDescription.Some? && Strip(jobDescription.value) != "" ==>
      BuildSummaryPrompt(profile, title, jobDescription)
        == PromptHead(profile, title) + "Job description context:\n" + Strip(jobDescription.value) + "\n" + PromptEnd
    ensures (jobDescription.None? || Strip(jobDescription.value) == "") ==>
      BuildSummaryPrompt(profile, title, jobDescription) == BuildSummaryPrompt(profile, title, None)
  {
    var h := PromptHead(profile, title);
    var j := JdSection(jobDescription);
    EndsWith(h + j, PromptEnd);
    if jobDescription.Some? && Strip(jobDescription.value) != "" {
      Assoc4(h, "Job description context:\n", Strip(jobDescription.value), "\n", PromptEnd);
    } else {
      assert j == "";
    }
  }

  /** The prompt uses at most 12 skills, 10 tools and 3 achievements. */
  lemma PromptCaps(profile: CandidateProfile, title: string, jobDescription: Option<string>)
    ensures BuildSummaryPrompt(profile, title, jobDescription) ==
      BuildSummaryPrompt(
        profile.(coreSkills := Take(profile.coreSkills, 12), tools := Take(profile.tools, 10),
                 achievements := Take(profile.achievements, 3)),
        title, jobDescription)
  {
    TakeTake(profile.coreSkills, 12);
    TakeTake(profile.tools, 10);
    TakeTake(profile.achievements, 3);
  }

  // ---------------------------------------------------------------------------
  // Source selection
  // ---------------------------------------------------------------------------

  /**
   * `generate_summary`. `hfToken` is the configured token, `requestsAvailable` whether the
   * HTTP library imported, and `remote` the remote model's answer (`None` when the call raised).
   */
  function GenerateSummary(
    profile: CandidateProfile, jobDescription: Option<string>, targetTitle: Option<string>,
    useRemote: bool, hfToken: string, requestsAvailable: bool, remote: Option<string>): (r: SummaryResult)
    ensures r.source == RemoteSource <==>
      useRemote && hfToken != "" && requestsAvailable && AcceptRemote(remote, 40)
    ensures r.source == RemoteSource ==> r.summary == Strip(remote.value) && |r.summary| >= 40
    ensures r.source != RemoteSource ==>
      r == SummaryResult(SummaryTemplate(profile, targetTitle, jobDescription), TemplateSource)
  {
    var template := SummaryTemplate(profile, targetTitle, jobDescription);
    if !useRemote then SummaryResult(template, TemplateSource)
    else if hfToken == "" || !requestsAvailable then SummaryResult(template, TemplateSource)
    else if remote.None? then SummaryResult(template, TemplateSource)
    else if remote.value != "" && |Strip(remote.value)| >= 40 then SummaryResult(Strip(remote.value), RemoteSource)
    else SummaryResult(template, TemplateSource)
  }
}
