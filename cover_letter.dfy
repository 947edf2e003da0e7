/**
 * The cover-letter generator: the template letter (`_generate_cover_letter_template`),
 * the prompt for the remote model (`_build_cover_letter_prompt`) and the choice between
 * them (`generate_cover_letter`). The paragraph cleanup the template ends with is the
 * `Paragraphs` module.
 */
module CoverLetter {
  import opened Wrappers
  import opened Text
  import opened Selection
  import opened Paragraphs

  datatype CoverLetterInput = CoverLetterInput(
    fullName: string,
    targetRole: string,
    companyName: string,
    yearsExperience: int,
    keySkills: seq<string>,
    keyAchievements: seq<string>,
    tools: seq<string>,
    motivation: string,
    location: string,
    email: string,
    phone: string,
    dateLine: string,
    hiringManagerName: string)

  datatype CoverLetterResult = CoverLetterResult(coverLetter: string, source: string)

  // ---------------------------------------------------------------------------
  // Pieces of the template letter
  // ---------------------------------------------------------------------------

  const DefaultSalutation := "Dear Hiring Manager,"

  function Salutation(managerName: string): string {
    var name := Strip(managerName);
    if name != "" then "Dear " + name + "," else DefaultSalutation
  }

  /** `", ".join(items[:cap]).strip()`. */
  function ListText(items: seq<string>, cap: nat): string {
    Strip(Join(", ", Take(items, cap)))
  }

  /** At most two achievements, each without its trailing full stops. */
  function Highlights(achievements: seq<string>): string {
    var a := achievements;
    if a == [] then ""
    else if |a| == 1 then "One highlight includes " + RStripChar(a[0], '.') + "."
    else "Key highlights include " + RStripChar(a[0], '.') + " and " + RStripChar(a[1], '.') + "."
  }

  /**
   * The fixed wording around the variable parts of the letter. The longer sentences are
   * written in short pieces, each of which can be checked for line breaks on its own.
   */
  const MotivationFallbackLead := "I\U{2019}m excited " + "about the " + "opportunity " + "to contribute to "
  const IntroLead := "I am writing " + "to apply for the "
  const SkillsDefault := "delivering " + "high-quality " + "results"
  const ToolsLead := "I am proficient with tools such as "
  const YearsLead := "+ years of " + "experience, " + "I have " + "developed " + "strong " + "capabilities in "
  const ExperienceLead :=
    "In previous " + "roles, I have " + "consistently " + "supported " + "performance " + "and outcomes "
    + "through quality " + "delivery, " + "collaboration, " + "and data-" + "informed " + "decision-" + "making. "

  function MotivationLine(motivation: string, company: string): string {
    var m := Strip(motivation);
    if m != "" then m
    else MotivationFallbackLead + company + " in this role."
  }

  const WarmLine := "I\U{2019}d welcome the chance to bring my energy and commitment to your team."
  const ConfidentLine := "I am confident I can deliver immediate value and measurable outcomes in this position."
  const StandardLine := "I would welcome the opportunity to support your team and deliver measurable results."

  /** The sentence chosen by the tone, compared in lower case. */
  function ToneLine(tone: string): string {
    var t := Lower(tone);
    if t in {"warm", "friendly"} then WarmLine
    else if t in {"confident", "assertive"} then ConfidentLine
    else StandardLine
  }

  const JdHintText :=
    " I have " + "reviewed the " + "role " + "requirements " + "and can align " + "my experience "
    + "to the key " + "priorities " + "outlined."

  /** The extra sentence for a job description longer than 40 characters once stripped. */
  function JdHint(jobDescription: Option<string>): string {
    if Given(jobDescription) && |Strip(jobDescription.value)| > 40 then JdHintText else ""
  }

  function IntroLine(role: string, company: string, hint: string, years: int, skills: string): string {
    IntroLead + role + " position at " + company + "." + hint
      + " With " + IntToString(years) + YearsLead
      + (if skills != "" then skills else SkillsDefault) + "."
  }

  function ExperienceLine(highlights: string, tools: string): string {
    ExperienceLead + highlights + (if highlights != "" then " " else "")
      + (if tools != "" then ToolsLead + tools + "." else "")
  }

  function ClosingLine(toneLine: string, company: string): string {
    toneLine + " Thank you for considering my application. I look forward to the possibility of "
      + "discussing how my experience and skills can support " + company + "."
  }

  /** The paragraphs of the letter before cleanup, separated by blank lines. */
  function LetterParagraphs(data: CoverLetterInput, jobDescription: Option<string>, tone: string): seq<string> {
    [Salutation(data.hiringManagerName), "",
     IntroLine(data.targetRole, data.companyName, JdHint(jobDescription), data.yearsExperience,
               ListText(data.keySkills, 10)), "",
     MotivationLine(data.motivation, data.companyName), "",
     ExperienceLine(Highlights(data.keyAchievements), ListText(data.tools, 8)), "",
     ClosingLine(ToneLine(tone), data.companyName)]
  }

  /** The lines of the letter before cleanup: the paragraphs, a blank line and the signature. */
  function BodyLines(data: CoverLetterInput, jobDescription: Option<string>, tone: string): seq<string> {
    LetterParagraphs(data, jobDescription, tone) + ["", "Sincerely,", data.fullName]
  }

  /** The letter before cleanup; every line, the last one included, ends with a newline. */
  function LetterBody(data: CoverLetterInput, jobDescription: Option<string>, tone: string): string {
    Join("\n", BodyLines(data, jobDescription, tone)) + "\n"
  }

  /** `_generate_cover_letter_template`. */
  function CoverLetterTemplate(data: CoverLetterInput, jobDescription: Option<string>, tone: string): string {
    CleanupParagraphs(LetterBody(data, jobDescription, tone))
  }

  // ---------------------------------------------------------------------------
  // What the template letter looks like
  // ---------------------------------------------------------------------------

  /**
   * The letter has no whitespace at either end, never three newlines in a row, no blank
   * line first or last or twice in a row, every line is whitespace-collapsed and trimmed,
   * and cleaning it again changes nothing.
   */
  lemma LetterShape(data: CoverLetterInput, jobDescription: Option<string>, tone: string)
    ensures var letter := CoverLetterTemplate(data, jobDescription, tone);
      && Trimmed(letter) && NoTripleNewline(letter)
      && IsTidy(SplitLines(letter)) && AllClean(SplitLines(letter))
      && letter == Join("\n", SplitLines(letter))
      && CleanupParagraphs(letter) == letter
  {
    var body := LetterBody(data, jobDescription, tone);
    CleanupParagraphsShape(body);
    CleanupParagraphsLinesOf(body);
    CleanupParagraphsIdempotent(body);
  }

  lemma DefaultSalutationClean()
    ensures IsClean(DefaultSalutation)
  {
    var ws := ["Dear", "Hiring", "Manager,"];
    assert Join(" ", ws) == DefaultSalutation;
    JoinWordsClean(ws);
  }

  lemma NoLineBreakConcat(a: string, b: string)
    requires NoLineBreak(a) && NoLineBreak(b)
    ensures NoLineBreak(a + b)
  {
    forall i | 0 <= i < |a + b| ensures !IsLineBreak((a + b)[i]) {
      if i >= |a| {
        assert (a + b)[i] == b[i - |a|];
      }
    }
  }

  lemma NamedSalutationOneLine(name: string)
    requires NoLineBreak(name)
    ensures NoLineBreak("Dear " + name + ",")
  {
    assert NoLineBreak("Dear ");
    NoLineBreakConcat("Dear ", name);
    assert NoLineBreak(",");
    NoLineBreakConcat("Dear " + name, ",");
  }

  lemma SalutationOneLine(managerName: string)
    requires NoLineBreak(managerName)
    ensures NoLineBreak(Salutation(managerName))
    ensures Cleanup(Salutation(managerName)) != ""
  {
    var sal := Salutation(managerName);
    if Strip(managerName) != "" {
      StripNoLineBreak(managerName);
      NamedSalutationOneLine(Strip(managerName));
    } else {
      DefaultSalutationClean();
      CleanNoLineBreak(DefaultSalutation);
    }
    assert sal[0] == 'D';
    CleanupIsClean(sal);
  }

  lemma Regroup(a: string, b: string, c: string, d: string)
    ensures a + b + c + d == a + (b + (c + d))
  {
  }

  lemma AppendPair(xs: seq<string>, a: string, b: string)
    ensures xs + [a, b] == (xs + [a]) + [b]
  {
  }

  /** The first line of a cleaned text whose first line is a single line that is not blank. */
  lemma FirstLineOf(bl: seq<string>)
    requires |bl| >= 2 && NoLineBreak(bl[0]) && Cleanup(bl[0]) != ""
    ensures var lines := SplitLines(CleanupParagraphs(Join("\n", bl) + "\n"));
      lines != [] && lines[0] == Cleanup(bl[0])
  {
    var body := Join("\n", bl) + "\n";
    var rest := Join("\n", bl[1..]) + "\n";
    JoinEnds("\n", bl);
    Regroup(bl[0], "\n", Join("\n", bl[1..]), "\n");
    SplitLinesCons(bl[0], rest);
    CleanLinesAppend([bl[0]], SplitLines(rest));
    TidyLinesHead(CleanLines([bl[0]] + SplitLines(rest)));
    CleanupParagraphsLinesOf(body);
  }

  /**
   * With a one-line hiring manager name, the letter opens with the cleaned salutation:
   * "Dear Hiring Manager," when no name is given.
   */
  lemma LetterFirstLine(data: CoverLetterInput, jobDescription: Option<string>, tone: string)
    requires NoLineBreak(data.hiringManagerName)
    ensures var lines := SplitLines(CoverLetterTemplate(data, jobDescription, tone));
      lines != [] && lines[0] == Cleanup(Salutation(data.hiringManagerName))
    ensures var lines := SplitLines(CoverLetterTemplate(data, jobDescription, tone));
      Strip(data.hiringManagerName) == "" ==> lines != [] && lines[0] == DefaultSalutation
  {
    SalutationOneLine(data.hiringManagerName);
    FirstLineOf(BodyLines(data, jobDescription, tone));
    if Strip(data.hiringManagerName) == "" {
      DefaultSalutationClean();
      CleanupOfClean(DefaultSalutation);
    }
  }

  // ---------------------------------------------------------------------------
  // The opening paragraphs, line by line
  // ---------------------------------------------------------------------------

  lemma YearsLeadOneLine()
    ensures NoLineBreak(YearsLead)
  {
    assert NoLineBreak("+ years of ");
    assert NoLineBreak("experience, ");
    assert NoLineBreak("I have ");
    assert NoLineBreak("developed ");
    assert NoLineBreak("strong ");
    assert NoLineBreak("capabilities in ");
    NoLineBreakConcat("+ years of ", "experience, ");
    NoLineBreakConcat("+ years of " + "experience, ", "I have ");
    NoLineBreakConcat("+ years of " + "experience, " + "I have ", "developed ");
    NoLineBreakConcat("+ years of " + "experience, " + "I have " + "developed ", "strong ");
    NoLineBreakConcat("+ years of " + "experience, " + "I have " + "developed " + "strong ", "capabilities in ");
  }

  lemma MotivationFallbackLeadOneLine()
    ensures NoLineBreak(MotivationFallbackLead)
  {
    assert NoLineBreak("I\U{2019}m excited ");
    assert NoLineBreak("about the ");
    assert NoLineBreak("opportunity ");
    assert NoLineBreak("to contribute to ");
    NoLineBreakConcat("I\U{2019}m excited ", "about the ");
    NoLineBreakConcat("I\U{2019}m excited " + "about the ", "opportunity ");
    NoLineBreakConcat("I\U{2019}m excited " + "about the " + "opportunity ", "to contribute to ");
  }

  lemma ExperienceLeadOneLine()
    ensures NoLineBreak(ExperienceLead)
  {
    assert NoLineBreak("In previous ");
    assert NoLineBreak("roles, I have ");
    assert NoLineBreak("consistently ");
    assert NoLineBreak("supported ");
    assert NoLineBreak("performance ");
    assert NoLineBreak("and outcomes ");
    assert NoLineBreak("through quality ");
    assert NoLineBreak("delivery, ");
    assert NoLineBreak("collaboration, ");
    assert NoLineBreak("and data-");
    assert NoLineBreak("informed ");
    assert NoLineBreak("decision-");
    assert NoLineBreak("making. ");
    NoLineBreakConcat("In previous ", "roles, I have ");
    NoLineBreakConcat("In previous " + "roles, I have ", "consistently ");
    NoLineBreakConcat("In previous " + "roles, I have " + "consistently ", "supported ");
    NoLineBreakConcat("In previous " + "roles, I have " + "consistently " + "supported ", "performance ");
    NoLineBreakConcat("In previous " + "roles, I have " + "consistently " + "supported " + "performance ", "and outcomes ");
    NoLineBreakConcat("In previous " + "roles, I have " + "consistently " + "supported " + "performance " + "and outcomes ", "through quality ");
    NoLineBreakConcat("In previous " + "roles, I have " + "consistently " + "supported " + "performance " + "and outcomes " + "through quality ", "delivery, ");
    NoLineBreakConcat("In previous " + "roles, I have " + "consistently " + "supported " + "performance " + "and outcomes " + "through quality " + "delivery, ", "collaboration, ");
    NoLineBreakConcat("In previous " + "roles, I have " + "consistently " + "supported " + "performance " + "and outcomes " + "through quality " + "delivery, " + "collaboration, ", "and data-");
    NoLineBreakConcat("In previous " + "roles, I have " + "consistently " + "supported " + "performance " + "and outcomes " + "through quality " + "delivery, " + "collaboration, " + "and data-", "informed ");
    NoLineBreakConcat("In previous " + "roles, I have " + "consistently " + "supported " + "performance " + "and outcomes " + "through quality " + "delivery, " + "collaboration, " + "and data-" + "informed ", "decision-");
    NoLineBreakConcat("In previous " + "roles, I have " + "consistently " + "supported " + "performance " + "and outcomes " + "through quality " + "delivery, " + "collaboration, " + "and data-" + "informed " + "decision-", "making. ");
  }

  lemma JdHintTextOneLine()
    ensures NoLineBreak(JdHintText)
  {
    assert NoLineBreak(" I have ");
    assert NoLineBreak("reviewed the ");
    assert NoLineBreak("role ");
    assert NoLineBreak("requirements ");
    assert NoLineBreak("and can align ");
    assert NoLineBreak("my experience ");
    assert NoLineBreak("to the key ");
    assert NoLineBreak("priorities ");
    assert NoLineBreak("outlined.");
    NoLineBreakConcat(" I have ", "reviewed the ");
    NoLineBreakConcat(" I have " + "reviewed the ", "role ");
    NoLineBreakConcat(" I have " + "reviewed the " + "role ", "requirements ");
    NoLineBreakConcat(" I have " + "reviewed the " + "role " + "requirements ", "and can align ");
    NoLineBreakConcat(" I have " + "reviewed the " + "role " + "requirements " + "and can align ", "my experience ");
    NoLineBreakConcat(" I have " + "reviewed the " + "role " + "requirements " + "and can align " + "my experience ", "to the key ");
    NoLineBreakConcat(" I have " + "reviewed the " + "role " + "requirements " + "and can align " + "my experience " + "to the key ", "priorities ");
    NoLineBreakConcat(" I have " + "reviewed the " + "role " + "requirements " + "and can align " + "my experience " + "to the key " + "priorities ", "outlined.");
  }

  lemma {:induction false} JoinNoLineBreak(sep: string, xs: seq<string>)
    requires NoLineBreak(sep)
    requires forall k :: 0 <= k < |xs| ==> NoLineBreak(xs[k])
    ensures NoLineBreak(Join(sep, xs))
    decreases |xs|
  {
    if |xs| >= 2 {
      JoinNoLineBreak(sep, xs[1..]);
      NoLineBreakConcat(xs[0], sep);
      NoLineBreakConcat(xs[0] + sep, Join(sep, xs[1..]));
    }
  }

  lemma ListTextOneLine(items: seq<string>, cap: nat)
    requires forall k :: 0 <= k < |items| ==> NoLineBreak(items[k])
    ensures NoLineBreak(ListText(items, cap))
  {
    var t := Take(items, cap);
    assert forall k :: 0 <= k < |t| ==> t[k] == items[k];
    assert NoLineBreak(", ");
    JoinNoLineBreak(", ", t);
    StripNoLineBreak(Join(", ", t));
  }

  /** Items that are not blank and carry no surrounding whitespace give an empty list text only when there are none. */
  lemma ListTextEmpty(items: seq<string>, cap: nat)
    requires cap > 0
    requires forall k :: 0 <= k < |items| ==> items[k] != "" && Trimmed(items[k])
    ensures ListText(items, cap) == "" <==> items == []
  {
    var t := Take(items, cap);
    var j := Join(", ", t);
    StripProperties(j);
    if items != [] {
      assert t[0] == items[0];
      JoinFirst(", ", t);
      assert !IsSpace(j[0]);
    }
  }

  lemma {:induction false} NatToStringOneLine(n: nat)
    ensures NoLineBreak(NatToString(n))
    decreases n
  {
    assert forall d :: 0 <= d < 10 ==> '0' <= DigitChar(d) <= '9';
    if n >= 10 {
      NatToStringOneLine(n / 10);
      NoLineBreakConcat(NatToString(n / 10), [DigitChar(n % 10)]);
    }
  }

  lemma IntToStringOneLine(i: int)
    ensures NoLineBreak(IntToString(i))
  {
    NatToStringOneLine(if i < 0 then -i else i);
    if i < 0 {
      NoLineBreakConcat("-", NatToString(-i));
    }
  }

  /** A text that starts with a character other than whitespace does not clean to nothing. */
  lemma CleanupNotBlank(s: string)
    requires s != [] && !IsSpace(s[0])
    ensures Cleanup(s) != ""
  {
    CleanupIsClean(s);
  }

  lemma IntroOneLine(role: string, company: string, hint: string, years: int, skills: string)
    requires NoLineBreak(role) && NoLineBreak(company) && NoLineBreak(hint) && NoLineBreak(skills)
    ensures NoLineBreak(IntroLine(role, company, hint, years, skills))
    ensures Cleanup(IntroLine(role, company, hint, years, skills)) != ""
  {
    var y := IntToString(years);
    var sk := if skills != "" then skills else SkillsDefault;
    IntToStringOneLine(years);
    assert NoLineBreak("I am writing ") && NoLineBreak("to apply for the ");
    NoLineBreakConcat("I am writing ", "to apply for the ");
    assert NoLineBreak(" position at ");
    assert NoLineBreak(".");
    assert NoLineBreak(" With ");
    YearsLeadOneLine();
    assert NoLineBreak("delivering ") && NoLineBreak("high-quality ") && NoLineBreak("results");
    NoLineBreakConcat("delivering ", "high-quality ");
    NoLineBreakConcat("delivering " + "high-quality ", "results");
    var a1 := IntroLead + role;
    NoLineBreakConcat(IntroLead, role);
    NoLineBreakConcat(a1, " position at ");
    NoLineBreakConcat(a1 + " position at ", company);
    var a2 := a1 + " position at " + company;
    NoLineBreakConcat(a2, ".");
    NoLineBreakConcat(a2 + ".", hint);
    var a3 := a2 + "." + hint;
    NoLineBreakConcat(a3, " With ");
    NoLineBreakConcat(a3 + " With ", y);
    var a4 := a3 + " With " + y;
    NoLineBreakConcat(a4, YearsLead);
    var a5 := a4 + YearsLead;
    NoLineBreakConcat(a5, sk);
    NoLineBreakConcat(a5 + sk, ".");
    assert IntroLine(role, company, hint, years, skills) == a5 + sk + ".";
    CleanupNotBlank(a5 + sk + ".");
  }

  lemma MotivationOneLine(motivation: string, company: string)
    requires NoLineBreak(motivation) && NoLineBreak(company)
    ensures NoLineBreak(MotivationLine(motivation, company))
    ensures Cleanup(MotivationLine(motivation, company)) != ""
  {
    var m := Strip(motivation);
    if m != "" {
      StripNoLineBreak(motivation);
      StripProperties(motivation);
      CleanupNotBlank(m);
    } else {
      MotivationFallbackLeadOneLine();
      assert NoLineBreak(" in this role.");
      NoLineBreakConcat(MotivationFallbackLead, company);
      NoLineBreakConcat(MotivationFallbackLead + company, " in this role.");
      CleanupNotBlank(MotivationFallbackLead + company + " in this role.");
    }
  }

  lemma RStripCharOneLine(s: string, c: char)
    requires NoLineBreak(s)
    ensures NoLineBreak(RStripChar(s, c))
  {
  }

  lemma HighlightsOneLine(a: seq<string>)
    requires forall k :: 0 <= k < |a| ==> NoLineBreak(a[k])
    ensures NoLineBreak(Highlights(a))
  {
    if a != [] {
      RStripCharOneLine(a[0], '.');
      var x := RStripChar(a[0], '.');
      assert NoLineBreak(".");
      if |a| == 1 {
        assert NoLineBreak("One highlight includes ");
        NoLineBreakConcat("One highlight includes ", x);
        NoLineBreakConcat("One highlight includes " + x, ".");
      } else {
        RStripCharOneLine(a[1], '.');
        var y := RStripChar(a[1], '.');
        assert NoLineBreak("Key highlights include ");
        assert NoLineBreak(" and ");
        NoLineBreakConcat("Key highlights include ", x);
        NoLineBreakConcat("Key highlights include " + x, " and ");
        NoLineBreakConcat("Key highlights include " + x + " and ", y);
        NoLineBreakConcat("Key highlights include " + x + " and " + y, ".");
      }
    }
  }

  lemma ExperienceOneLine(highlights: string, tools: string)
    requires NoLineBreak(highlights) && NoLineBreak(tools)
    ensures NoLineBreak(ExperienceLine(highlights, tools))
    ensures Cleanup(ExperienceLine(highlights, tools)) != ""
  {
    var lead := ExperienceLead;
    var gap := if highlights != "" then " " else "";
    var ts := if tools != "" then ToolsLead + tools + "." else "";
    ExperienceLeadOneLine();
    assert NoLineBreak(gap);
    assert NoLineBreak(ToolsLead) && NoLineBreak(".");
    NoLineBreakConcat(ToolsLead, tools);
    NoLineBreakConcat(ToolsLead + tools, ".");
    NoLineBreakConcat(lead, highlights);
    NoLineBreakConcat(lead + highlights, gap);
    NoLineBreakConcat(lead + highlights + gap, ts);
    assert ExperienceLine(highlights, tools) == lead + highlights + gap + ts;
    CleanupNotBlank(lead + highlights + gap + ts);
  }

  /** The fields the opening paragraphs are made of hold one line each. */
  predicate OneLineOpening(data: CoverLetterInput) {
    && NoLineBreak(data.hiringManagerName) && NoLineBreak(data.targetRole)
    && NoLineBreak(data.companyName) && NoLineBreak(data.motivation)
    && (forall k :: 0 <= k < |data.keySkills| ==> NoLineBreak(data.keySkills[k]))
  }

  /** The fields of the paragraph on previous roles hold one line each. */
  predicate OneLineExperience(data: CoverLetterInput) {
    && (forall k :: 0 <= k < |data.keyAchievements| ==> NoLineBreak(data.keyAchievements[k]))
    && (forall k :: 0 <= k < |data.tools| ==> NoLineBreak(data.tools[k]))
  }

  lemma JdHintOneLine(jobDescription: Option<string>)
    ensures NoLineBreak(JdHint(jobDescription))
  {
    JdHintTextOneLine();
  }

  /**
   * With one-line fields, the letter opens with the salutation, the introduction, the
   * motivation and the paragraph on previous roles, each cleaned, with one blank line between them.
   */
  lemma LetterOpening(data: CoverLetterInput, jobDescription: Option<string>, tone: string)
    requires OneLineOpening(data) && OneLineExperience(data)
    ensures var lines := SplitLines(CoverLetterTemplate(data, jobDescription, tone));
      && |lines| >= 7
      && lines[0] == Cleanup(Salutation(data.hiringManagerName))
      && lines[2] == Cleanup(IntroLine(data.targetRole, data.companyName, JdHint(jobDescription),
                                       data.yearsExperience, ListText(data.keySkills, 10)))
      && lines[4] == Cleanup(MotivationLine(data.motivation, data.companyName))
      && lines[6] == Cleanup(ExperienceLine(Highlights(data.keyAchievements), ListText(data.tools, 8)))
      && lines[1] == "" && lines[3] == "" && lines[5] == ""
  {
    SalutationOneLine(data.hiringManagerName);
    JdHintOneLine(jobDescription);
    ListTextOneLine(data.keySkills, 10);
    ListTextOneLine(data.tools, 8);
    HighlightsOneLine(data.keyAchievements);
    IntroOneLine(data.targetRole, data.companyName, JdHint(jobDescription), data.yearsExperience,
                 ListText(data.keySkills, 10));
    MotivationOneLine(data.motivation, data.companyName);
    ExperienceOneLine(Highlights(data.keyAchievements), ListText(data.tools, 8));
    LetterFront(Salutation(data.hiringManagerName),
                IntroLine(data.targetRole, data.companyName, JdHint(jobDescription), data.yearsExperience,
                          ListText(data.keySkills, 10)),
                MotivationLine(data.motivation, data.companyName),
                ExperienceLine(Highlights(data.keyAchievements), ListText(data.tools, 8)),
                ClosingLine(ToneLine(tone), data.companyName), ["", "Sincerely,", data.fullName]);
  }

  /** The front of the letter, for any paragraphs and signature. */
  lemma LetterFront(a: string, b: string, c: string, d: string, e: string, sig: seq<string>)
    requires NoLineBreak(a) && NoLineBreak(b) && NoLineBreak(c) && NoLineBreak(d)
    requires Cleanup(a) != "" && Cleanup(b) != "" && Cleanup(c) != "" && Cleanup(d) != ""
    ensures var lines := SplitLines(CleanupParagraphs(Join("\n", [a, "", b, "", c, "", d, "", e] + sig) + "\n"));
      && |lines| >= 7
      && lines[0] == Cleanup(a) && lines[2] == Cleanup(b) && lines[4] == Cleanup(c) && lines[6] == Cleanup(d)
      && lines[1] == "" && lines[3] == "" && lines[5] == ""
  {
    var bl := [a, "", b, "", c, "", d, "", e] + sig;
    assert bl[0] == a && bl[1] == "" && bl[2] == b && bl[3] == "" && bl[4] == c && bl[5] == "" && bl[6] == d;
    OpeningLines(bl);
  }

  lemma OpeningLines(bl: seq<string>)
    requires |bl| > 7 && bl[1] == "" && bl[3] == "" && bl[5] == ""
    requires NoLineBreak(bl[0]) && NoLineBreak(bl[2]) && NoLineBreak(bl[4]) && NoLineBreak(bl[6])
    requires Cleanup(bl[0]) != "" && Cleanup(bl[2]) != "" && Cleanup(bl[4]) != "" && Cleanup(bl[6]) != ""
    ensures var lines := SplitLines(CleanupParagraphs(Join("\n", bl) + "\n"));
      && |lines| >= 7
      && lines[0] == Cleanup(bl[0]) && lines[2] == Cleanup(bl[2])
      && lines[4] == Cleanup(bl[4]) && lines[6] == Cleanup(bl[6])
      && lines[1] == "" && lines[3] == "" && lines[5] == ""
  {
    var r := CleanLines(bl[..7]);
    CleanupEmpty();
    assert r[1] == "" && r[3] == "" && r[5] == "";
    AlternatingTidy(r);
    assert forall i :: 0 <= i < 7 ==> NoLineBreak(bl[i]) by {
      assert NoLineBreak("");
    }
    CleanupParagraphsFront(bl, 7);
  }

  lemma AlternatingTidy(r: seq<string>)
    requires |r| == 7 && r[1] == "" && r[3] == "" && r[5] == ""
    requires r[0] != "" && r[2] != "" && r[4] != "" && r[6] != ""
    ensures IsTidy(r)
  {
    forall i | 0 <= i < 6 ensures !(r[i] == "" && r[i + 1] == "") {
      if i % 2 == 1 {
        assert r[i + 1] != "";
      }
    }
  }

  /**
   * The motivation paragraph is the fifth line: the stripped motivation, or the fixed
   * sentence naming the company when the motivation is blank.
   */
  lemma LetterMotivation(data: CoverLetterInput, jobDescription: Option<string>, tone: string)
    requires OneLineOpening(data) && OneLineExperience(data)
    ensures var lines := SplitLines(CoverLetterTemplate(data, jobDescription, tone));
      && |lines| > 4
      && (Strip(data.motivation) != "" ==> lines[4] == Cleanup(Strip(data.motivation)))
      && (Strip(data.motivation) == "" ==>
            lines[4] == Cleanup(MotivationFallbackLead + data.companyName + " in this role."))
  {
    LetterOpening(data, jobDescription, tone);
  }

  /** Without skills, the introduction credits "delivering high-quality results". */
  lemma IntroSkillsDefault(role: string, company: string, hint: string, years: int)
    ensures IntroLine(role, company, hint, years, "") == IntroLine(role, company, hint, years, SkillsDefault)
  {
  }

  /**
   * With one-line fields and skills that are not blank and carry no surrounding whitespace,
   * the introduction is the third line and falls back to the default phrase exactly when
   * no skills are given.
   */
  lemma LetterSkills(data: CoverLetterInput, jobDescription: Option<string>, tone: string)
    requires OneLineOpening(data) && OneLineExperience(data)
    requires forall k :: 0 <= k < |data.keySkills| ==> data.keySkills[k] != "" && Trimmed(data.keySkills[k])
    ensures var lines := SplitLines(CoverLetterTemplate(data, jobDescription, tone));
      && |lines| > 2
      && (data.keySkills == [] <==> ListText(data.keySkills, 10) == "")
      && lines[2] == Cleanup(IntroLine(data.targetRole, data.companyName, JdHint(jobDescription), data.yearsExperience,
                                       if data.keySkills == [] then SkillsDefault else ListText(data.keySkills, 10)))
  {
    LetterOpening(data, jobDescription, tone);
    ListTextEmpty(data.keySkills, 10);
    IntroSkillsDefault(data.targetRole, data.companyName, JdHint(jobDescription), data.yearsExperience);
  }

  /** The paragraph on previous roles ends with the tools sentence exactly when there is a tools text. */
  lemma ToolsSentence(highlights: string, tools: string)
    ensures var e := ExperienceLine(highlights, tools);
      var t := ToolsLead + tools + ".";
      tools != "" <==> |e| >= |t| && e[|e| - |t|..] == t
  {
    var e := ExperienceLine(highlights, tools);
    var lead := ExperienceLead;
    var gap := if highlights != "" then " " else "";
    if tools != "" {
      EndsWith(lead + highlights + gap, ToolsLead + tools + ".");
    } else {
      assert e == lead + highlights + gap;
      assert e[|e| - 1] == ' ';
    }
  }

  /**
   * With one-line fields and tools that are not blank and carry no surrounding whitespace,
   * the paragraph on previous roles is the seventh line and carries the tools sentence
   * exactly when tools are given.
   */
  lemma LetterTools(data: CoverLetterInput, jobDescription: Option<string>, tone: string)
    requires OneLineOpening(data) && OneLineExperience(data)
    requires forall k :: 0 <= k < |data.tools| ==> data.tools[k] != "" && Trimmed(data.tools[k])
    ensures var lines := SplitLines(CoverLetterTemplate(data, jobDescription, tone));
      var tools := ListText(data.tools, 8);
      var e := ExperienceLine(Highlights(data.keyAchievements), tools);
      var t := ToolsLead + tools + ".";
      && |lines| > 6 && lines[6] == Cleanup(e)
      && (data.tools != [] <==> |e| >= |t| && e[|e| - |t|..] == t)
  {
    LetterOpening(data, jobDescription, tone);
    ListTextEmpty(data.tools, 8);
    ToolsSentence(Highlights(data.keyAchievements), ListText(data.tools, 8));
  }

  /** The signature block: a blank line, "Sincerely," and the name. */
  function Signature(name: string): seq<string> { ["", "Sincerely,", name] }

  lemma SignatureLines(name: string)
    requires NoLineBreak(name)
    ensures SplitLines("" + ("\n" + ("Sincerely," + ("\n" + (name + "\n"))))) == Signature(name)
  {
    assert NoLineBreak("Sincerely,");
    assert NoLineBreak("");
    SplitThreeLines("", "Sincerely,", name);
  }

  lemma SplitThreeLines(a: string, b: string, c: string)
    requires NoLineBreak(a) && NoLineBreak(b) && NoLineBreak(c)
    ensures SplitLines(a + ("\n" + (b + ("\n" + (c + "\n"))))) == [a, b, c]
  {
    SplitLinesCons(c, "");
    assert c + "\n" == c + ("\n" + "");
    SplitLinesCons(b, c + "\n");
    SplitLinesCons(a, b + ("\n" + (c + "\n")));
  }

  lemma SignatureJoin(p: string, name: string)
    ensures p + "\n" + Join("\n", Signature(name)) + "\n"
      == p + ("\n" + ("" + ("\n" + ("Sincerely," + ("\n" + (name + "\n"))))))
  {
    JoinEnds("\n", Signature(name));
    assert Signature(name)[1..] == ["Sincerely,", name];
    JoinEnds("\n", ["Sincerely,", name]);
    assert Join("\n", Signature(name)) == "" + "\n" + ("Sincerely," + "\n" + name);
  }

  /** Splitting a signed text after lines whose last one ends in an ordinary character. */
  lemma SignedSplit(front: seq<string>, name: string)
    requires front != [] && front[|front| - 1] != ""
    requires !IsLineBreak(front[|front| - 1][|front[|front| - 1]| - 1])
    requires NoLineBreak(name)
    ensures SplitLines(Join("\n", front + Signature(name)) + "\n")
      == SplitLines(Join("\n", front)) + Signature(name)
  {
    var p := Join("\n", front);
    JoinAppend("\n", front, Signature(name));
    SignatureJoin(p, name);
    JoinLast("\n", front);
    SplitLinesAfter(p, "" + ("\n" + ("Sincerely," + ("\n" + (name + "\n")))));
    SignatureLines(name);
  }

  lemma SincerelyClean()
    ensures Cleanup("Sincerely,") == "Sincerely,"
  {
    assert IsClean("Sincerely,");
    CleanupOfClean("Sincerely,");
  }

  lemma SignatureClean(cx: seq<string>, name: string)
    ensures CleanLines(Signature(name)) == ["", "Sincerely,", Cleanup(name)]
    ensures cx + ["", "Sincerely,", Cleanup(name)] == (cx + [""]) + ["Sincerely,", Cleanup(name)]
    ensures ((cx + [""]) + ["Sincerely,"]) + [""] == (cx + [""]) + ["Sincerely,", ""]
  {
    SincerelyClean();
    assert IsClean("");
    CleanupOfClean("");
  }

  /** The last lines of a cleaned signed text. */
  lemma SignedLastLines(front: seq<string>, name: string)
    requires front != [] && front[|front| - 1] != ""
    requires !IsLineBreak(front[|front| - 1][|front[|front| - 1]| - 1])
    requires NoLineBreak(name)
    ensures var lines := SplitLines(CleanupParagraphs(Join("\n", front + Signature(name)) + "\n"));
      Cleanup(name) != "" ==> |lines| >= 2 && lines[|lines| - 2..] == ["Sincerely,", Cleanup(name)]
    ensures var lines := SplitLines(CleanupParagraphs(Join("\n", front + Signature(name)) + "\n"));
      Cleanup(name) == "" ==> lines != [] && lines[|lines| - 1] == "Sincerely,"
  {
    var body := Join("\n", front + Signature(name)) + "\n";
    var x := SplitLines(Join("\n", front));
    SignedSplit(front, name);
    CleanLinesAppend(x, Signature(name));
    var cx := CleanLines(x);
    var c := Cleanup(name);
    SignatureClean(cx, name);
    CleanupParagraphsLinesOf(body);
    assert SplitLines(CleanupParagraphs(body)) == TidyLines(cx + ["", "Sincerely,", c]);
    SignedTail(cx, c);
  }

  /** Tidying cleaned lines followed by the cleaned signature keeps the signature last. */
  lemma SignedTail(cx: seq<string>, c: string)
    ensures var r := TidyLines(cx + ["", "Sincerely,", c]);
      c != "" ==> |r| >= 2 && r[|r| - 2..] == ["Sincerely,", c]
    ensures var r := TidyLines(cx + ["", "Sincerely,", c]);
      c == "" ==> r != [] && r[|r| - 1] == "Sincerely,"
  {
    assert cx + ["", "Sincerely,", c] == (cx + [""]) + ["Sincerely,", c];
    if c != "" {
      TidyLinesEnd(cx + [""], ["Sincerely,", c]);
    } else {
      assert (cx + [""]) + ["Sincerely,", c] == ((cx + [""]) + ["Sincerely,"]) + [""];
      TidyLinesDropBlank((cx + [""]) + ["Sincerely,"]);
      TidyLinesEnd(cx + [""], ["Sincerely,"]);
    }
  }

  lemma ClosingLineEnd(toneLine: string, company: string)
    ensures var c := ClosingLine(toneLine, company); c != "" && c[|c| - 1] == '.'
  {
  }

  /**
   * With a one-line applicant name, the letter is signed: it ends with "Sincerely,"
   * followed by the cleaned name, or with "Sincerely," alone when the name is blank.
   */
  lemma LetterSignature(data: CoverLetterInput, jobDescription: Option<string>, tone: string)
    requires NoLineBreak(data.fullName)
    ensures var lines := SplitLines(CoverLetterTemplate(data, jobDescription, tone));
      Cleanup(data.fullName) != "" ==>
        |lines| >= 2 && lines[|lines| - 2..] == ["Sincerely,", Cleanup(data.fullName)]
    ensures var lines := SplitLines(CoverLetterTemplate(data, jobDescription, tone));
      Cleanup(data.fullName) == "" ==> lines != [] && lines[|lines| - 1] == "Sincerely,"
  {
    var front := LetterParagraphs(data, jobDescription, tone);
    ClosingLineEnd(ToneLine(tone), data.companyName);
    SignedLastLines(front, data.fullName);
  }

  /** The date line, location, e-mail and phone never reach the letter. */
  lemma TemplateIgnoresContactDetails(
    data: CoverLetterInput, jobDescription: Option<string>, tone: string,
    dateLine: string, location: string, email: string, phone: string)
    ensures CoverLetterTemplate(data, jobDescription, tone) ==
      CoverLetterTemplate(data.(dateLine := dateLine, location := location, email := email, phone := phone),
                          jobDescription, tone)
  {
  }

  lemma LowerIdempotent(s: string)
    ensures Lower(Lower(s)) == Lower(s)
  {
    LowerNoUpper(s);
    LowerNoUpper(Lower(s));
  }

  /**
   * The tone is read case-insensitively into three classes: "warm" and "friendly",
   * "confident" and "assertive", and everything else.
   */
  lemma ToneClasses(tone: string)
    ensures ToneLine(tone) == ToneLine(Lower(tone))
    ensures ToneLine(tone) == WarmLine <==> Lower(tone) in {"warm", "friendly"}
    ensures ToneLine(tone) == ConfidentLine <==> Lower(tone) in {"confident", "assertive"}
    ensures ToneLine(tone) == StandardLine <==>
      Lower(tone) !in {"warm", "friendly"} && Lower(tone) !in {"confident", "assertive"}
  {
    LowerIdempotent(tone);
    assert |WarmLine| != |ConfidentLine| && |WarmLine| != |StandardLine| && |ConfidentLine| != |StandardLine|;
  }

  /** The job-description sentence appears exactly when the stripped description is longer than 40 characters. */
  lemma JdHintPresent(jobDescription: Option<string>)
    ensures JdHint(jobDescription) != "" <==> jobDescription.Some? && |Strip(jobDescription.value)| > 40
  {
    assert |JdHintText| > 0;
    if jobDescription.Some? && jobDescription.value == "" {
      StripProperties(jobDescription.value);
    }
  }

  /** Without a job description longer than 40 characters, the letter is the one written without any. */
  lemma JdHintGate(data: CoverLetterInput, jobDescription: Option<string>, tone: string)
    ensures !(jobDescription.Some? && |Strip(jobDescription.value)| > 40) ==>
      CoverLetterTemplate(data, jobDescription, tone) == CoverLetterTemplate(data, None, tone)
  {
    if !(jobDescription.Some? && |Strip(jobDescription.value)| > 40) {
      assert JdHint(jobDescription) == JdHint(None);
      assert LetterParagraphs(data, jobDescription, tone) == LetterParagraphs(data, None, tone);
    }
  }

  /** Only the first ten skills, eight tools and two achievements reach the letter. */
  lemma TemplateCaps(data: CoverLetterInput, jobDescription: Option<string>, tone: string)
    ensures CoverLetterTemplate(data, jobDescription, tone) ==
      CoverLetterTemplate(
        data.(keySkills := Take(data.keySkills, 10), tools := Take(data.tools, 8),
              keyAchievements := Take(data.keyAchievements, 2)),
        jobDescription, tone)
  {
    var capped := data.(keySkills := Take(data.keySkills, 10), tools := Take(data.tools, 8),
                        keyAchievements := Take(data.keyAchievements, 2));
    assert Take(Take(data.keySkills, 10), 10) == Take(data.keySkills, 10);
    assert Take(Take(data.tools, 8), 8) == Take(data.tools, 8);
    assert Highlights(capped.keyAchievements) == Highlights(data.keyAchievements) by {
      var a := data.keyAchievements;
      if |a| >= 2 {
        assert Take(a, 2)[0] == a[0] && Take(a, 2)[1] == a[1];
      } else {
        assert Take(a, 2) == a;
      }
    }
  }

  /**
   * The highlights sentence: none without achievements, the first one alone, or the first
   * two joined by "and", each with its trailing full stops replaced by one.
   */
  lemma HighlightsCases(a: seq<string>)
    ensures Highlights(a) == "" <==> a == []
    ensures Highlights(a) == Highlights(Take(a, 2))
  {
  }

  // ---------------------------------------------------------------------------
  // The prompt for the remote model
  // ---------------------------------------------------------------------------

  const PromptEnd := "Use 4\U{2013}6 short paragraphs. Avoid bullet points. "
    + "Include a polite closing and signature with the applicant name. "
    + "Return only the cover letter text."

  function PromptHead(data: CoverLetterInput, tone: string): string {
    "Write a one-page, ATS-friendly cover letter.\n"
    + "Tone: " + tone + "\n"
    + "Applicant name: " + data.fullName + "\n"
    + "Target role: " + data.targetRole + "\n"
    + "Company: " + data.companyName + "\n"
    + "Years of experience: " + IntToString(data.yearsExperience) + "\n"
    + "Key skills: " + Join(", ", Take(data.keySkills, 12)) + "\n"
    + "Tools: " + Join(", ", Take(data.tools, 10)) + "\n"
    + "Key achievements: " + Join("; ", Take(data.keyAchievements, 3)) + "\n"
    + "Motivation: " + data.motivation + "\n"
  }

  function JdSection(jobDescription: Option<string>): string {
    var jd := if Given(jobDescription) then Strip(jobDescription.value) else "";
    if jd == "" then "" else "Job description:\n" + jd + "\n"
  }

  /** `_build_cover_letter_prompt`. */
  function BuildCoverLetterPrompt(data: CoverLetterInput, jobDescription: Option<string>, tone: string): string {
    PromptHead(data, tone) + JdSection(jobDescription) + PromptEnd
  }

  /**
   * The prompt ends with the fixed instructions; it carries the stripped job description
   * exactly when that is not blank, and is otherwise the prompt without one.
   */
  lemma PromptProperties(data: CoverLetterInput, jobDescription: Option<string>, tone: string)
    ensures var p := BuildCoverLetterPrompt(data, jobDescription, tone);
      |p| >= |PromptEnd| && p[|p| - |PromptEnd|..] == PromptEnd
    ensures jobDescription.Some? && Strip(jobDescription.value) != "" ==>
      BuildCoverLetterPrompt(data, jobDescription, tone)
        == PromptHead(data, tone) + "Job description:\n" + Strip(jobDescription.value) + "\n" + PromptEnd
    ensures (jobDescription.None? || Strip(jobDescription.value) == "") ==>
      BuildCoverLetterPrompt(data, jobDescription, tone) == BuildCoverLetterPrompt(data, None, tone)
  {
    var h := PromptHead(data, tone);
    var j := JdSection(jobDescription);
    EndsWith(h + j, PromptEnd);
    if jobDescription.Some? && Strip(jobDescription.value) != "" {
      Assoc4(h, "Job description:\n", Strip(jobDescription.value), "\n", PromptEnd);
    } else {
      assert j == "";
    }
  }

  /** The prompt uses at most 12 skills, 10 tools and 3 achievements, and no contact details. */
  lemma PromptCaps(data: CoverLetterInput, jobDescription: Option<string>, tone: string)
    ensures BuildCoverLetterPrompt(data, jobDescription, tone) ==
      BuildCoverLetterPrompt(
        data.(keySkills := Take(data.keySkills, 12), tools := Take(data.tools, 10),
              keyAchievements := Take(data.keyAchievements, 3),
              location := "", email := "", phone := "", dateLine := "", hiringManagerName := ""),
        jobDescription, tone)
  {
    assert Take(Take(data.keySkills, 12), 12) == Take(data.keySkills, 12);
    assert Take(Take(data.tools, 10), 10) == Take(data.tools, 10);
    assert Take(Take(data.keyAchievements, 3), 3) == Take(data.keyAchievements, 3);
  }

  // ---------------------------------------------------------------------------
  // Source selection
  // ---------------------------------------------------------------------------

  /**
   * `generate_cover_letter`. `hfToken` is the configured token, `requestsAvailable` whether
   * the HTTP library imported, and `remote` the remote model's answer (`None` when the call
   * raised).
   */
  function GenerateCoverLetter(
    data: CoverLetterInput, jobDescription: Option<string>, tone: string,
    useRemote: bool, hfToken: string, requestsAvailable: bool, remote: Option<string>): (r: CoverLetterResult)
    ensures r.source == RemoteSource <==>
      useRemote && hfToken != "" && requestsAvailable && AcceptRemote(remote, 200)
    ensures r.source == RemoteSource ==> r.coverLetter == Strip(remote.value) && |r.coverLetter| >= 200
    ensures r.source != RemoteSource ==>
      r == CoverLetterResult(CoverLetterTemplate(data, jobDescription, tone), TemplateSource)
  {
    var template := CoverLetterTemplate(data, jobDescription, tone);
    if !useRemote then CoverLetterResult(template, TemplateSource)
    else if hfToken == "" || !requestsAvailable then CoverLetterResult(template, TemplateSource)
    else if remote.None? then CoverLetterResult(template, TemplateSource)
    else if remote.value != "" && |Strip(remote.value)| >= 200 then CoverLetterResult(Strip(remote.value), RemoteSource)
    else CoverLetterResult(template, TemplateSource)
  }
}
