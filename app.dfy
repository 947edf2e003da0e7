/**
 * The helpers of the web front end: the file-name sanitiser (`safe_filename`), the
 * parsing of comma- and line-separated form fields, and the experience and education
 * lists the session keeps, with their guarded additions and removals by position.
 */
module App {
  import opened Wrappers
  import opened Text

  // ---------------------------------------------------------------------------
  // safe_filename
  // ---------------------------------------------------------------------------

  /** The characters a sanitised file name is made of: `a-z`, `0-9`, `-` and `_`. */
  predicate FilenameChar(c: char) { 'a' <= c <= 'z' || '0' <= c <= '9' || c == '-' || c == '_' }

  predicate FilenameText(s: string) { forall i :: 0 <= i < |s| ==> FilenameChar(s[i]) }

  /** The characters `[^a-z0-9\-_\s]` does not match. */
  predicate Kept(c: char) { FilenameChar(c) || IsSpace(c) }

  /** `re.sub(r"[^a-z0-9\-_\s]", "", s)`. */
  function DropDisallowed(s: string): (r: string)
    ensures |r| <= |s|
    ensures forall i :: 0 <= i < |r| ==> Kept(r[i])
  {
    if s == [] then [] else (if Kept(s[0]) then [s[0]] else []) + DropDisallowed(s[1..])
  }

  /** The filter works character by character: it distributes over concatenation. */
  lemma {:induction false} DropDisallowedAppend(a: string, b: string)
    ensures DropDisallowed(a + b) == DropDisallowed(a) + DropDisallowed(b)
    decreases |a|
  {
    if a == [] {
      assert a + b == b;
    } else {
      assert (a + b)[0] == a[0];
      assert (a + b)[1..] == a[1..] + b;
      DropDisallowedAppend(a[1..], b);
    }
  }

  /** One character survives exactly when it is allowed. */
  lemma DropDisallowedSingle(c: char)
    ensures DropDisallowed([c]) == if Kept(c) then [c] else []
  {
    assert [c][1..] == [];
  }

  /** A text made of allowed characters only is left as it is. */
  lemma {:induction false} DropDisallowedKept(s: string)
    requires forall i :: 0 <= i < |s| ==> Kept(s[i])
    ensures DropDisallowed(s) == s
    decreases |s|
  {
    if s != [] {
      DropDisallowedKept(s[1..]);
    }
  }

  const DefaultFilename := "document"

  /** `safe_filename`; `None` stands for a missing name. */
  function SafeFilename(name: Option<string>): string {
    var s := Lower(Strip(name.GetOr("")));
    var underscored := SubSpaceRuns(DropDisallowed(s), "_");
    if underscored == "" then DefaultFilename else underscored
  }

  lemma {:induction false} SubSpaceRunsFilename(s: string)
    requires forall i :: 0 <= i < |s| ==> Kept(s[i])
    ensures FilenameText(SubSpaceRuns(s, "_"))
    ensures SubSpaceRuns(s, "_") == "" <==> s == ""
    decreases |s|
  {
    if s != [] {
      if IsSpace(s[0]) {
        var t := s[SpaceRun(s)..];
        assert forall i :: 0 <= i < |t| ==> t[i] == s[SpaceRun(s) + i];
        SubSpaceRunsFilename(t);
      } else {
        SubSpaceRunsFilename(s[1..]);
      }
    }
  }

  lemma DefaultFilenameText()
    ensures FilenameText(DefaultFilename)
  {
  }

  /** The file name is never empty and is made of `a-z`, `0-9`, `-` and `_` only. */
  lemma SafeFilenameChars(name: Option<string>)
    ensures SafeFilename(name) != ""
    ensures FilenameText(SafeFilename(name))
    ensures NoSpace(SafeFilename(name))
  {
    SubSpaceRunsFilename(DropDisallowed(Lower(Strip(name.GetOr("")))));
    DefaultFilenameText();
  }

  /** Nothing in the text survives the filter. */
  predicate NothingKept(s: string) { forall i :: 0 <= i < |s| ==> !Kept(s[i]) }

  lemma {:induction false} DropDisallowedEmpty(s: string)
    ensures DropDisallowed(s) == "" <==> NothingKept(s)
    decreases |s|
  {
    if s != [] {
      DropDisallowedEmpty(s[1..]);
      assert NothingKept(s) <==> !Kept(s[0]) && NothingKept(s[1..]);
    }
  }

  /** A missing or empty name, or one whose every character is filtered out, gives "document". */
  lemma SafeFilenameDefault(name: Option<string>)
    ensures name.None? ==> SafeFilename(name) == DefaultFilename
    ensures name.Some? && NothingKept(Lower(Strip(name.value))) ==> SafeFilename(name) == DefaultFilename
    ensures SafeFilename(Some("")) == DefaultFilename
  {
    var s := Lower(Strip(name.GetOr("")));
    DropDisallowedEmpty(s);
    SubSpaceRunsFilename(DropDisallowed(s));
    StripProperties("");
    DropDisallowedEmpty(Lower(Strip("")));
    SubSpaceRunsFilename(DropDisallowed(Lower(Strip(""))));
  }

  lemma {:induction false} DropDisallowedKeeps(s: string)
    requires FilenameText(s)
    ensures DropDisallowed(s) == s
    decreases |s|
  {
    if s != [] {
      DropDisallowedKeeps(s[1..]);
    }
  }

  lemma {:induction false} SubSpaceRunsNoSpace(s: string, rep: string)
    requires NoSpace(s)
    ensures SubSpaceRuns(s, rep) == s
    decreases |s|
  {
    if s != [] {
      SubSpaceRunsNoSpace(s[1..], rep);
    }
  }

  /** A non-empty text made of file-name characters is its own file name. */
  lemma SafeFilenameFixed(r: string)
    requires r != "" && FilenameText(r)
    ensures SafeFilename(Some(r)) == r
  {
    assert !IsSpace(r[0]) && !IsSpace(r[|r| - 1]);
    StripProperties(r);
    assert Strip(r) == r;
    LowerNoUpper(r);
    assert Lower(Strip(r)) == r;
    DropDisallowedKeeps(r);
    SubSpaceRunsNoSpace(r, "_");
  }

  /** Sanitising a sanitised name changes nothing. */
  lemma SafeFilenameIdempotent(name: Option<string>)
    ensures SafeFilename(Some(SafeFilename(name))) == SafeFilename(name)
  {
    SafeFilenameChars(name);
    SafeFilenameFixed(SafeFilename(name));
  }

  /** Lower-case letters and digits. */
  predicate Alnum(c: char) { 'a' <= c <= 'z' || '0' <= c <= '9' }

  /** The letters and digits of a text, in order. */
  function AlnumPart(s: string): (r: string)
    ensures |r| <= |s|
    ensures forall i :: 0 <= i < |r| ==> Alnum(r[i])
  {
    if s == [] then [] else (if Alnum(s[0]) then [s[0]] else []) + AlnumPart(s[1..])
  }

  lemma {:induction false} AlnumPartAppend(a: string, b: string)
    ensures AlnumPart(a + b) == AlnumPart(a) + AlnumPart(b)
    decreases |a|
  {
    if a == [] {
      assert a + b == b;
    } else {
      assert (a + b)[1..] == a[1..] + b;
      AlnumPartAppend(a[1..], b);
    }
  }

  lemma {:induction false} AlnumPartOfSpaces(s: string)
    requires NoNonSpace(s)
    ensures AlnumPart(s) == []
    decreases |s|
  {
    if s != [] {
      AlnumPartOfSpaces(s[1..]);
    }
  }

  lemma {:induction false} AlnumPartDrop(s: string)
    ensures AlnumPart(DropDisallowed(s)) == AlnumPart(s)
    decreases |s|
  {
    if s != [] {
      AlnumPartDrop(s[1..]);
      AlnumPartAppend(if Kept(s[0]) then [s[0]] else [], DropDisallowed(s[1..]));
    }
  }

  lemma {:induction false} AlnumPartUnderscored(s: string)
    ensures AlnumPart(SubSpaceRuns(s, "_")) == AlnumPart(s)
    decreases |s|
  {
    if s != [] {
      if IsSpace(s[0]) {
        var k := SpaceRun(s);
        AlnumPartUnderscored(s[k..]);
        AlnumPartAppend("_", SubSpaceRuns(s[k..], "_"));
        assert s == s[..k] + s[k..];
        AlnumPartAppend(s[..k], s[k..]);
        AlnumPartOfSpaces(s[..k]);
      } else {
        AlnumPartUnderscored(s[1..]);
        AlnumPartAppend([s[0]], SubSpaceRuns(s[1..], "_"));
        assert s == [s[0]] + s[1..];
        AlnumPartAppend([s[0]], s[1..]);
      }
    }
  }

  /**
   * Unless the default is returned, the letters and digits of the file name are exactly
   * those of the trimmed, lower-cased name, in order.
   */
  lemma SafeFilenameAlnums(name: Option<string>)
    ensures SafeFilename(name) == DefaultFilename ||
      AlnumPart(SafeFilename(name)) == AlnumPart(Lower(Strip(name.GetOr(""))))
  {
    var s := Lower(Strip(name.GetOr("")));
    AlnumPartDrop(s);
    AlnumPartUnderscored(DropDisallowed(s));
  }

  /**
   * When filtering leaves a text with no whitespace at either end, the file name is its
   * words joined by single underscores: each whitespace run becomes one `_`.
   */
  lemma SafeFilenameWords(name: string)
    requires DropDisallowed(Lower(Strip(name))) != "" && Trimmed(DropDisallowed(Lower(Strip(name))))
    ensures SafeFilename(Some(name)) == Join("_", Words(DropDisallowed(Lower(Strip(name)))))
  {
    var f := DropDisallowed(Lower(Strip(name)));
    SubSpaceRunsTrimmed(f, "_");
    SubSpaceRunsFilename(f);
  }

  // ---------------------------------------------------------------------------
  // List fields of the forms
  // ---------------------------------------------------------------------------

  /** `[x.strip() for x in parts if x.strip()]`. */
  function StrippedItems(parts: seq<string>): (r: seq<string>)
    ensures |r| <= |parts|
    ensures forall k :: 0 <= k < |r| ==> r[k] != "" && Trimmed(r[k])
  {
    if parts == [] then []
    else
      StripTrimmed(parts[0]);
      (if Strip(parts[0]) == "" then [] else [Strip(parts[0])]) + StrippedItems(parts[1..])
  }

  /** A comma-separated field: skills, tools, industries. */
  function CommaList(raw: string): seq<string> {
    StrippedItems(Split(raw, ','))
  }

  /** A field with one item per line: links, achievements, bullets, certifications, projects. */
  function LineList(raw: string): seq<string> {
    StrippedItems(SplitLines(raw))
  }

  /** The items keep the order of the parts: stripping distributes over concatenation. */
  lemma {:induction false} StrippedItemsAppend(a: seq<string>, b: seq<string>)
    ensures StrippedItems(a + b) == StrippedItems(a) + StrippedItems(b)
    decreases |a|
  {
    if a == [] {
      assert a + b == b;
    } else {
      assert (a + b)[0] == a[0];
      assert (a + b)[1..] == a[1..] + b;
      StrippedItemsAppend(a[1..], b);
    }
  }

  /** One part gives its stripped text, or nothing when that is blank. */
  lemma StrippedItemsSingle(x: string)
    ensures StrippedItems([x]) == if Strip(x) == "" then [] else [Strip(x)]
  {
    assert [x][1..] == [];
  }

  lemma {:induction false} StrippedItemsOfTrimmed(items: seq<string>)
    requires forall k :: 0 <= k < |items| ==> items[k] != "" && Trimmed(items[k])
    ensures StrippedItems(items) == items
    decreases |items|
  {
    if items != [] {
      StripProperties(items[0]);
      StrippedItemsOfTrimmed(items[1..]);
    }
  }

  /** Comma-list items are trimmed, not empty and free of commas. */
  lemma CommaListItems(raw: string)
    ensures forall k :: 0 <= k < |CommaList(raw)| ==>
      CommaList(raw)[k] != "" && Trimmed(CommaList(raw)[k]) && ',' !in CommaList(raw)[k]
  {
    CommaItemsNoComma(Split(raw, ','));
  }

  lemma {:induction false} CommaItemsNoComma(parts: seq<string>)
    requires forall k :: 0 <= k < |parts| ==> ',' !in parts[k]
    ensures forall k :: 0 <= k < |StrippedItems(parts)| ==> ',' !in StrippedItems(parts)[k]
    decreases |parts|
  {
    if parts != [] {
      CommaItemsNoComma(parts[1..]);
      StripNoChar(parts[0], ',');
    }
  }

  /** Comma-free, trimmed, non-empty items written with commas are read back unchanged. */
  lemma CommaListRoundTrip(items: seq<string>)
    requires items != []
    requires forall k :: 0 <= k < |items| ==> items[k] != "" && Trimmed(items[k]) && ',' !in items[k]
    ensures CommaList(Join(",", items)) == items
  {
    SplitJoin(items, ',');
    assert [','] == ",";
    StrippedItemsOfTrimmed(items);
  }

  /** Line-list items are trimmed, not empty and hold no line break. */
  lemma LineListItems(raw: string)
    ensures forall k :: 0 <= k < |LineList(raw)| ==>
      LineList(raw)[k] != "" && Trimmed(LineList(raw)[k]) && NoLineBreak(LineList(raw)[k])
  {
    LineItemsOneLine(SplitLines(raw));
  }

  lemma {:induction false} LineItemsOneLine(parts: seq<string>)
    requires forall k :: 0 <= k < |parts| ==> NoLineBreak(parts[k])
    ensures forall k :: 0 <= k < |StrippedItems(parts)| ==> NoLineBreak(StrippedItems(parts)[k])
    decreases |parts|
  {
    if parts != [] {
      LineItemsOneLine(parts[1..]);
      StripNoLineBreak(parts[0]);
    }
  }

  /** Single-line, trimmed, non-empty items written one per line are read back unchanged. */
  lemma LineListRoundTrip(items: seq<string>)
    requires items != []
    requires forall k :: 0 <= k < |items| ==> items[k] != "" && Trimmed(items[k]) && NoLineBreak(items[k])
    ensures LineList(Join("\n", items)) == items
  {
    SplitLinesOfJoined(items);
    StrippedItemsOfTrimmed(items);
  }

  // ---------------------------------------------------------------------------
  // Experience and education entries kept by the session
  // ---------------------------------------------------------------------------

  datatype ExperienceItem = ExperienceItem(
    title: string,
    company: string,
    startDate: string,
    endDate: string,
    location: string,
    bullets: seq<string>)

  datatype EducationItem = EducationItem(
    degree: string,
    institution: string,
    year: string,
    details: string)

  /** Every entry has a title and a company. */
  predicate GoodExperience(e: ExperienceItem) {
    e.title != "" && Trimmed(e.title) && e.company != "" && Trimmed(e.company)
  }

  /** Every entry has a degree and an institution. */
  predicate GoodEducation(e: EducationItem) {
    e.degree != "" && Trimmed(e.degree) && e.institution != "" && Trimmed(e.institution)
  }

  /** The entry the experience form submits: none unless title and company are given. */
  function ExperienceEntry(
    title: string, company: string, startDate: string, endDate: string,
    location: string, bulletsRaw: string): (r: Option<ExperienceItem>)
    ensures r.Some? <==> Strip(title) != "" && Strip(company) != ""
    ensures r.Some? ==> GoodExperience(r.value)
    ensures r.Some? ==>
      && r.value.title == Strip(title) && r.value.company == Strip(company)
      && r.value.startDate == Strip(startDate) && r.value.endDate == Strip(endDate)
      && r.value.location == Strip(location) && r.value.bullets == LineList(bulletsRaw)
  {
    StripProperties(title);
    StripProperties(company);
    if Strip(title) == "" || Strip(company) == "" then None
    else Some(ExperienceItem(Strip(title), Strip(company), Strip(startDate), Strip(endDate),
                             Strip(location), LineList(bulletsRaw)))
  }

  /** The entry the education form submits: none unless degree and institution are given. */
  function EducationEntry(degree: string, institution: string, year: string, details: string): (r: Option<EducationItem>)
    ensures r.Some? <==> Strip(degree) != "" && Strip(institution) != ""
    ensures r.Some? ==> GoodEducation(r.value)
    ensures r.Some? ==> r.value.degree == Strip(degree) && r.value.institution == Strip(institution)
    ensures r.Some? ==> r.value.year == Strip(year) && r.value.details == Strip(details)
  {
    StripProperties(degree);
    StripProperties(institution);
    if Strip(degree) == "" || Strip(institution) == "" then None
    else Some(EducationItem(Strip(degree), Strip(institution), Strip(year), Strip(details)))
  }

  /** `list.pop(i)` for an index in range: that element goes, the others keep their order. */
  function RemoveAt<T>(xs: seq<T>, i: nat): (r: seq<T>)
    requires i < |xs|
    ensures |r| == |xs| - 1
    ensures forall j :: 0 <= j < i ==> r[j] == xs[j]
    ensures forall j :: i <= j < |r| ==> r[j] == xs[j + 1]
  {
    xs[..i] + xs[i + 1..]
  }

  /** The two lists of the session state that the forms change. */
  class ResumeSession {
    var experience: seq<ExperienceItem>
    var education: seq<EducationItem>

    /** Every stored entry is one a form could add. */
    predicate Valid()
      reads this
    {
      && (forall k :: 0 <= k < |experience| ==> GoodExperience(experience[k]))
      && (forall k :: 0 <= k < |education| ==> GoodEducation(education[k]))
    }

    /** `init_session_state`: both lists start empty. */
    constructor()
      ensures Valid()
      ensures experience == [] && education == []
    {
      experience := [];
      education := [];
    }

    /** The "Add Experience" button: appends the entry, or reports that title or company is missing. */
    method AddExperience(
      title: string, company: string, startDate: string, endDate: string,
      location: string, bulletsRaw: string) returns (added: bool)
      requires Valid()
      modifies this
      ensures Valid()
      ensures added <==> Strip(title) != "" && Strip(company) != ""
      ensures var e := ExperienceEntry(title, company, startDate, endDate, location, bulletsRaw);
        experience == if e.Some? then old(experience) + [e.value] else old(experience)
      ensures education == old(education)
    {
      var e := ExperienceEntry(title, company, startDate, endDate, location, bulletsRaw);
      added := e.Some?;
      if added {
        experience := experience + [e.value];
      }
    }

    /** "Remove Experience #i+1": drops the entry at position `i`. */
    method RemoveExperience(i: nat)
      requires Valid() && i < |experience|
      modifies this
      ensures Valid()
      ensures experience == RemoveAt(old(experience), i)
      ensures education == old(education)
    {
      experience := RemoveAt(experience, i);
    }

    /** The "Add Education" button: appends the entry, or reports that degree or institution is missing. */
    method AddEducation(degree: string, institution: string, year: string, details: string) returns (added: bool)
      requires Valid()
      modifies this
      ensures Valid()
      ensures added <==> Strip(degree) != "" && Strip(institution) != ""
      ensures var e := EducationEntry(degree, institution, year, details);
        education == if e.Some? then old(education) + [e.value] else old(education)
      ensures experience == old(experience)
    {
      var e := EducationEntry(degree, institution, year, details);
      added := e.Some?;
      if added {
        education := education + [e.value];
      }
    }

    /** "Remove Education #i+1": drops the entry at position `i`. */
    method RemoveEducation(i: nat)
      requires Valid() && i < |education|
      modifies this
      ensures Valid()
      ensures education == RemoveAt(old(education), i)
      ensures experience == old(experience)
    {
      education := RemoveAt(education, i);
    }
  }
}
