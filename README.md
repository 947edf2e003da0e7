# Resume builder text core, modelled in Dafny

This project models the deterministic text logic of an AI-assisted resume builder.

**Resume helper** (`models/resume_generator_enhanced.py`):
- normalises resume and job-description text;
- extracts frequency-ranked keywords;
- computes a 0-100 ATS score from keyword overlap and four structural checks, with notes;
- composes a template professional summary and the prompt sent to a remote model;
- chooses between the template and the remote answer.

**Cover-letter helper** (`models/cover_letter_enhanced.py`):
- fills a fixed letter template from the applicant's data, tone and job description;
- cleans the letter line by line while keeping its paragraph breaks;
- builds the remote prompt and chooses between the template and the remote answer.

**App layer** (`app.py`):
- sanitises file names;
- parses comma- and line-separated lists;
- keeps the experience and education lists of a session, which are appended to after a guard and popped by index.

Modules:
- `Wrappers` holds `Option`.
- `Text` holds the ASCII character classes, `str.strip`, the `\s+` substitution and the splitting helpers.
- `Keywords` holds normalisation and keyword extraction.
- `Ats` holds the score.
- `Selection` holds the source-selection rule shared by both generators.
- `Summary` holds the summary template.
- `Paragraphs` holds the paragraph-preserving cleanup.
- `CoverLetter` holds the letter.
- `App` holds the app helpers and the `ResumeSession` class.

The keyword counting and the ATS score are loops in the source. They are methods here (`Keywords.CountTerms`, `Keywords.ExtractKeywords`, `Ats.CheckStructure`, `Ats.AtsOptimizationScore`), proved equal to specification functions about which the lemmas are stated. The session lists are mutated in place in the source, so they are `seq` fields of a class whose methods state the new lists.

`_generate_cover_letter_template` builds a header of date and contact lines (`models/cover_letter_enhanced.py:110-122`) but never uses it: the letter it returns starts with the salutation. The model does the same: `CoverLetter.TemplateIgnoresContactDetails` shows that date, location, e-mail and phone do not affect the letter, and `CoverLetter.LetterFirstLine` shows that the salutation is the first line.

## Model

| member | source | states |
|---|---|---|
| Text.Strip | models/resume_generator_enhanced.py:307 | definition of `str.strip` on ASCII whitespace; its properties are in `Text.StripProperties` |
| Text.StripProperties | models/resume_generator_enhanced.py:307 | `strip` yields a trimmed slice of its input, leaves trimmed text alone, and is empty iff the input is all whitespace |
| Text.Cleanup | models/resume_generator_enhanced.py:309-310 | definition of `_cleanup_spaces`; its properties are in `Text.CleanupIsJoinedWords`, `Text.CleanupIsClean` and `Text.CleanupIdempotent` |
| Text.CleanupIsJoinedWords | models/resume_generator_enhanced.py:309-310 | collapsing whitespace runs to one space and stripping gives the whitespace-separated words joined by single spaces |
| Text.CleanupIsClean | models/resume_generator_enhanced.py:309-310 | the cleaned text is trimmed with no whitespace but single spaces, and is empty iff the input is all whitespace |
| Text.CleanupIdempotent | models/resume_generator_enhanced.py:309-310 | cleaning twice equals cleaning once |
| Text.CleanupJoin | models/resume_generator_enhanced.py:234-235 | cleaning a space-join of parts equals the space-join of the non-blank cleaned parts |
| Text.WordsOfJoin | models/resume_generator_enhanced.py:306 | splitting a space-join of non-empty space-free words gives back those words |
| Text.JoinSplit | app.py:192 | joining the pieces of `str.split` on the separator gives back the input |
| Text.SplitJoin | app.py:192 | splitting a separator-join of separator-free items gives back the items |
| Text.Split | app.py:192 | `str.split` never returns an empty list, and no piece contains the separator |
| Text.SplitLines | app.py:178 | `str.splitlines` pieces contain no line break |
| Text.SplitLinesOfJoined | models/cover_letter_enhanced.py:243-245 | `splitlines` of a newline-join of one-line items, the last non-empty, gives back the items |
| Text.SplitLinesOfTerminated | models/cover_letter_enhanced.py:163-175 | `splitlines` of a newline-terminated join of one-line items gives back the items |
| Keywords.Normalize | models/resume_generator_enhanced.py:303-307 | definition of `_normalize_text`; its properties are in `Keywords.NormalizeProperties` |
| Keywords.NormalizeProperties | models/resume_generator_enhanced.py:303-307 | normalised text has no upper-case letter and none of ’ – —, is trimmed with single spaces only, and normalising again changes nothing |
| Keywords.FindTokens | models/resume_generator_enhanced.py:81 | every match of the word pattern starts with a letter, has length at least 2 and holds only letters, `-`, `+`, `.` |
| Keywords.FindTokensOfJoin | models/resume_generator_enhanced.py:81 | the scanner finds exactly the tokens of a space-join of tokens, in order |
| Keywords.Candidates | models/resume_generator_enhanced.py:319-327 | every candidate is a lower-case token of length at least 3 outside the stop set |
| Keywords.Distinct | models/resume_generator_enhanced.py:330 | the keys of the counter are the candidates, each once |
| Keywords.TallyCounts | models/resume_generator_enhanced.py:330 | the counter gives each word its number of occurrences |
| Keywords.CountTerms | models/resume_generator_enhanced.py:330 | the counting loop yields the first-occurrence order of the words and their counts |
| Keywords.Rank | models/resume_generator_enhanced.py:332 | ranking permutes the words |
| Keywords.RankRanked | models/resume_generator_enhanced.py:332 | the stable ranking orders by count descending, ties in first-occurrence order |
| Keywords.DistinctInOrder | models/resume_generator_enhanced.py:330 | the counter's keys are in first-occurrence order |
| Keywords.FullRankingProperties | models/resume_generator_enhanced.py:330-332 | `most_common()` is a permutation of the distinct candidates in which every word outranks each later one |
| Keywords.TopKeywords | models/resume_generator_enhanced.py:312-332 | definition of `_extract_keywords`; its properties are in `Keywords.KeywordsProperties` and `Keywords.KeywordsComplete`, and `Keywords.ExtractKeywords` computes it |
| Keywords.KeywordsProperties | models/resume_generator_enhanced.py:319-332 | the keywords are at most 80 distinct keyword-shaped candidates of the text, in non-increasing count order with ties in first-occurrence order |
| Keywords.KeywordsComplete | models/resume_generator_enhanced.py:332 | a candidate left out means 80 words were returned and each outranks it |
| Keywords.ExtractKeywords | models/resume_generator_enhanced.py:312-332 | the method returns the top-80 ranking of the text's candidates |
| Ats.LexLessTransitive | models/resume_generator_enhanced.py:137 | the string order used by `sorted` is transitive |
| Ats.LexLessTotal | models/resume_generator_enhanced.py:137 | the string order is total on distinct strings |
| Ats.SortStrings | models/resume_generator_enhanced.py:137-138 | sorting permutes its input |
| Ats.SortStringsSorted | models/resume_generator_enhanced.py:137-138 | sorting a duplicate-free list yields a strictly increasing one |
| Ats.SortedListingUnique | models/resume_generator_enhanced.py:137-138 | two strictly sorted lists with the same elements are equal |
| Ats.Filter | models/resume_generator_enhanced.py:137-138 | the set intersection or difference holds exactly the elements inside or outside the other set |
| Ats.OverlapProperties | models/resume_generator_enhanced.py:137-138 | matched and missing are sorted; matched is exactly the common keywords and missing exactly the JD-only ones; together they count the distinct JD keywords; matched is the unique sorted listing of the intersection |
| Ats.BaseScore | models/resume_generator_enhanced.py:141-144 | definition of the keyword part of the score, rounded half to even; its properties are in `Ats.BaseScoreBounds` and `Ats.KeywordBaseScore` |
| Ats.BaseScoreBounds | models/resume_generator_enhanced.py:141-144 | for 1 to 80 JD keywords, the base is at most 70, 70 iff all are matched and 0 iff none is |
| Ats.KeywordBaseScore | models/resume_generator_enhanced.py:137-144 | for extracted keywords, the base is at most 70 and equals 70 iff no JD keyword is missing |
| Ats.MissingSections | models/resume_generator_enhanced.py:152-157 | each section name is listed iff its heading pattern is absent, each at most once and in the order experience, education, skills; nothing else is listed; the list is empty iff all three occur |
| Ats.CountLongLines | models/resume_generator_enhanced.py:334-336 | definition of `_count_long_lines` with threshold 120; its properties are in `Ats.CountLong` |
| Ats.LowSymbolDensity | models/resume_generator_enhanced.py:338-342 | definition of the density test `< 0.06`, true for empty text; its properties are in `Ats.LowSymbolDensityCases` |
| Ats.SymbolCountZero | models/resume_generator_enhanced.py:341 | the symbol count is zero iff no character is a symbol, that is, neither alphanumeric nor whitespace |
| Ats.SymbolCountAll | models/resume_generator_enhanced.py:341 | the symbol count is the length iff every character is a symbol |
| Ats.LowSymbolDensityCases | models/resume_generator_enhanced.py:338-342 | text without symbols has low density, and non-empty text made only of symbols does not |
| Ats.CountLong | models/resume_generator_enhanced.py:334-336 | the long-line count is zero iff no line exceeds the threshold |
| Ats.StructurePoints | models/resume_generator_enhanced.py:149-182 | structure points never exceed 30 |
| Ats.StructureProperties | models/resume_generator_enhanced.py:149-193 | 30 points iff all four checks pass iff no structural note is written; at most four notes |
| Ats.CheckStructure | models/resume_generator_enhanced.py:146-182 | the step-by-step checks yield the structure points and the notes, in order |
| Ats.AtsOptimizationScore | models/resume_generator_enhanced.py:118-194 | the score is in 0..100; an empty JD keyword list gives score 0, empty lists and the fixed note; otherwise the score is the capped sum, the lists are the first 30 matched and the first 20 missing, and the notes are the structural ones or the single default note |
| Summary.AssembledIsJoinedClauses | models/resume_generator_enhanced.py:234-235 | the assembled summary is the space-join of the cleaned non-blank clauses |
| Summary.ClausesShape | models/resume_generator_enhanced.py:225-235 | the assembled text is single-spaced and trimmed, opens with the cleaned first clause and closes with the last |
| Summary.SummaryShape | models/resume_generator_enhanced.py:206-236 | the summary opens with the cleaned "{title} with {years}+ years…" sentence, ends with the fixed closing sentence, and is single-spaced and trimmed |
| Summary.SummaryTemplate | models/resume_generator_enhanced.py:200-236 | definition of `_generate_summary_template`; its properties are in `Summary.SummaryShape`, `Summary.AchievementClause`, `Summary.NoAchievementClause`, `Summary.ListCaps` and `Summary.HintTermsProperties` |
| Summary.AchievementClause | models/resume_generator_enhanced.py:212-235 | with achievements, the summary is the cleaned join of the opening, skills, tools and industry clauses, then "Proven track record including:" with the first achievement, trailing full stops stripped and one put back, then the JD hint and the closing sentence |
| Summary.NoAchievementClause | models/resume_generator_enhanced.py:212-235 | without achievements, the summary is the assembly of the same clauses with no achievement clause |
| Summary.ListCaps | models/resume_generator_enhanced.py:208-210 | only the first 8 skills, 6 tools and 4 industries affect their clauses |
| Summary.UnlistedTerms | models/resume_generator_enhanced.py:220 | the kept terms are exactly the JD keywords whose lower-cased form is not a lower-cased core skill, never more than the keywords |
| Summary.UnlistedTermsAppend | models/resume_generator_enhanced.py:220 | the filter distributes over concatenation, so it keeps the keywords' order |
| Summary.UnlistedTermsSingle | models/resume_generator_enhanced.py:220 | one keyword is kept iff its lower-cased form is not a lower-cased core skill |
| Summary.HintTerms | models/resume_generator_enhanced.py:217-223 | definition of the JD hint terms; its properties are in `Summary.HintTermsProperties` |
| Summary.HintTermsProperties | models/resume_generator_enhanced.py:217-223 | with no JD there are no hint terms; otherwise they are the first up to four unlisted JD keywords, in keyword order, so there are at most 4, each a JD keyword not equal case-insensitively to a core skill |
| Summary.BuildSummaryPrompt | models/resume_generator_enhanced.py:278-301 | definition of `_build_summary_prompt`; its properties are in `Summary.PromptProperties` and `Summary.PromptCaps` |
| Summary.PromptProperties | models/resume_generator_enhanced.py:284-301 | the prompt ends with "Return only the summary text."; a non-blank stripped JD adds exactly the context section; otherwise the prompt is the one without a JD |
| Summary.PromptCaps | models/resume_generator_enhanced.py:284-286 | only the first 12 skills, 10 tools and 3 achievements affect the prompt |
| Summary.GenerateSummary | models/resume_generator_enhanced.py:87-116 | the remote source is chosen iff enabled, a token is set, the library is present and the stripped answer has length at least 40; otherwise the result is exactly the template with source "template" |
| Paragraphs.CleanLines | models/cover_letter_enhanced.py:243 | each line is replaced by its whitespace-collapsed, stripped form |
| Paragraphs.TidyLines | models/cover_letter_enhanced.py:245-247 | the tidied lines have no blank line first, last or twice in a row, and are empty iff all lines are blank |
| Paragraphs.CollapseNoTriple | models/cover_letter_enhanced.py:247 | after reducing newline runs there are never three newlines in a row |
| Paragraphs.StripCollapseJoin | models/cover_letter_enhanced.py:245-247 | joining, reducing newline runs and stripping equals joining the tidied lines |
| Paragraphs.CleanupParagraphs | models/cover_letter_enhanced.py:241-248 | definition of `_cleanup_spaces_preserve_paragraphs`; its properties are in the `Paragraphs.CleanupParagraphs*` lemmas |
| Paragraphs.CleanupParagraphsShape | models/cover_letter_enhanced.py:241-248 | the output never contains three consecutive newlines and is trimmed |
| Paragraphs.CleanupParagraphsLines | models/cover_letter_enhanced.py:241-248 | the output is the newline-join of the tidied cleaned input lines |
| Paragraphs.CleanupParagraphsLinesOf | models/cover_letter_enhanced.py:241-248 | the output's lines are the tidied cleaned input lines, each trimmed with single spaces, and rejoining them gives the output |
| Paragraphs.CleanupParagraphsEmpty | models/cover_letter_enhanced.py:241-248 | the output is empty iff every input line is whitespace only |
| Paragraphs.CleanupParagraphsIdempotent | models/cover_letter_enhanced.py:241-248 | applying the cleanup twice equals applying it once |
| CoverLetter.CoverLetterTemplate | models/cover_letter_enhanced.py:103-176 | definition of `_generate_cover_letter_template`; its properties are in the `CoverLetter.Letter*` lemmas and the lemmas below |
| CoverLetter.LetterShape | models/cover_letter_enhanced.py:163-176 | the letter is trimmed, has no triple newline, no blank line first, last or twice in a row, every line single-spaced and trimmed, and is a fixed point of the cleanup |
| CoverLetter.SalutationOneLine | models/cover_letter_enhanced.py:124-126 | for a one-line manager name the salutation is one line and never blank |
| CoverLetter.LetterFirstLine | models/cover_letter_enhanced.py:124-163 | the first line is the whitespace-collapsed `Dear {name},` salutation, or `Dear Hiring Manager,` when the name is blank |
| CoverLetter.LetterSignature | models/cover_letter_enhanced.py:171-176 | the last two lines are "Sincerely," and the whitespace-collapsed full name; with a blank name the last line is "Sincerely," |
| CoverLetter.LetterOpening | models/cover_letter_enhanced.py:163-169 | for one-line fields the letter has at least seven lines: the cleaned salutation, the cleaned introduction sentence, the cleaned motivation and the cleaned experience paragraph, each followed by one blank line |
| CoverLetter.MotivationLine | models/cover_letter_enhanced.py:143-145 | definition of the motivation paragraph; its properties are in `CoverLetter.LetterMotivation` |
| CoverLetter.LetterMotivation | models/cover_letter_enhanced.py:143-167 | the fifth line is the cleaned stripped motivation when that is non-blank, and otherwise the cleaned "I’m excited about the opportunity to contribute to {company} in this role." |
| CoverLetter.ListTextEmpty | models/cover_letter_enhanced.py:129-130 | the joined skills or tools text is empty iff the list is, for non-blank trimmed items |
| CoverLetter.IntroSkillsDefault | models/cover_letter_enhanced.py:165 | an empty skills text reads as "delivering high-quality results" in the introduction |
| CoverLetter.LetterSkills | models/cover_letter_enhanced.py:129-165 | the skills text is empty iff there are no skills, and the third line is the cleaned introduction naming the first ten skills, or "delivering high-quality results" when there are none |
| CoverLetter.ToolsSentence | models/cover_letter_enhanced.py:169 | the experience paragraph ends with "I am proficient with tools such as {tools}." iff the tools text is non-empty |
| CoverLetter.LetterTools | models/cover_letter_enhanced.py:130-169 | the seventh line is the cleaned experience paragraph, and it ends with the tools sentence iff there are tools |
| CoverLetter.TemplateIgnoresContactDetails | models/cover_letter_enhanced.py:110-122 | date line, location, e-mail and phone do not affect the letter |
| CoverLetter.HighlightsCases | models/cover_letter_enhanced.py:133-141 | no highlights sentence iff there are no achievements, and only the first two achievements matter |
| CoverLetter.ToneClasses | models/cover_letter_enhanced.py:148-154 | the tone sentence depends on the lower-cased tone only: warm/friendly, confident/assertive, or any other value select the three sentences, each iff |
| CoverLetter.JdHintPresent | models/cover_letter_enhanced.py:157-161 | the JD acknowledgement is present iff the stripped JD is longer than 40 characters |
| CoverLetter.JdHintGate | models/cover_letter_enhanced.py:157-161 | a missing or short JD gives the same letter as no JD |
| CoverLetter.TemplateCaps | models/cover_letter_enhanced.py:129-141 | only the first 10 skills, 8 tools and 2 achievements affect the letter |
| CoverLetter.BuildCoverLetterPrompt | models/cover_letter_enhanced.py:208-239 | definition of `_build_cover_letter_prompt`; its properties are in `CoverLetter.PromptProperties` and `CoverLetter.PromptCaps` |
| CoverLetter.PromptProperties | models/cover_letter_enhanced.py:218-239 | the prompt ends with the fixed instructions closing in "Return only the cover letter text."; a non-blank stripped JD adds exactly the "Job description:" section; otherwise the prompt is the one without a JD |
| CoverLetter.PromptCaps | models/cover_letter_enhanced.py:214-216 | only the first 12 skills, 10 tools and 3 achievements affect the prompt, which ignores the contact details |
| CoverLetter.GenerateCoverLetter | models/cover_letter_enhanced.py:71-97 | the remote source is chosen iff enabled, a token is set, the library is present and the stripped answer has length at least 200; otherwise the result is exactly the template with source "template" |
| App.DropDisallowed | app.py:78 | the filter keeps only `a-z`, `0-9`, `-`, `_` and whitespace |
| App.DropDisallowedAppend | app.py:78 | the filter distributes over concatenation, so it keeps the order of the characters |
| App.DropDisallowedSingle | app.py:78 | one character is kept iff it is `a-z`, `0-9`, `-`, `_` or whitespace |
| App.DropDisallowedKept | app.py:78 | text made only of allowed characters is left unchanged |
| App.DropDisallowedEmpty | app.py:78 | the filter leaves nothing iff no character is allowed |
| App.SafeFilename | app.py:76-80 | definition of `safe_filename`; its properties are in the `App.SafeFilename*` lemmas |
| App.SafeFilenameChars | app.py:76-80 | the file name is never empty, holds only `a-z0-9-_`, and has no whitespace |
| App.SafeFilenameDefault | app.py:76-80 | `None`, the empty name, or a name whose characters are all filtered out gives "document" |
| App.SafeFilenameFixed | app.py:76-80 | a non-empty name of allowed characters is returned unchanged |
| App.SafeFilenameIdempotent | app.py:76-80 | sanitising a sanitised name changes nothing |
| App.SafeFilenameAlnums | app.py:77-79 | unless the default is returned, the letters and digits of the result are those of the stripped, lower-cased name, in order |
| App.SafeFilenameWords | app.py:78-79 | when the filtered text is trimmed, the result is its words joined by single underscores |
| App.StrippedItems | app.py:178 | the kept items are non-empty and trimmed, and never more than the pieces |
| App.StrippedItemsAppend | app.py:178 | item parsing keeps input order: it distributes over concatenation |
| App.CommaList | app.py:192-194 | definition of comma-list parsing; its properties are in `App.CommaListItems` and `App.CommaListRoundTrip` |
| App.CommaListItems | app.py:192-194 | comma-list items are non-empty, trimmed and free of commas |
| App.CommaListRoundTrip | app.py:192-194 | parsing the comma-join of trimmed, non-empty, comma-free items gives back the items |
| App.LineList | app.py:178 | definition of line-list parsing; its properties are in `App.LineListItems` and `App.LineListRoundTrip` |
| App.LineListItems | app.py:178 | line-list items are non-empty, trimmed and one line each |
| App.LineListRoundTrip | app.py:178 | parsing the newline-join of trimmed, non-empty, one-line items gives back the items |
| App.ExperienceEntry | app.py:246-260 | an item exists iff title and company are non-blank after strip; its fields are stored stripped and its bullets are the parsed bullet lines |
| App.EducationEntry | app.py:291-304 | an item exists iff degree and institution are non-blank after strip; its fields are stored stripped |
| App.RemoveAt | app.py:276 | removing index i drops exactly that element and keeps the others in order |
| App.ResumeSession.constructor | app.py:110-111 | a new session has empty experience and education lists |
| App.ResumeSession.AddExperience | app.py:246-260 | appends the stripped item iff title and company are non-blank, reports whether it did, and leaves education unchanged |
| App.ResumeSession.RemoveExperience | app.py:275-276 | removes exactly the item at index i and leaves education unchanged |
| App.ResumeSession.AddEducation | app.py:291-304 | appends the stripped item iff degree and institution are non-blank, reports whether it did, and leaves experience unchanged |
| App.ResumeSession.RemoveEducation | app.py:313-314 | removes exactly the item at index i and leaves experience unchanged |

## Left out

- Remote generation is left out. The HTTP calls (`_generate_summary_hf_api`, `_generate_cover_letter_hf_api`) are network I/O. Their answer is the `remote: Option<string>` parameter of `Summary.GenerateSummary` and `CoverLetter.GenerateCoverLetter`, with `None` standing for a raised exception.
- Configuration is left out. The environment token and the availability of the HTTP library are the parameters `hfToken` and `requestsAvailable`, and `__init__`'s dotenv reading is not modelled.
- Unicode semantics are not modelled.
  - `lower`, `isalnum`, `isspace`, regex `\s` and `splitlines` are modelled on ASCII only.
  - Whitespace is tab to carriage return, 0x1C to 0x1F and the space. Line breaks are 0x0A to 0x0D and 0x1C to 0x1E, with `\r\n` counted as one break.
  - ’, – and — are the only non-ASCII characters given a meaning.
- The regex engine is not modelled. The word pattern is a greedy left-to-right scanner, and the section patterns are `\b`-bounded substring tests.
- Ats.BaseScoreBounds: floating point is not modelled. `int(round(70 * (m / n)))` is exact rational rounding, half to even. For every 0 <= m <= n <= 80 the float computation gives the same integer, and `_extract_keywords` never returns more than 80 keywords, so n <= 80 covers every call.
- Symbol density `< 0.06` is the integer comparison `100 * symbols < 6 * length`.
- DOCX output is left out because it is a foreign library and file I/O: `build_cover_letter_docx`, the template renderer modules, and `ensure_generated_dir`.
- The Streamlit pages, widgets, reruns, caching and download buttons are left out as UI glue. So are the session keys other than the two lists and `date.today()`.
- The `__main__` demo runners of both model files are left out.
- App.ResumeSession.RemoveExperience and App.ResumeSession.RemoveEducation require an index inside the list. An out-of-range `pop` raises `IndexError` in the source, and the buttons that call it only offer valid indices.
- App.SafeFilenameWords applies only when the filtered text has no whitespace at its ends, for example after filtering removed a trailing symbol. In general the result is the filtered text with each whitespace run replaced by one `_`, which is the definition of `App.SafeFilename`.
- CoverLetter.LetterFirstLine and CoverLetter.LetterSignature assume that the manager name and the full name are one line each. A line break inside either name splits it across several letter lines.
- Ats.AtsOptimizationScore states each note as a `Note` value with its rendered text. The integer-to-text rendering of the counts inside the note strings is `Text.IntToString`.
- CoverLetter.LetterOpening, CoverLetter.LetterMotivation, CoverLetter.LetterSkills and CoverLetter.LetterTools assume one-line fields, as `CoverLetter.LetterFirstLine` does. The skills and tools statements also assume non-blank trimmed items, which is what `App.CommaList` produces.
