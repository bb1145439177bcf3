# Resume builder: parser, ATS scorer, job matcher and editor updates in Dafny

This project models the core of a resume-builder web application. The
application has two parts.

- **The Express server.** It turns the plain text of an uploaded resume into a
  structured resume record (`parseResumeText`), then scores that record the way
  an applicant tracking system might (`calculateATSScore` with `getGrade`). The
  score has seven sections (contact, summary, experience, education, skills,
  formatting and industry keywords), plus a feedback list and a letter grade.
  The server also compares a resume with a job description (the job-match
  route): it extracts the job description's keywords, then reports the matched
  ones, the missing repeated ones and a percentage.
- **The React editor.** It changes the resume record through small updaters:
  merging a partial record, adding and removing skills, adding, updating and
  removing experience and education entries, and toggling a section's
  visibility. It also filters the template gallery by headshot, graphics and
  column count.

The code is organised as follows.

- `text.dfy` (`Text`): the string primitives the JavaScript uses. These are
  `trim`, ASCII `toLowerCase`, `includes`, `substring`, `Math.min` and the
  decimal rendering of a number.
- `seqs.dfy` (`Seqs`): `filter`, de-duplication through a `Set`, counting,
  and the subsequence relation.
- `patterns.dfy` (`Patterns`): the regular expressions of the parser and the
  scorer.
  - A small backtracking matcher for the email, phone and LinkedIn patterns is
    proved sound and complete against a declarative language. Its choice of
    match end is characterised too: among the ways to read a slice as the
    pattern it takes the first alternative that fits, then the largest count
    for each quantifier from left to right.
  - A counter for the global keyword alternations.
  - The section-capture patterns with their look-ahead stops.
  - The entry-splitting patterns.
- `resume.dfy` (`ResumeData`): the resume record.
- `parser.dfy` (`Parser`): `parseResumeText`.
- `ats.dfy` (`Ats`): the scorer as functions, one per section, and the lemmas
  about them.
- `ats_engine.dfy` (`AtsEngine`): the scorer as the source runs it. It keeps a
  running total and a growing feedback list, and loops over experience and
  education entries. Each block is a method proved equal to the `Ats` function
  for its section.
- `upload.dfy` (`Upload`): the upload route, which parses the text and then
  scores the result.
- `jobmatch.dfy` (`JobMatch`): the job-match computation.
- `editor.dfy` (`Editor`): the editor's updaters and the template filter.

A JSON field that is absent is modelled as the empty string or the empty list.
The scorer reads such fields through a truthiness test, `x || ''` or
`x || []`, so for it absent and empty mean the same thing. Some editor
updaters do not; see "Left out". The ATS grade's `label` field is named
`caption`, because `label` is a Dafny keyword.

Two consequences of the code's constants:

- The scorer's keyword vocabulary (server/index.js:229-233) has 19 terms.
- The skills section (server/index.js:176-197) awards 5 points for any
  skill, 5 more for at least 5 skills (3 for 3 or 4), 5 more for at least 10
  (3 for 7 to 9) and 5 for a soft skill, capped at 20. Six skills, one of them
  a soft skill, score 5 + 5 + 0 + 5 = 15.

## Model

| member | source | states |
|---|---|---|
| Text.Trim | server/index.js:273 | `trim` removes exactly the leading and trailing whitespace: the result is a slice of the input with no whitespace at either end |
| Text.TrimIdempotent | server/index.js:330 | trimming twice is trimming once |
| Seqs.DedupFilterMembers | server/index.js:316-319 | `[...new Set(xs.filter(keep))]` has no duplicates, is a subsequence of `xs`, holds an element of `xs` exactly when it satisfies `keep`, and lists the elements in the order of their first occurrence among the kept ones |
| Seqs.DedupOrder | server/index.js:319 | `[...new Set(xs)]` keeps each element at its first occurrence: its elements come in the order in which they first occur in `xs` |
| Seqs.FilterStep | server/index.js:236-238 | filtering one more element appends it exactly when it satisfies the predicate |
| Seqs.FilterMembers | server/index.js:316-318 | `filter` keeps exactly the elements satisfying the predicate, in order |
| Patterns.MatchSeqGreediest | server/index.js:291-300 | a sequence of quantified classes matches, from a given position, the reading whose counts are lexicographically largest among all readings; it fails exactly when there is no reading |
| Patterns.MatchAltGreediest | server/index.js:295 | an alternation takes the first alternative that has a reading, read greedily |
| Patterns.SearchCorrect | server/index.js:291-300 | a non-global `match` reports a slice in the pattern's language, no match starts earlier, the slice ends where backtracking priority ends it (first alternative, then greediest counts), and no match means no slice of the text is in the language |
| Patterns.MatchedTextCorrect | server/index.js:291-300 | `match(re)?.[0]` is the leftmost match, ending where backtracking priority ends it, and is empty exactly when no slice of the text matches |
| Patterns.EmailPreferredLongest | server/index.js:291 | for the email pattern the engine's preferred end is the longest: no longer slice from the same start is an address |
| Patterns.LinkedInPreferredLongest | server/index.js:299 | for the LinkedIn pattern the engine's preferred end is the longest: no longer slice from the same start is a profile path |
| Patterns.EmailLeftmostLongest | server/index.js:291 | the leftmost email match is also the longest address starting where it starts |
| Patterns.LinkedInLeftmostLongest | server/index.js:299 | the leftmost LinkedIn match is also the longest profile path starting where it starts |
| Patterns.CountMatchesPositive | server/index.js:98-100 | a global alternation search counts at least one match exactly when some alternative occurs in the text |
| Patterns.FindSectionFrom | server/index.js:322-326 | the section capture starts at the first header that is followed by a `[\s:]` separator, skips the separator run, and ends at the first look-ahead stop or at the end of the text |
| Patterns.SplitJoins | server/index.js:338 | splitting at a look-ahead boundary loses nothing: re-joining the pieces with newlines gives back the text, and every piece is a slice of it |
| Patterns.SplitCuts | server/index.js:338 | `split` cuts exactly at the separator matches: the n-th piece is the text between consecutive cuts, contains no match, is followed by a matched newline unless it is the last, and the last piece ends the text |
| Patterns.SplitLinesNoBreak | server/index.js:273 | after `split('\n')` no piece contains a newline |
| Parser.ParseResumeText | server/index.js:272-363 | the parsed record keeps the raw text, never fills location or website, caps the summary at 500 characters, and keeps at most 5 experience and 3 education entries |
| Parser.TrimAll | server/index.js:273 | every line is trimmed, and the number of lines is kept |
| Parser.ExtractNameCorrect | server/index.js:302-305 | the name is the first non-blank trimmed line unless it contains `@` or `http`; it is empty when every line is blank; it is a slice of the text with no newline |
| Parser.ExtractEmailCorrect | server/index.js:290-292 | the email is the leftmost match of the email pattern, the longest address from that start, and is empty exactly when the text holds no address |
| Parser.ExtractPhoneCorrect | server/index.js:294-296 | the phone is the leftmost match of the phone pattern, ending where backtracking priority ends it (the international-prefix alternative first, then the largest counts), and is empty exactly when the text holds no number |
| Parser.ExtractLinkedInCorrect | server/index.js:298-300 | the LinkedIn field is `https://` followed by the leftmost `linkedin.com/in/...` match, the longest from that start, and is empty exactly when there is none |
| Parser.FoundSkillsCorrect | server/index.js:307-319 | the skills are the vocabulary terms the text mentions (ignoring case), in vocabulary order, without duplicates; a term is listed if and only if the text mentions it |
| Parser.SectionText | server/index.js:322-328 | a section's text exists exactly when its header occurs, and is a slice of the resume text |
| Parser.ExtractSummaryCorrect | server/index.js:328-331 | the summary is the captured summary section, trimmed and cut to its first 500 characters; it is a slice of the text starting with a non-space, and empty when there is no summary header |
| Parser.SectionChunksCorrect | server/index.js:334-339 | a section's entries are the first `limit` pieces of its captured text split at the entry boundaries; none exactly when its header is absent; each entry is a slice of the text |
| Parser.ParseExperienceCorrect | server/index.js:333-346 | there is one experience entry per piece of the captured section, at most 5; the n-th is numbered n, titled `Position n` at `Company` with no duration, and its description is the n-th piece trimmed and cut to 500 characters; there are none exactly when no experience header occurs |
| Parser.DegreeOfCorrect | server/index.js:355 | the degree is the entry's first line (the text up to the first newline) trimmed, or the placeholder `Degree n` exactly when that line is blank; it is never empty and has no newline |
| Parser.ParseEducationCorrect | server/index.js:348-360 | there is one education entry per piece of the captured section, at most 3; the n-th is numbered n at `Institution` with no year, its degree is the first-line rule applied to the n-th piece, and its description is that piece trimmed and cut to 300 characters; there are none exactly when no education header occurs |
| Ats.GradeOf | server/index.js:259-266 | each letter grade is given exactly on its score band: A+ from 90, A 80-89, B 70-79, C 60-69, D 50-59, F below 50 |
| Ats.GradeMonotone | server/index.js:259-266 | a higher score never gets a worse grade |
| Ats.ContactPart | server/index.js:64-79 | the contact section scores at most 10 with at most four feedback items |
| Ats.ContactPartCorrect | server/index.js:64-79 | each of email, phone, LinkedIn and location is missing exactly when its feedback item is present; full marks exactly when there is no feedback |
| Ats.SummaryPart | server/index.js:81-111 | the summary section scores at most 15 |
| Ats.SummaryScoringCorrect | server/index.js:81-111 | for a summary of a given length and keyword-hit count: under 50 characters it scores 0 with one warning; otherwise it scores at least 9 with at most two tips; 15 exactly when it is 150-300 characters long with three or more keyword hits, which is exactly when there is no feedback |
| Ats.HasQuantity | server/index.js:134-135 | the quantifiable-result test holds exactly when some position starts a percentage, a `n+`, a dollar amount or a number followed by a unit word |
| Ats.EntryPoints | server/index.js:123-140 | one experience entry earns at most 7 points |
| Ats.ExperiencePart | server/index.js:113-149 | the experience section scores at most 25 |
| Ats.ExperiencePartCorrect | server/index.js:113-149 | experience scores 0 exactly when there are no entries, with one error then; otherwise at least 5 |
| Ats.EntriesBalance | server/index.js:123-140 | across the entries, points earned plus 3 per action-verb tip plus 4 per quantity warning is exactly 7 per entry, and every entry item is one of those two |
| Ats.ExperienceCap | server/index.js:142-143 | three or more full-mark entries reach the cap of 25; two or fewer entries can score at most 19 |
| Ats.DegreePoints | server/index.js:158-162 | an education entry earns at most 5 points, and 5 exactly when degree, institution and year are all filled |
| Ats.EducationPart | server/index.js:151-170 | the education section scores at most 10 |
| Ats.EducationPartCorrect | server/index.js:151-170 | education scores 0 exactly when there are no entries, with one warning then and no feedback otherwise |
| Ats.EducationFull | server/index.js:155-164 | one complete entry is enough for the full 10 points |
| Ats.SkillsPart | server/index.js:172-203 | the skills section scores at most 20 |
| Ats.SkillsPartCorrect | server/index.js:172-203 | skills score 0 exactly when the list is empty; the soft-skill tip appears exactly when no skill mentions a soft skill; 20 exactly with ten or more skills including a soft skill |
| Ats.FormattingPart | server/index.js:205-225 | the formatting section scores between 5 and 10 |
| Ats.FormattingPartCorrect | server/index.js:205-225 | formatting feedback is empty exactly when the text is 300-5000 characters long, "too short" below and "too long" above; 10 exactly when, in addition, an `@` or an email is present |
| Ats.FoundKeywordsCorrect | server/index.js:229-238 | the found keywords are the vocabulary terms the text mentions (ignoring case), in vocabulary order; at most 19 |
| Ats.KeywordsScore | server/index.js:240 | the keyword score is at most 10 and at most the number found, and 10 exactly from 13 keywords on |
| Ats.KeywordsScoreMonotone | server/index.js:240 | more keywords never lower the keyword score |
| Ats.SectionsWithinMaxima | server/index.js:78-246 | every section's score is within its maximum |
| Ats.MakeReport | server/index.js:249-256 | the overall score is the sum of the sections, which never exceeds 100; the grade is that of the overall score; improvements count errors and warnings, tips count tips, and together they count all feedback |
| Ats.Assemble | server/index.js:249-256 | from section parts within their maxima: the report's feedback is the sections' feedback in order, and the report keeps the score, grade and count properties |
| Ats.AtsReport | server/index.js:59-257 | `calculateATSScore` yields sections within their maxima, an overall score that is their total and at most 100, the matching grade, and counts covering all feedback |
| Ats.AtsReportParts | server/index.js:59-257 | the report's sections, feedback, improvements and tips are those of the individual section functions |
| Ats.NoLocationReport | server/index.js:75-76 | a resume without a location always gets the location tip, at most 8 contact points and at most 98 overall |
| Ats.EmptyResumeParts | server/index.js:64-225 | an empty record loses every contact point, gets the missing-section item in each section, and keeps 5 formatting points with a "too short" warning |
| Ats.EmptyResumeReport | server/index.js:59-257 | an empty record scores 5 overall, grade F, with nine feedback items (seven improvements, two tips), the first being the missing email |
| AtsEngine.ScoreContact | server/index.js:64-79 | the contact block yields the contact section |
| AtsEngine.ScoreSummary | server/index.js:81-111 | the summary block yields the summary section |
| AtsEngine.ScoreEntry | server/index.js:123-140 | one pass of the experience loop yields the entry's points and its numbered feedback |
| AtsEngine.ScoreExperience | server/index.js:113-149 | the experience loop yields the experience section |
| AtsEngine.ScoreEducation | server/index.js:151-170 | the education loop yields the education section |
| AtsEngine.ScoreSkills | server/index.js:172-203 | the skills block yields the skills section |
| AtsEngine.ScoreFormatting | server/index.js:205-225 | the formatting block, with its clamp at 0, yields the formatting section |
| AtsEngine.FilterMentioned | server/index.js:236-238 | the loop keeps, in order, exactly the words the text mentions ignoring case |
| AtsEngine.ScoreKeywords | server/index.js:227-247 | the keyword block yields the found keywords, which are the vocabulary terms the text mentions, and their score |
| AtsEngine.ScoreSections | server/index.js:59-225 | the running total is the sum of the six section scores, and the feedback is their items in order |
| AtsEngine.CalculateATSScore | server/index.js:59-257 | the running-total scorer produces exactly the specified report: overall at most 100, grade of the overall score, improvements and tips covering all feedback |
| Upload.UploadText | server/index.js:395-399 | the upload route returns the parsed record with its raw text and a report whose overall score is at most 100 with the matching grade |
| Upload.UploadedResumeMissesLocation | server/index.js:275-288 | an uploaded resume never has a location, so its report always carries the location tip, at most 8 contact points and at most 98 overall |
| JobMatch.RunEnd | server/index.js:440 | a letter run extends over lower-case letters exactly up to the first other character |
| JobMatch.WordsCorrect | server/index.js:440 | `match(/\b[a-z]+\b/g)` returns only words of the text, and every word of the text appears |
| JobMatch.WordsInOrder | server/index.js:440 | the global match lists the words left to right: the n-th result is the word at the n-th start position, the start positions increase, and every position where a word starts is among them |
| JobMatch.KeywordsCorrect | server/index.js:440-441 | the keywords have no duplicates, are words of the job text longer than 3 letters, include every such word, and come in the order of their first occurrence among the long words |
| JobMatch.OccurrencesFromIncludes | server/index.js:448-450 | a keyword occurs (non-overlapping count above 0) exactly when the text includes it |
| JobMatch.SplitCountTwice | server/index.js:448 | `jobText.split(keyword).length > 2` exactly when the keyword occurs at two positions that do not overlap |
| JobMatch.RoundedPercentNearest | server/index.js:445 | `Math.round(m / n * 100)` is the integer nearest to 100m/n, with halves rounded up |
| JobMatch.RoundedPercentBounds | server/index.js:445 | the rounded percentage is at most 100, 100 when everything matches and 0 when nothing does |
| JobMatch.ScoreAsWritten | server/index.js:445 | the score as written has no value (NaN) exactly when there are no keywords |
| JobMatch.Score | server/index.js:445 | the match score is at most 100, agrees with the written formula whenever there are keywords, is 0 when nothing matches and 100 when everything matches |
| JobMatch.ReportedKeywords | server/index.js:444-451 | the matched keywords are the keywords the resume includes, in order; the missing keywords are, in keyword order, exactly the non-empty keywords the resume lacks that occur at least twice without overlap in the job text; no keyword is both |
| JobMatch.MatchJob | server/index.js:428-460 | the request is refused exactly when the resume or the job description is missing; otherwise at most 20 matched and 10 missing keywords are reported, the score is at most 100 and positive only when something matched, and the total is the number of keywords |
| JobMatch.MatchReportCorrect | server/index.js:444-458 | for any keyword list the response reports the first 20 matched and the first 10 missing keywords, no keyword in both, and the score of the matched count |
| JobMatch.MatchJobCorrect | server/index.js:436-458 | the matched list is the first 20 keywords the resume includes; the missing list is the first 10 keywords the resume lacks that occur at least twice without overlap in the job text; the score is the written formula on the matched count whenever there are keywords, and 0 when there are none |
| JobMatch.ShortWordsOnly | server/index.js:440-445 | for the job description `C++ Dev` the words are `c` and `dev`, there are no keywords, and the written score has no value |
| Editor.UpdateResume | client/src/App.jsx:77-79 | every field the partial record gives is replaced by it, and every other field keeps its previous value |
| Editor.UpdateNothing | client/src/App.jsx:77-79 | an empty partial record changes nothing |
| Editor.UpdateTwice | client/src/App.jsx:77-79 | two successive updates equal one update with the merged partial record, the later one winning |
| Editor.UpdateIdempotent | client/src/App.jsx:77-79 | applying the same update twice is applying it once |
| Editor.AddSkill | client/src/App.jsx:1479-1486 | a non-blank trimmed skill not yet listed is appended and the input is cleared; otherwise nothing changes; other resume fields are never touched |
| Editor.AddSkillKeepsSkillsClean | client/src/App.jsx:1479-1486 | adding a skill keeps the list free of duplicates and of blank or untrimmed entries |
| Editor.AddSkillMembers | client/src/App.jsx:1479-1486 | after adding, a skill is listed exactly when it was listed before or it is the non-blank trimmed input |
| Editor.RemoveSkill | client/src/App.jsx:1488-1492 | removing a skill changes only the skill list and never lengthens it |
| Editor.RemoveSkillCorrect | client/src/App.jsx:1488-1492 | removing keeps the other skills in order, drops every copy of the skill, and shortens the list by the number of copies |
| Editor.RemoveThenAddSkill | client/src/App.jsx:1479-1492 | removing a clean skill and then adding it puts it back once, at the end |
| Editor.AddExperience | client/src/App.jsx:1428-1438 | adding appends one empty entry with the given timestamp id and leaves everything else unchanged |
| Editor.UpdateExperience | client/src/App.jsx:1440-1446 | updating changes only the experience list and keeps its length |
| Editor.UpdateExperienceCorrect | client/src/App.jsx:1440-1446 | every entry keeps its id; entries with another id are unchanged; in entries with the id, the named field takes the value and the other fields are kept |
| Editor.UpdateExperienceIdempotent | client/src/App.jsx:1440-1446 | repeating an update changes nothing more |
| Editor.RemoveExperience | client/src/App.jsx:1448-1452 | removing changes only the experience list and never lengthens it |
| Editor.RemoveExperienceCorrect | client/src/App.jsx:1448-1452 | removing keeps, in order, exactly the entries with another id |
| Editor.AddThenRemoveExperience | client/src/App.jsx:1428-1452 | adding an entry with a fresh id and removing that id restores the record |
| Editor.AddEducation | client/src/App.jsx:1454-1463 | adding appends one empty entry with the given timestamp id and leaves everything else unchanged |
| Editor.UpdateEducation | client/src/App.jsx:1465-1471 | updating changes only the education list and keeps its length |
| Editor.UpdateEducationCorrect | client/src/App.jsx:1465-1471 | every entry keeps its id and description; entries with another id are unchanged; in entries with the id, the named field takes the value and the other fields are kept |
| Editor.RemoveEducation | client/src/App.jsx:1473-1477 | removing changes only the education list and never lengthens it |
| Editor.RemoveEducationCorrect | client/src/App.jsx:1473-1477 | removing keeps, in order, exactly the entries with another id |
| Editor.AddThenRemoveEducation | client/src/App.jsx:1454-1477 | adding an entry with a fresh id and removing that id restores the record |
| Editor.ToggleSection | client/src/App.jsx:1414-1419 | toggling fails exactly for an unknown section; otherwise it flips that section's visibility, keeps its heading, and leaves the other sections and the set of sections unchanged |
| Editor.ToggleTwice | client/src/App.jsx:1414-1419 | toggling a section twice restores the settings |
| Editor.ToggleCommutes | client/src/App.jsx:1414-1419 | toggling two sections gives the same settings in either order |
| Editor.FilteredTemplates | client/src/App.jsx:943-951 | filtering never yields more templates than it was given |
| Editor.FilteredTemplatesCorrect | client/src/App.jsx:943-951 | the filtered templates are a subsequence of the gallery, each satisfying every chosen filter, every template of the gallery that satisfies every chosen filter is shown, and a template is kept exactly when it passes the filter test |
| Editor.NoFiltersKeepAll | client/src/App.jsx:909-913 | with every filter at `all` the whole gallery is shown |
| Editor.TwoColumnTemplates | client/src/App.jsx:927-951 | the two-column filter shows exactly healthcare, designer, sidebar-left and sidebar-right, in that order |

## Left out

- File upload, PDF and Word text extraction, deleting the uploaded file, HTTP
  status codes, JSON encoding and the Express routes themselves. The upload
  route is modelled from the extracted text on (`Upload.UploadText`). The
  job-match route is modelled from the request body on. A missing resume
  object is `None`, and a resume without `rawText` is `Some("")`.
- The analyse route passes an arbitrary JSON body to the scorer. The model
  scores only well-typed resume records.
- Lengths are counted in characters, not JavaScript's UTF-16 code units.
- `toLowerCase` is modelled for ASCII letters only. Full Unicode case mapping
  is not modelled. The regular expressions' `/i` flag folds only ASCII for the
  ASCII patterns used, so it is exact.
- The `percentage` field of each section is a floating-point value derived from
  the score. It is not modelled.
- JobMatch.RoundedPercentNearest: states exact rational rounding. It does not
  model floating-point error in `m / n * 100`.
- Ats.KeywordsScore: `Math.floor(n * 0.8)` is computed as `(8 * n) / 10`. The
  two agree for every count the vocabulary allows (0 to 19).
- `projects`, `certifications` and `languages` are left out of the resume
  record. No modelled operation reads or changes them.
- `updateSectionHeading` is not modelled.
- The theme, local-storage persistence, PDF export, AI summary generation, the
  template modal and every rendering component are not modelled.
- React state updates are modelled as functions from the previous record. The
  editor's updaters read `resumeData` from the enclosing render rather than the
  `prev` value, so two updates batched in one render can lose one of them. The
  model does not capture that staleness.
- `Date.now()` becomes the `now` parameter of `Editor.AddExperience` and
  `Editor.AddEducation`.
- Editor.UpdateExperience: the JavaScript `[field]` key may be any string, and
  an unknown key adds a new property. The model allows only the four editable
  fields (three for education). The `id` field cannot be updated.
- Editor.RemoveSkill, Editor.UpdateExperience, Editor.RemoveExperience,
  Editor.UpdateEducation, Editor.RemoveEducation: these updaters call `filter`
  or `map` on the list field directly (client/src/App.jsx:1442, 1450, 1467,
  1475, 1490), so JavaScript throws a `TypeError` when that field is absent.
  The model treats an absent list as empty, so these updaters leave it empty.
- JobMatch.MatchJob: uses the corrected score, which is 0 when the job
  description yields no keywords, instead of the `NaN` (sent as `null`) that
  the route computes; see "Findings". `JobMatch.ScoreAsWritten` models the
  written formula, and `JobMatch.MatchJobCorrect` states that the two agree
  whenever there are keywords.
- Editor.ToggleSection: JavaScript throws a `TypeError` for a section missing
  from the settings. The model returns `None` instead.

## Findings

| source | as written | input that shows it | evidently intended | confidence | as-written member | corrected member |
|---|---|---|---|---|---|---|
| server/index.js:445 | the match score divides the matched count by the keyword count without checking that there are keywords; with none, the score is `NaN`, which `Math.min` keeps and JSON sends as `null` | a job description whose words all have at most 3 letters, such as `C++ Dev` | a score of 0 when the job description yields no keywords | not executed | JobMatch.ShortWordsOnly | JobMatch.Score |
