/** `parseResumeText`: raw extracted text to a structured resume record.
    Every extraction is best effort: a pattern that is not found leaves its
    field empty, and no input makes the parser fail. */
module Parser {
  import opened Wrappers
  import opened Text
  import opened Seqs
  import opened Patterns
  import opened ResumeData

  /** The fixed skill vocabulary, matched case-insensitively against the text. */
  const SkillKeywords: seq<string> := [
    "javascript", "python", "java", "react", "node.js", "sql", "html", "css",
    "typescript", "angular", "vue", "mongodb", "postgresql", "aws", "docker",
    "git", "agile", "scrum", "project management", "communication", "leadership",
    "problem solving", "teamwork", "excel", "powerpoint", "word", "photoshop",
    "figma", "sketch", "adobe", "seo", "marketing", "sales", "analysis"
  ]

  const SummaryHeads: seq<string> := ["summary", "objective", "about", "profile"]
  const SummaryStops: seq<string> :=
    ["experience", "education", "skills", "projects", "work", "employment", "certifications"]
  const ExperienceHeads: seq<string> := ["experience", "work", "employment"]
  const ExperienceStops: seq<string> := ["education", "skills", "projects", "certifications"]
  const EducationHeads: seq<string> := ["education", "qualifications", "academic"]
  const EducationStops: seq<string> := ["skills", "projects", "certifications"]

  const MaxExperienceEntries: nat := 5
  const MaxEducationEntries: nat := 3
  const SummaryLimit: nat := 500
  const ExperienceDescriptionLimit: nat := 500
  const EducationDescriptionLimit: nat := 300

  /** Every element trimmed: `.map(line => line.trim())`. */
  function TrimAll(pieces: seq<string>): (r: seq<string>)
    ensures |r| == |pieces|
    ensures forall i :: 0 <= i < |r| ==> r[i] == Trim(pieces[i])
  {
    seq(|pieces|, i requires 0 <= i < |pieces| => Trim(pieces[i]))
  }

  /** The truthiness of a string. */
  predicate NonBlank(l: string) {
    l != ""
  }

  /** The trimmed lines of the text, `text.split('\n').map(l => l.trim())`. */
  function TrimmedLines(text: string): seq<string> {
    TrimAll(Split(Lines, text))
  }

  /** The first line is the name unless it looks like contact data. */
  function ExtractName(text: string): string {
    var lines := Filter(TrimmedLines(text), NonBlank);
    if |lines| > 0 && !Includes(lines[0], "@") && !Includes(lines[0], "http") then lines[0] else ""
  }

  function ExtractEmail(text: string): string {
    MatchedText(text, EmailPattern)
  }

  function ExtractPhone(text: string): string {
    MatchedText(text, PhonePattern)
  }

  /** The first LinkedIn profile path, with `https://` put in front. */
  function ExtractLinkedIn(text: string): string {
    var found := MatchedText(text, LinkedInPattern);
    if found == "" then "" else "https://" + found
  }

  /** The vocabulary terms the text mentions, in vocabulary order, each once. */
  function FoundSkills(text: string): seq<string> {
    Dedup(Filter(SkillKeywords, MentionedIn(text)))
  }

  /** The captured text of a section, if its header occurs. */
  function SectionText(text: string, heads: seq<string>, stops: seq<string>): (r: Option<string>)
    ensures r.Some? <==> FindSection(text, heads, stops).Some?
    ensures r.Some? ==> IsSliceOf(r.value, text)
  {
    match FindSection(text, heads, stops)
    case Some(sec) => SliceAt(text, sec.body, sec.end); Some(text[sec.body..sec.end])
    case None => None
  }

  function ExtractSummary(text: string): string {
    match SectionText(text, SummaryHeads, SummaryStops)
    case Some(body) => Prefix(Trim(body), SummaryLimit)
    case None => ""
  }

  /** The entries of a section: the first `limit` pieces of its captured text,
      split at `sp`, or none when the header does not occur. */
  function SectionChunks(text: string, heads: seq<string>, stops: seq<string>, sp: Splitter, limit: nat): seq<string> {
    match SectionText(text, heads, stops)
    case Some(body) => Prefix(Split(sp, body), limit)
    case None => []
  }

  /** `pieces.map((piece, index) => f(piece, index + 1))`. */
  function MapNumbered<T>(pieces: seq<string>, f: (string, nat) -> T): seq<T> {
    seq(|pieces|, i requires 0 <= i < |pieces| => f(pieces[i], i + 1))
  }

  lemma MapNumberedAt<T>(pieces: seq<string>, f: (string, nat) -> T, i: nat)
    requires i < |pieces|
    ensures |MapNumbered(pieces, f)| == |pieces| && MapNumbered(pieces, f)[i] == f(pieces[i], i + 1)
  {
  }

  function ExperienceChunks(text: string): seq<string> {
    SectionChunks(text, ExperienceHeads, ExperienceStops, ExperienceEntries, MaxExperienceEntries)
  }

  function ParseExperience(text: string): seq<Experience> {
    ExperienceOf(ExperienceChunks(text))
  }

  /** One experience entry per chunk, numbered from 1. */
  function ExperienceOf(chunks: seq<string>): seq<Experience> {
    MapNumbered(chunks, ExperienceEntry)
  }

  /** The entry numbered `number` for the piece `chunk`. */
  function ExperienceEntry(chunk: string, number: nat): Experience {
    Experience(number, "Position " + NatToString(number), "Company", "",
               Prefix(Trim(chunk), ExperienceDescriptionLimit))
  }

  function EducationChunks(text: string): seq<string> {
    SectionChunks(text, EducationHeads, EducationStops, EducationEntries, MaxEducationEntries)
  }

  /** The first line of the entry, trimmed, or the placeholder `Degree <number>`. */
  function DegreeOf(chunk: string, number: nat): string {
    var first := Trim(Split(Lines, chunk)[0]);
    if first != "" then first else "Degree " + NatToString(number)
  }

  function ParseEducation(text: string): seq<Education> {
    EducationOf(EducationChunks(text))
  }

  /** One education entry per chunk, numbered from 1. */
  function EducationOf(chunks: seq<string>): seq<Education> {
    MapNumbered(chunks, EducationEntry)
  }

  /** The entry numbered `number` for the piece `chunk`. */
  function EducationEntry(chunk: string, number: nat): Education {
    Education(number, DegreeOf(chunk, number), "Institution", "",
              Prefix(Trim(chunk), EducationDescriptionLimit))
  }


  /** `parseResumeText(text)`: the raw text is kept, location and website are
      never filled in, and every list and text field is capped. */
  function ParseResumeText(text: string): (r: Resume)
    ensures r.rawText == text
    ensures r.location == "" && r.website == ""
    ensures |r.summary| <= SummaryLimit
    ensures |r.experience| <= MaxExperienceEntries
    ensures |r.education| <= MaxEducationEntries
  {
    Resume(
      rawText := text,
      name := ExtractName(text),
      email := ExtractEmail(text),
      phone := ExtractPhone(text),
      linkedin := ExtractLinkedIn(text),
      location := "",
      website := "",
      summary := ExtractSummary(text),
      experience := ParseExperience(text),
      education := ParseEducation(text),
      skills := FoundSkills(text))
  }

  // ---------------------------------------------------------------------
  // What the extracted fields are

  /** The name is the first non-blank trimmed line, unless that line holds an
      `@` or `http`; it is a single line of the text. */
  lemma ExtractNameCorrect(text: string)
    ensures var lines := TrimmedLines(text);
            forall k :: 0 <= k < |lines| && lines[k] != "" && (forall j :: 0 <= j < k ==> lines[j] == "") ==>
              ExtractName(text) == (if Includes(lines[k], "@") || Includes(lines[k], "http") then "" else lines[k])
    ensures (forall k :: 0 <= k < |TrimmedLines(text)| ==> TrimmedLines(text)[k] == "") ==> ExtractName(text) == ""
    ensures IsSliceOf(ExtractName(text), text) && '\n' !in ExtractName(text)
  {
    var pieces := Split(Lines, text);
    var lines := TrimmedLines(text);
    forall k | 0 <= k < |lines| && lines[k] != "" && (forall j :: 0 <= j < k ==> lines[j] == "")
      ensures Filter(lines, NonBlank) != [] && Filter(lines, NonBlank)[0] == lines[k]
    {
      FilterHead(lines, NonBlank, k);
    }
    FilterMembers(lines, NonBlank);
    var name := ExtractName(text);
    if name == "" {
      assert text[0..0] == name;
    } else {
      var k :| 0 <= k < |lines| && lines[k] == name;
      SplitJoins(Lines, text);
      SplitLinesNoBreak(text);
      TrimSlice(pieces[k]);
      SliceOfSlice(name, pieces[k], text);
      SliceAvoids(name, pieces[k], '\n');
    }
  }

  /** The email is the leftmost match of the email expression, ending where
      the greedy engine ends it, which is also the longest match from that
      start; it is empty exactly when no piece of the text matches. */
  lemma ExtractEmailCorrect(text: string)
    ensures ExtractEmail(text) != "" ==> LeftmostMatch(ExtractEmail(text), text, EmailPattern)
    ensures ExtractEmail(text) != "" ==> LeftmostLongestMatch(ExtractEmail(text), text, EmailPattern)
    ensures ExtractEmail(text) == "" <==> NoMatch(text, EmailPattern)
  {
    assert EmailPattern[0][0].lo >= 1;
    MatchedTextCorrect(text, EmailPattern);
    if ExtractEmail(text) != "" {
      EmailLeftmostLongest(ExtractEmail(text), text);
    }
  }

  /** The phone number is the leftmost match of the phone expression, ending
      where the backtracking engine ends it (the first alternative that fits,
      then the largest counts from left to right), and it is empty exactly
      when no piece of the text matches. */
  lemma ExtractPhoneCorrect(text: string)
    ensures ExtractPhone(text) != "" ==> LeftmostMatch(ExtractPhone(text), text, PhonePattern)
    ensures ExtractPhone(text) == "" <==> NoMatch(text, PhonePattern)
  {
    assert PhonePattern[0][1].lo >= 1;
    assert PhonePattern[1][1].lo >= 1;
    MatchedTextCorrect(text, PhonePattern);
  }

  /** The LinkedIn field is `https://` followed by the leftmost profile path in
      the text, and empty exactly when the text holds none. */
  lemma ExtractLinkedInCorrect(text: string)
    ensures var link := ExtractLinkedIn(text);
            link != "" ==> link[..8] == "https://" && LeftmostMatch(link[8..], text, LinkedInPattern)
                           && LeftmostLongestMatch(link[8..], text, LinkedInPattern)
    ensures ExtractLinkedIn(text) == "" <==> NoMatch(text, LinkedInPattern)
  {
    assert LinkedInPattern[0][0].lo >= 1;
    MatchedTextCorrect(text, LinkedInPattern);
    var found := MatchedText(text, LinkedInPattern);
    if found != "" {
      assert ExtractLinkedIn(text)[8..] == found;
      LinkedInLeftmostLongest(found, text);
    }
  }

  /** The skills are the vocabulary terms the text mentions, case aside: each
      once, in vocabulary order. */
  lemma FoundSkillsCorrect(text: string)
    ensures NoDuplicates(FoundSkills(text)) && IsSubseq(FoundSkills(text), SkillKeywords)
    ensures forall k :: 0 <= k < |SkillKeywords| ==>
              (SkillKeywords[k] in FoundSkills(text) <==> IncludesIgnoringCase(text, SkillKeywords[k]))
  {
    DedupFilterMembers(SkillKeywords, MentionedIn(text));
  }

  /** A trimmed, truncated piece of a piece of the text is a piece of the text. */
  lemma TrimmedPrefixSlice(chunk: string, n: nat, text: string)
    requires IsSliceOf(chunk, text)
    ensures IsSliceOf(Prefix(Trim(chunk), n), text)
  {
    TrimSlice(chunk);
    PrefixSlice(Trim(chunk), n);
    SliceOfSlice(Trim(chunk), chunk, text);
    SliceOfSlice(Prefix(Trim(chunk), n), Trim(chunk), text);
  }

  /** The summary is empty without a summary header; otherwise it is the
      captured text trimmed and cut to 500 characters. Either way it is a
      piece of the text that starts with a non-space character. */
  lemma ExtractSummaryCorrect(text: string)
    ensures var summary := ExtractSummary(text);
            |summary| <= SummaryLimit && IsSliceOf(summary, text)
            && (summary == "" || !IsSpace(summary[0]))
    ensures FindSection(text, SummaryHeads, SummaryStops).None? ==> ExtractSummary(text) == ""
    ensures FindSection(text, SummaryHeads, SummaryStops).Some? ==>
              var sec := FindSection(text, SummaryHeads, SummaryStops).value;
              ExtractSummary(text) == Prefix(Trim(text[sec.body..sec.end]), SummaryLimit)
  {
    match SectionText(text, SummaryHeads, SummaryStops)
    case Some(body) =>
      TrimmedPrefixSlice(body, SummaryLimit, text);
    case None =>
      assert text[0..0] == "";
  }

  /** The entries are the first `limit` pieces of the captured text split at
      `sp`; each is a piece of the text, and there are none exactly when the
      section header does not occur. */
  lemma SectionChunksCorrect(text: string, heads: seq<string>, stops: seq<string>, sp: Splitter, limit: nat)
    requires limit >= 1
    ensures var chunks := SectionChunks(text, heads, stops, sp, limit);
            |chunks| <= limit
            && (chunks == [] <==> FindSection(text, heads, stops).None?)
            && forall i :: 0 <= i < |chunks| ==> IsSliceOf(chunks[i], text)
    ensures FindSection(text, heads, stops).Some? ==>
              var sec := FindSection(text, heads, stops).value;
              SectionChunks(text, heads, stops, sp, limit) == Prefix(Split(sp, text[sec.body..sec.end]), limit)
  {
    match SectionText(text, heads, stops)
    case Some(body) =>
      SplitJoins(sp, body);
      var chunks := SectionChunks(text, heads, stops, sp, limit);
      forall i | 0 <= i < |chunks| ensures IsSliceOf(chunks[i], text) {
        SliceOfSlice(chunks[i], body, text);
      }
    case None =>
  }

  /** Experience entries are numbered from 1 with placeholder title and
      company; there is none exactly when the section header is missing, at
      most five otherwise, and each description is a trimmed piece of the
      text of at most 500 characters. */
  lemma ParseExperienceCorrect(text: string)
    ensures var exp := ParseExperience(text);
            |exp| <= MaxExperienceEntries
            && (exp == [] <==> FindSection(text, ExperienceHeads, ExperienceStops).None?)
            && forall i :: 0 <= i < |exp| ==>
                 exp[i].id == i + 1 && exp[i].title == "Position " + NatToString(i + 1)
                 && exp[i].company == "Company" && exp[i].duration == ""
                 && |exp[i].description| <= ExperienceDescriptionLimit
                 && IsSliceOf(exp[i].description, text)
                 && (exp[i].description == "" || !IsSpace(exp[i].description[0]))
    ensures FindSection(text, ExperienceHeads, ExperienceStops).Some? ==>
              var sec := FindSection(text, ExperienceHeads, ExperienceStops).value;
              var pieces := Split(ExperienceEntries, text[sec.body..sec.end]);
              var exp := ParseExperience(text);
              |exp| == Min(|pieces|, MaxExperienceEntries)
              && forall i :: 0 <= i < |exp| ==> exp[i].description == Prefix(Trim(pieces[i]), ExperienceDescriptionLimit)
  {
    ExperienceSectionCorrect(text, ExperienceHeads, ExperienceStops, ExperienceEntries, MaxExperienceEntries);
  }

  /** The entries built from pieces of the text, one per piece. */
  lemma ExperienceOfCorrect(chunks: seq<string>, text: string)
    requires forall i :: 0 <= i < |chunks| ==> IsSliceOf(chunks[i], text)
    ensures var exp := ExperienceOf(chunks);
            |exp| == |chunks|
            && forall i :: 0 <= i < |exp| ==>
                 exp[i].id == i + 1 && exp[i].title == "Position " + NatToString(i + 1)
                 && exp[i].company == "Company" && exp[i].duration == ""
                 && exp[i].description == Prefix(Trim(chunks[i]), ExperienceDescriptionLimit)
                 && |exp[i].description| <= ExperienceDescriptionLimit
                 && IsSliceOf(exp[i].description, text)
                 && (exp[i].description == "" || !IsSpace(exp[i].description[0]))
  {
    var exp := ExperienceOf(chunks);
    forall i | 0 <= i < |exp|
      ensures exp[i].id == i + 1 && exp[i].title == "Position " + NatToString(i + 1)
              && exp[i].company == "Company" && exp[i].duration == ""
              && exp[i].description == Prefix(Trim(chunks[i]), ExperienceDescriptionLimit)
              && |exp[i].description| <= ExperienceDescriptionLimit
              && IsSliceOf(exp[i].description, text)
              && (exp[i].description == "" || !IsSpace(exp[i].description[0]))
    {
      MapNumberedAt(chunks, ExperienceEntry, i);
      ExperienceEntryCorrect(chunks[i], i + 1, text);
    }
  }

  /** The entries of any section, whatever its headers and separator. */
  lemma ExperienceSectionCorrect(text: string, heads: seq<string>, stops: seq<string>, sp: Splitter, limit: nat)
    requires limit >= 1
    ensures var exp := ExperienceOf(SectionChunks(text, heads, stops, sp, limit));
            |exp| <= limit
            && (exp == [] <==> FindSection(text, heads, stops).None?)
            && forall i :: 0 <= i < |exp| ==>
                 exp[i].id == i + 1 && exp[i].title == "Position " + NatToString(i + 1)
                 && exp[i].company == "Company" && exp[i].duration == ""
                 && |exp[i].description| <= ExperienceDescriptionLimit
                 && IsSliceOf(exp[i].description, text)
                 && (exp[i].description == "" || !IsSpace(exp[i].description[0]))
    ensures FindSection(text, heads, stops).Some? ==>
              var sec := FindSection(text, heads, stops).value;
              var pieces := Split(sp, text[sec.body..sec.end]);
              var exp := ExperienceOf(SectionChunks(text, heads, stops, sp, limit));
              |exp| == Min(|pieces|, limit)
              && forall i :: 0 <= i < |exp| ==> exp[i].description == Prefix(Trim(pieces[i]), ExperienceDescriptionLimit)
  {
    SectionChunksCorrect(text, heads, stops, sp, limit);
    ExperienceOfCorrect(SectionChunks(text, heads, stops, sp, limit), text);
  }

  /** An entry built from a piece of the text. */
  lemma ExperienceEntryCorrect(chunk: string, number: nat, text: string)
    requires IsSliceOf(chunk, text)
    ensures var e := ExperienceEntry(chunk, number);
            e.id == number && e.title == "Position " + NatToString(number)
            && e.company == "Company" && e.duration == ""
            && e.description == Prefix(Trim(chunk), ExperienceDescriptionLimit)
            && |e.description| <= ExperienceDescriptionLimit
            && IsSliceOf(e.description, text)
            && (e.description == "" || !IsSpace(e.description[0]))
  {
    TrimmedPrefixSlice(chunk, ExperienceDescriptionLimit, text);
  }

  /** The degree is never empty: it is the first line of the entry (the text
      up to its first line break), trimmed, or the placeholder
      `Degree <number>` when that line is blank. */
  lemma DegreeOfCorrect(chunk: string, number: nat)
    ensures var degree := DegreeOf(chunk, number);
            degree != "" && '\n' !in degree
            && (degree == "Degree " + NatToString(number) || (IsSliceOf(degree, chunk) && !IsSpace(degree[0])))
    ensures var line := Split(Lines, chunk)[0];
            |line| <= |chunk| && line == chunk[..|line|] && '\n' !in line && (|line| < |chunk| ==> chunk[|line|] == '\n')
            && (Trim(line) != "" ==> DegreeOf(chunk, number) == Trim(line))
            && (Trim(line) == "" ==> DegreeOf(chunk, number) == "Degree " + NatToString(number))
  {
    var first := Split(Lines, chunk)[0];
    SplitCuts(Lines, chunk);
    assert PieceCut(Lines, chunk, 0, Split(Lines, chunk), 0);
    assert chunk[0..|first|] == chunk[..|first|];
    SplitJoins(Lines, chunk);
    SplitLinesNoBreak(chunk);
    TrimSlice(first);
    SliceOfSlice(Trim(first), first, chunk);
    SliceAvoids(Trim(first), first, '\n');
    if Trim(first) == "" {
      assert "Degree " + NatToString(number) == "Degree " + NatToString(number);
      assert '\n' !in NatToString(number);
    }
  }

  lemma DegreeNonEmpty(chunk: string, number: nat)
    ensures DegreeOf(chunk, number) != ""
  {
    var first := Trim(Split(Lines, chunk)[0]);
    if first == "" {
      assert |"Degree " + NatToString(number)| > 0;
    }
  }

  /** Education entries are numbered from 1 with a placeholder institution;
      there is none exactly when the section header is missing, at most three
      otherwise, every degree is non-empty and each description is a trimmed
      piece of the text of at most 300 characters. */
  lemma ParseEducationCorrect(text: string)
    ensures var edu := ParseEducation(text);
            |edu| <= MaxEducationEntries
            && (edu == [] <==> FindSection(text, EducationHeads, EducationStops).None?)
            && forall i :: 0 <= i < |edu| ==>
                 edu[i].id == i + 1 && edu[i].institution == "Institution" && edu[i].year == ""
                 && edu[i].degree != ""
                 && |edu[i].description| <= EducationDescriptionLimit
                 && IsSliceOf(edu[i].description, text)
                 && (edu[i].description == "" || !IsSpace(edu[i].description[0]))
    ensures FindSection(text, EducationHeads, EducationStops).Some? ==>
              var sec := FindSection(text, EducationHeads, EducationStops).value;
              var pieces := Split(EducationEntries, text[sec.body..sec.end]);
              var edu := ParseEducation(text);
              |edu| == Min(|pieces|, MaxEducationEntries)
              && forall i :: 0 <= i < |edu| ==>
                   edu[i].degree == DegreeOf(pieces[i], i + 1)
                   && edu[i].description == Prefix(Trim(pieces[i]), EducationDescriptionLimit)
  {
    EducationSectionCorrect(text, EducationHeads, EducationStops, EducationEntries, MaxEducationEntries);
  }

  /** The entries built from pieces of the text, one per piece. */
  lemma EducationOfCorrect(chunks: seq<string>, text: string)
    requires forall i :: 0 <= i < |chunks| ==> IsSliceOf(chunks[i], text)
    ensures var edu := EducationOf(chunks);
            |edu| == |chunks|
            && forall i :: 0 <= i < |edu| ==>
                 edu[i].id == i + 1 && edu[i].institution == "Institution" && edu[i].year == ""
                 && edu[i].degree == DegreeOf(chunks[i], i + 1) && edu[i].degree != ""
                 && edu[i].description == Prefix(Trim(chunks[i]), EducationDescriptionLimit)
                 && |edu[i].description| <= EducationDescriptionLimit
                 && IsSliceOf(edu[i].description, text)
                 && (edu[i].description == "" || !IsSpace(edu[i].description[0]))
  {
    var edu := EducationOf(chunks);
    forall i | 0 <= i < |edu|
      ensures edu[i].id == i + 1 && edu[i].institution == "Institution" && edu[i].year == ""
              && edu[i].degree == DegreeOf(chunks[i], i + 1) && edu[i].degree != ""
              && edu[i].description == Prefix(Trim(chunks[i]), EducationDescriptionLimit)
              && |edu[i].description| <= EducationDescriptionLimit
              && IsSliceOf(edu[i].description, text)
              && (edu[i].description == "" || !IsSpace(edu[i].description[0]))
    {
      MapNumberedAt(chunks, EducationEntry, i);
      EducationEntryCorrect(chunks[i], i + 1, text);
    }
  }

  /** The entries of any section, whatever its headers and separator. */
  lemma EducationSectionCorrect(text: string, heads: seq<string>, stops: seq<string>, sp: Splitter, limit: nat)
    requires limit >= 1
    ensures var edu := EducationOf(SectionChunks(text, heads, stops, sp, limit));
            |edu| <= limit
            && (edu == [] <==> FindSection(text, heads, stops).None?)
            && forall i :: 0 <= i < |edu| ==>
                 edu[i].id == i + 1 && edu[i].institution == "Institution" && edu[i].year == ""
                 && edu[i].degree != ""
                 && |edu[i].description| <= EducationDescriptionLimit
                 && IsSliceOf(edu[i].description, text)
                 && (edu[i].description == "" || !IsSpace(edu[i].description[0]))
    ensures FindSection(text, heads, stops).Some? ==>
              var sec := FindSection(text, heads, stops).value;
              var pieces := Split(sp, text[sec.body..sec.end]);
              var edu := EducationOf(SectionChunks(text, heads, stops, sp, limit));
              |edu| == Min(|pieces|, limit)
              && forall i :: 0 <= i < |edu| ==>
                   edu[i].degree == DegreeOf(pieces[i], i + 1)
                   && edu[i].description == Prefix(Trim(pieces[i]), EducationDescriptionLimit)
  {
    SectionChunksCorrect(text, heads, stops, sp, limit);
    EducationOfCorrect(SectionChunks(text, heads, stops, sp, limit), text);
  }

  /** An entry built from a piece of the text. */
  lemma EducationEntryCorrect(chunk: string, number: nat, text: string)
    requires IsSliceOf(chunk, text)
    ensures var e := EducationEntry(chunk, number);
            e.id == number && e.institution == "Institution" && e.year == ""
            && e.degree == DegreeOf(chunk, number) && e.degree != ""
            && e.description == Prefix(Trim(chunk), EducationDescriptionLimit)
            && |e.description| <= EducationDescriptionLimit
            && IsSliceOf(e.description, text)
            && (e.description == "" || !IsSpace(e.description[0]))
  {
    TrimmedPrefixSlice(chunk, EducationDescriptionLimit, text);
    DegreeNonEmpty(chunk, number);
  }

}
