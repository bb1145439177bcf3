/** The ATS score of a resume, section by section, as a specification.

    Each of the seven sections yields a score and the feedback items it adds,
    in the order the scorer emits them; `AtsReport` puts them together. The
    step-by-step computation is `AtsEngine.CalculateATSScore`, proved to
    produce exactly this report. */
module Ats {
  import opened Text
  import opened Seqs
  import opened Patterns
  import opened ResumeData

  datatype Severity = Error | Warning | Tip

  /** One feedback item: `{ type, message }`. */
  datatype Feedback = Feedback(kind: Severity, message: string)

  /** `{ letter, label, color }`; the label is called `caption` because `label` is a Dafny keyword. */
  datatype Grade = Grade(letter: string, caption: string, color: string)

  /** `{ score, max }` of one section. */
  datatype SectionScore = SectionScore(score: nat, max: nat)

  datatype Sections = Sections(
    contact: SectionScore, summary: SectionScore, experience: SectionScore,
    education: SectionScore, skills: SectionScore, formatting: SectionScore,
    keywords: SectionScore)

  datatype Report = Report(
    overallScore: nat,
    grade: Grade,
    sections: Sections,
    foundKeywords: seq<string>,
    feedback: seq<Feedback>,
    improvements: nat,
    tips: nat)

  /** What one section contributes: its score and its feedback items. */
  datatype Part = Part(score: nat, feedback: seq<Feedback>)

  /** Errors and warnings count as improvements. */
  predicate IsImprovement(f: Feedback) {
    f.kind == Error || f.kind == Warning
  }

  predicate IsTip(f: Feedback) {
    f.kind == Tip
  }

  predicate IsWarning(f: Feedback) {
    f.kind == Warning
  }

  predicate AllTips(fs: seq<Feedback>) {
    forall i :: 0 <= i < |fs| ==> fs[i].kind == Tip
  }

  // ---------------------------------------------------------------------
  // Grade

  /** `getGrade(score)`: the letter for a raw score. */
  function GradeOf(score: int): (g: Grade)
    ensures g.letter == "A+" <==> score >= 90
    ensures g.letter == "A" <==> 80 <= score < 90
    ensures g.letter == "B" <==> 70 <= score < 80
    ensures g.letter == "C" <==> 60 <= score < 70
    ensures g.letter == "D" <==> 50 <= score < 60
    ensures g.letter == "F" <==> score < 50
  {
    if score >= 90 then Grade("A+", "Excellent", "#10b981")
    else if score >= 80 then Grade("A", "Very Good", "#22c55e")
    else if score >= 70 then Grade("B", "Good", "#84cc16")
    else if score >= 60 then Grade("C", "Fair", "#eab308")
    else if score >= 50 then Grade("D", "Needs Work", "#f97316")
    else Grade("F", "Poor", "#ef4444")
  }

  /** The position of a letter in the order F < D < C < B < A < A+. */
  function Rank(g: Grade): nat {
    if g.letter == "A+" then 5
    else if g.letter == "A" then 4
    else if g.letter == "B" then 3
    else if g.letter == "C" then 2
    else if g.letter == "D" then 1
    else 0
  }

  /** A higher score never gets a lower grade. */
  lemma GradeMonotone(a: int, b: int)
    requires a <= b
    ensures Rank(GradeOf(a)) <= Rank(GradeOf(b))
  {
  }

  // ---------------------------------------------------------------------
  // 1. Contact information (10 points)

  const EmailMissing := Feedback(Error, "Email address is missing")
  const PhoneMissing := Feedback(Warning, "Phone number is missing")
  const LinkedInMissing := Feedback(Tip, "Add LinkedIn profile URL")
  const LocationMissing := Feedback(Tip, "Add your location/city")

  /** 3 points for an email, 3 for a phone number, 2 for a LinkedIn URL and 2
      for a location; each missing one adds its own feedback item. */
  function ContactPart(r: Resume): (p: Part)
    ensures p.score <= 10 && |p.feedback| <= 4
  {
    var email := if r.email != "" then Part(3, []) else Part(0, [EmailMissing]);
    var phone := if r.phone != "" then Part(3, []) else Part(0, [PhoneMissing]);
    var linkedin := if r.linkedin != "" then Part(2, []) else Part(0, [LinkedInMissing]);
    var location := if r.location != "" then Part(2, []) else Part(0, [LocationMissing]);
    Part(email.score + phone.score + linkedin.score + location.score,
         email.feedback + phone.feedback + linkedin.feedback + location.feedback)
  }

  /** Each missing contact field is reported, and a full score means nothing is missing. */
  lemma ContactPartCorrect(r: Resume)
    ensures r.email == "" <==> EmailMissing in ContactPart(r).feedback
    ensures r.phone == "" <==> PhoneMissing in ContactPart(r).feedback
    ensures r.linkedin == "" <==> LinkedInMissing in ContactPart(r).feedback
    ensures r.location == "" <==> LocationMissing in ContactPart(r).feedback
    ensures ContactPart(r).score == 10 <==> ContactPart(r).feedback == []
  {
  }

  // ---------------------------------------------------------------------
  // 2. Professional summary (15 points)

  const SummaryKeywords: seq<string> :=
    ["years", "experience", "professional", "skilled", "expertise", "developed", "managed", "led"]

  const SummaryMissing := Feedback(Warning, "Add a professional summary section.")
  const SummaryTooLong :=
    Feedback(Tip, "Professional summary is too long. Keep it between 150-300 characters.")
  const SummaryTooShort := Feedback(Tip, "Professional summary could be more detailed.")
  const SummaryFewKeywords := Feedback(Tip, "Add more professional keywords to your summary.")

  /** The number of professional keywords, `summary.match(/years|...|led/gi)`. */
  function SummaryKeywordCount(summary: string): nat {
    CountMatches(summary, SummaryKeywords)
  }

  /** A summary under 50 characters scores nothing and draws one warning;
      otherwise it scores 5, plus 5/3/2 for its length and 5/2 for its
      keywords, and only tips are given. */
  function SummaryPart(summary: string): (p: Part)
    ensures p.score <= 15
  {
    SummaryScoring(|summary|, SummaryKeywordCount(summary))
  }

  /** The summary section for a summary of `size` characters with `hits`
      keyword matches. */
  function SummaryScoring(size: nat, hits: nat): (p: Part)
    ensures p.score <= 15
  {
    if size < 50 then Part(0, [SummaryMissing])
    else
      var length :=
        if 150 <= size <= 300 then Part(5, [])
        else if size > 300 then Part(3, [SummaryTooLong])
        else Part(2, [SummaryTooShort]);
      var keywords := if hits >= 3 then Part(5, []) else Part(2, [SummaryFewKeywords]);
      Part(5 + length.score + keywords.score, length.feedback + keywords.feedback)
  }

  /** A summary under 50 characters scores nothing and draws one warning;
      a longer one scores at least 9 and draws only tips; the full 15 needs a
      length from 150 to 300 and three keyword matches, and comes with no
      feedback. */
  lemma SummaryScoringCorrect(size: nat, hits: nat)
    ensures SummaryScoring(size, hits).score == 0 <==> size < 50
    ensures size < 50 ==> SummaryScoring(size, hits).feedback == [SummaryMissing]
    ensures size >= 50 ==> 9 <= SummaryScoring(size, hits).score && AllTips(SummaryScoring(size, hits).feedback)
                           && |SummaryScoring(size, hits).feedback| <= 2
    ensures SummaryScoring(size, hits).score == 15 <==> 150 <= size <= 300 && hits >= 3
    ensures SummaryScoring(size, hits).score == 15 <==> SummaryScoring(size, hits).feedback == []
  {
  }

  // ---------------------------------------------------------------------
  // 3. Work experience (25 points)

  const ActionVerbs: seq<string> := [
    "developed", "managed", "led", "created", "implemented", "designed", "achieved",
    "increased", "decreased", "improved", "analyzed", "coordinated", "supervised",
    "trained", "negotiated", "launched", "executed", "delivered"
  ]

  /** The words that may follow a number in `\d+ (years|months|people|team|projects)`. */
  const QuantityUnits: seq<string> := [" years", " months", " people", " team", " projects"]

  const ExperienceMissing := Feedback(Error, "Work experience section is empty")

  function ActionVerbCount(description: string): nat {
    CountMatches(description, ActionVerbs)
  }

  /** One of the alternatives of `/(\d+%|\d+\+|\$\d+|\d+ (years|...))/i` matches
      at `i`. Each alternative that matches somewhere also matches with its
      `\d+` reduced to the last digit, so one position suffices. */
  predicate QuantityAt(d: string, i: nat) {
    i + 1 < |d|
    && ((IsDigit(d[i]) && (d[i + 1] == '%' || d[i + 1] == '+' || WordAt(Lower(d), i + 1, QuantityUnits).Some?))
        || (d[i] == '$' && IsDigit(d[i + 1])))
  }

  function QuantityFrom(d: string, i: nat): (b: bool)
    requires i <= |d|
    ensures b <==> exists j :: i <= j < |d| && QuantityAt(d, j)
    decreases |d| - i
  {
    if i == |d| then false else QuantityAt(d, i) || QuantityFrom(d, i + 1)
  }

  /** `quantifiablePattern.test(description)`. */
  function HasQuantity(d: string): (b: bool)
    ensures b <==> exists j :: 0 <= j < |d| && QuantityAt(d, j)
  {
    QuantityFrom(d, 0)
  }

  /** 3 points for two action verbs or more, 4 for a quantified result. */
  function EntryPoints(e: Experience): (n: nat)
    ensures n <= 7
  {
    (if ActionVerbCount(e.description) >= 2 then 3 else 0) + (if HasQuantity(e.description) then 4 else 0)
  }

  /** The feedback for the entry numbered `number`: a tip when it lacks action
      verbs, a warning when it lacks a quantified result. */
  function EntryFeedback(e: Experience, number: nat): seq<Feedback> {
    (if ActionVerbCount(e.description) >= 2 then []
     else [Feedback(Tip, "Use more action verbs in experience #" + NatToString(number))])
    + (if HasQuantity(e.description) then []
       else [Feedback(Warning, "Add quantifiable achievements to experience #" + NatToString(number))])
  }

  /** The points of all entries; defined from the last entry back, in the
      order `forEach` adds them. */
  function EntriesPoints(es: seq<Experience>): (n: nat)
    ensures n <= 7 * |es|
    decreases |es|
  {
    if es == [] then 0 else EntriesPoints(es[..|es| - 1]) + EntryPoints(es[|es| - 1])
  }

  function EntriesFeedback(es: seq<Experience>): seq<Feedback>
    decreases |es|
  {
    if es == [] then [] else EntriesFeedback(es[..|es| - 1]) + EntryFeedback(es[|es| - 1], |es|)
  }

  /** 5 points for having experience plus the entries' points, capped at 25;
      an error when there is no entry. */
  function ExperiencePart(es: seq<Experience>): (p: Part)
    ensures p.score <= 25
  {
    if es == [] then Part(0, [ExperienceMissing])
    else Part(Min(5 + EntriesPoints(es), 25), EntriesFeedback(es))
  }

  /** No entries: nothing and one error; otherwise at least the 5 base points. */
  lemma ExperiencePartCorrect(es: seq<Experience>)
    ensures ExperiencePart(es).score == 0 <==> es == []
    ensures es == [] ==> ExperiencePart(es).feedback == [ExperienceMissing]
    ensures es != [] ==> ExperiencePart(es).score >= 5
  {
  }

  /** Every point an entry misses is reported: 3 per action-verb tip and 4 per
      quantity warning, so the points plus the missing points are 7 per entry. */
  lemma {:induction false} EntriesBalance(es: seq<Experience>)
    ensures EntriesPoints(es) + 3 * CountIf(EntriesFeedback(es), IsTip)
            + 4 * CountIf(EntriesFeedback(es), IsWarning) == 7 * |es|
    ensures |EntriesFeedback(es)| == CountIf(EntriesFeedback(es), IsTip) + CountIf(EntriesFeedback(es), IsWarning)
    decreases |es|
  {
    if es != [] {
      var init := es[..|es| - 1];
      var last := es[|es| - 1];
      EntriesBalance(init);
      var fb := EntryFeedback(last, |es|);
      assert EntriesPoints(es) == EntriesPoints(init) + EntryPoints(last);
      assert EntriesFeedback(es) == EntriesFeedback(init) + fb;
      EntryBalance(last, |es|);
      CountIfAppend(EntriesFeedback(init), fb, IsTip);
      CountIfAppend(EntriesFeedback(init), fb, IsWarning);
    }
  }

  /** One entry: 3 points or a tip, and 4 points or a warning. */
  lemma EntryBalance(e: Experience, number: nat)
    ensures EntryPoints(e) + 3 * CountIf(EntryFeedback(e, number), IsTip)
            + 4 * CountIf(EntryFeedback(e, number), IsWarning) == 7
    ensures |EntryFeedback(e, number)| == CountIf(EntryFeedback(e, number), IsTip)
            + CountIf(EntryFeedback(e, number), IsWarning)
  {
  }

  /** Three fully scoring entries already reach the cap; two never do. */
  lemma ExperienceCap(es: seq<Experience>)
    ensures |es| >= 3 && (forall i :: 0 <= i < |es| ==> EntryPoints(es[i]) == 7) ==> ExperiencePart(es).score == 25
    ensures |es| <= 2 ==> ExperiencePart(es).score <= 19
  {
    if |es| >= 3 && (forall i :: 0 <= i < |es| ==> EntryPoints(es[i]) == 7) {
      EntriesAllFull(es);
    }
  }

  lemma {:induction false} EntriesAllFull(es: seq<Experience>)
    requires forall i :: 0 <= i < |es| ==> EntryPoints(es[i]) == 7
    ensures EntriesPoints(es) == 7 * |es|
    decreases |es|
  {
    if es != [] {
      EntriesAllFull(es[..|es| - 1]);
    }
  }

  // ---------------------------------------------------------------------
  // 4. Education (10 points)

  const EducationMissing := Feedback(Warning, "Education section is missing")

  /** 2 points for a degree, 2 for an institution, 1 for a year. */
  function DegreePoints(e: Education): (n: nat)
    ensures n <= 5
    ensures n == 5 <==> e.degree != "" && e.institution != "" && e.year != ""
  {
    (if e.degree != "" then 2 else 0) + (if e.institution != "" then 2 else 0) + (if e.year != "" then 1 else 0)
  }

  function DegreesPoints(es: seq<Education>): (n: nat)
    ensures n <= 5 * |es|
    decreases |es|
  {
    if es == [] then 0 else DegreesPoints(es[..|es| - 1]) + DegreePoints(es[|es| - 1])
  }

  /** 5 points for having education plus the entries' points, capped at 10;
      a warning when there is no entry. */
  function EducationPart(es: seq<Education>): (p: Part)
    ensures p.score <= 10
  {
    if es == [] then Part(0, [EducationMissing])
    else Part(Min(5 + DegreesPoints(es), 10), [])
  }

  /** No entries: nothing and one warning; otherwise some points and no feedback. */
  lemma EducationPartCorrect(es: seq<Education>)
    ensures EducationPart(es).score == 0 <==> es == []
    ensures es == [] ==> EducationPart(es).feedback == [EducationMissing]
    ensures es != [] ==> EducationPart(es).feedback == []
  {
  }

  lemma {:induction false} DegreesPointsAtLeast(es: seq<Education>, i: nat)
    requires i < |es|
    ensures DegreesPoints(es) >= DegreePoints(es[i])
    decreases |es|
  {
    if i < |es| - 1 {
      DegreesPointsAtLeast(es[..|es| - 1], i);
    }
  }

  /** One entry with degree, institution and year gives the full 10 points. */
  lemma EducationFull(es: seq<Education>, i: nat)
    requires i < |es| && es[i].degree != "" && es[i].institution != "" && es[i].year != ""
    ensures EducationPart(es).score == 10
  {
    DegreesPointsAtLeast(es, i);
  }

  // ---------------------------------------------------------------------
  // 5. Skills (20 points)

  const SoftSkills: seq<string> :=
    ["communication", "leadership", "teamwork", "problem-solving", "time management", "critical thinking"]

  const SkillsMissing := Feedback(Error, "Skills section is missing")
  const SoftSkillsMissing := Feedback(Tip, "Include soft skills like communication, leadership, teamwork.")

  /** A skill mentions a soft skill, case aside. */
  predicate IsSoftSkill(skill: string) {
    Any(SoftSkills, (soft: string) => IncludesIgnoringCase(skill, soft))
  }

  /** 5 points for any skill, 5 (at least 5) or 3 (at least 3) for the count,
      5 (at least 10) or 3 (at least 7) more, and 5 for a soft skill; capped at 20. */
  function SkillsPart(skills: seq<string>): (p: Part)
    ensures p.score <= 20
  {
    if skills == [] then Part(0, [SkillsMissing])
    else
      var breadth := if |skills| >= 5 then 5 else if |skills| >= 3 then 3 else 0;
      var depth := if |skills| >= 10 then 5 else if |skills| >= 7 then 3 else 0;
      var soft := if Any(skills, IsSoftSkill) then Part(5, []) else Part(0, [SoftSkillsMissing]);
      Part(Min(5 + breadth + depth + soft.score, 20), soft.feedback)
  }

  /** No skills: nothing and one error; the soft-skill tip appears exactly when
      no skill mentions a soft skill; the full 20 needs ten skills and a soft one. */
  lemma SkillsPartCorrect(skills: seq<string>)
    ensures SkillsPart(skills).score == 0 <==> skills == []
    ensures skills == [] ==> SkillsPart(skills).feedback == [SkillsMissing]
    ensures skills != [] ==> (SkillsPart(skills).feedback == [] <==> exists i :: 0 <= i < |skills| && IsSoftSkill(skills[i]))
    ensures SkillsPart(skills).score == 20 <==> |skills| >= 10 && exists i :: 0 <= i < |skills| && IsSoftSkill(skills[i])
  {
  }

  // ---------------------------------------------------------------------
  // 6. Formatting (10 points)

  const TooShort := Feedback(Warning, "Resume content is too short")
  const TooLong := Feedback(Tip, "Resume might be too long. Keep it concise.")

  /** 10 points, less 2 when neither the text nor the email field has an `@`
      (with no feedback item), less 3 for a text under 300 characters or 2
      for one over 5000. */
  function FormattingPart(rawText: string, email: string): (p: Part)
    ensures 5 <= p.score <= 10
  {
    var structure := if !Includes(rawText, "@") && email == "" then 2 else 0;
    var length :=
      if |rawText| < 300 then Part(3, [TooShort])
      else if |rawText| > 5000 then Part(2, [TooLong])
      else Part(0, []);
    Part(10 - structure - length.score, length.feedback)
  }

  /** Only the length draws feedback; the full 10 needs an `@` somewhere and a
      length from 300 to 5000. */
  lemma FormattingPartCorrect(rawText: string, email: string)
    ensures FormattingPart(rawText, email).feedback == [] <==> 300 <= |rawText| <= 5000
    ensures |rawText| < 300 ==> FormattingPart(rawText, email).feedback == [TooShort]
    ensures |rawText| > 5000 ==> FormattingPart(rawText, email).feedback == [TooLong]
    ensures FormattingPart(rawText, email).score == 10 <==> (Includes(rawText, "@") || email != "") && 300 <= |rawText| <= 5000
  {
  }

  // ---------------------------------------------------------------------
  // 7. Keywords (10 points)

  const IndustryKeywords: seq<string> := [
    "project", "management", "development", "analysis", "strategy",
    "implementation", "optimization", "collaboration", "innovation",
    "customer", "client", "stakeholder", "budget", "deadline",
    "technical", "software", "data", "process", "solution"
  ]

  /** The industry keywords the text mentions, in list order. */
  function FoundKeywords(rawText: string): seq<string> {
    Filter(IndustryKeywords, MentionedIn(rawText))
  }

  /** `Math.min(Math.floor(n * 0.8), 10)`. For the at most 19 keywords,
      `Math.floor(n * 0.8)` in double precision is `8n / 10` in integers. */
  function KeywordsScore(n: nat): (score: nat)
    ensures score <= 10 && score <= n
    ensures score == 10 <==> n >= 13
  {
    Min((8 * n) / 10, 10)
  }

  /** The found keywords are, in list order, exactly the industry keywords the
      text mentions, and their score grows with their number. */
  lemma FoundKeywordsCorrect(rawText: string)
    ensures IsSubseq(FoundKeywords(rawText), IndustryKeywords)
    ensures forall k :: 0 <= k < |IndustryKeywords| ==>
              (IndustryKeywords[k] in FoundKeywords(rawText) <==> IncludesIgnoringCase(rawText, IndustryKeywords[k]))
    ensures |FoundKeywords(rawText)| <= 19
  {
    FilterMembers(IndustryKeywords, MentionedIn(rawText));
  }

  lemma KeywordsScoreMonotone(a: nat, b: nat)
    requires a <= b
    ensures KeywordsScore(a) <= KeywordsScore(b)
  {
  }

  // ---------------------------------------------------------------------
  // The report

  /** The feedback items of all sections, in the order they are emitted. */
  function AllFeedback(r: Resume): seq<Feedback> {
    ContactPart(r).feedback + SummaryPart(r.summary).feedback + ExperiencePart(r.experience).feedback
    + EducationPart(r.education).feedback + SkillsPart(r.skills).feedback
    + FormattingPart(r.rawText, r.email).feedback
  }

  function SectionsOf(r: Resume): Sections {
    Sections(
      SectionScore(ContactPart(r).score, 10),
      SectionScore(SummaryPart(r.summary).score, 15),
      SectionScore(ExperiencePart(r.experience).score, 25),
      SectionScore(EducationPart(r.education).score, 10),
      SectionScore(SkillsPart(r.skills).score, 20),
      SectionScore(FormattingPart(r.rawText, r.email).score, 10),
      SectionScore(KeywordsScore(|FoundKeywords(r.rawText)|), 10))
  }

  /** Every section scores at most its maximum, and the maxima are those of
      the scorer: 10, 15, 25, 10, 20, 10 and 10, which add up to 100. */
  predicate WithinMaxima(s: Sections) {
    s.contact == SectionScore(s.contact.score, 10) && s.contact.score <= 10
    && s.summary == SectionScore(s.summary.score, 15) && s.summary.score <= 15
    && s.experience == SectionScore(s.experience.score, 25) && s.experience.score <= 25
    && s.education == SectionScore(s.education.score, 10) && s.education.score <= 10
    && s.skills == SectionScore(s.skills.score, 20) && s.skills.score <= 20
    && s.formatting == SectionScore(s.formatting.score, 10) && s.formatting.score <= 10
    && s.keywords == SectionScore(s.keywords.score, 10) && s.keywords.score <= 10
  }

  /** The raw score: the sum of the section scores. */
  function Total(s: Sections): nat {
    s.contact.score + s.summary.score + s.experience.score + s.education.score
    + s.skills.score + s.formatting.score + s.keywords.score
  }

  lemma SectionsWithinMaxima(r: Resume)
    ensures WithinMaxima(SectionsOf(r))
  {
  }

  /** The report for given section scores, found keywords and feedback items:
      the overall score is the capped total, the grade is taken from the
      uncapped total, and the feedback is counted by severity. */
  function MakeReport(sections: Sections, found: seq<string>, feedback: seq<Feedback>): (rep: Report)
    requires WithinMaxima(sections)
    ensures rep.sections == sections && rep.foundKeywords == found && rep.feedback == feedback
    ensures rep.overallScore == Total(sections) <= 100
    ensures rep.grade == GradeOf(rep.overallScore)
    ensures rep.improvements == CountIf(feedback, IsImprovement) && rep.tips == CountIf(feedback, IsTip)
    ensures rep.improvements + rep.tips == |feedback|
  {
    var raw := Total(sections);
    CountIfPartition(feedback, IsImprovement, IsTip);
    Report(Min(raw, 100), GradeOf(raw), sections, found, feedback,
           CountIf(feedback, IsImprovement), CountIf(feedback, IsTip))
  }

  /** The report assembled from the six scored sections and the industry
      keywords found: the sections in the scorer's order with their maxima,
      the feedback items in the order the sections emit them. */
  function Assemble(c: Part, s: Part, e: Part, d: Part, k: Part, f: Part, found: seq<string>): (rep: Report)
    requires c.score <= 10 && s.score <= 15 && e.score <= 25 && d.score <= 10 && k.score <= 20 && f.score <= 10
    ensures WithinMaxima(rep.sections) && rep.foundKeywords == found
    ensures rep.feedback == c.feedback + s.feedback + e.feedback + d.feedback + k.feedback + f.feedback
    ensures rep.overallScore == Total(rep.sections) <= 100
    ensures rep.grade == GradeOf(rep.overallScore)
    ensures rep.improvements + rep.tips == |rep.feedback|
  {
    var sections := Sections(
      SectionScore(c.score, 10), SectionScore(s.score, 15), SectionScore(e.score, 25),
      SectionScore(d.score, 10), SectionScore(k.score, 20), SectionScore(f.score, 10),
      SectionScore(KeywordsScore(|found|), 10));
    MakeReport(sections, found, c.feedback + s.feedback + e.feedback + d.feedback + k.feedback + f.feedback)
  }

  /** A report built the way the scorer builds it, by running sums over the
      sections, is the assembled one. */
  lemma ReportAssembled(c: Part, s: Part, e: Part, d: Part, k: Part, f: Part, found: seq<string>, rep: Report)
    requires c.score <= 10 && s.score <= 15 && e.score <= 25 && d.score <= 10 && k.score <= 20 && f.score <= 10
    requires rep.sections == Sections(
      SectionScore(c.score, 10), SectionScore(s.score, 15), SectionScore(e.score, 25),
      SectionScore(d.score, 10), SectionScore(k.score, 20), SectionScore(f.score, 10),
      SectionScore(KeywordsScore(|found|), 10))
    requires rep.foundKeywords == found
    requires rep.feedback == c.feedback + s.feedback + e.feedback + d.feedback + k.feedback + f.feedback
    requires rep.overallScore == Min(Total(rep.sections), 100) && rep.grade == GradeOf(Total(rep.sections))
    requires rep.improvements == CountIf(rep.feedback, IsImprovement) && rep.tips == CountIf(rep.feedback, IsTip)
    ensures rep == Assemble(c, s, e, d, k, f, found)
  {
  }

  /** `calculateATSScore(resumeData)`. The maxima add up to 100, so the cap on
      the overall score never changes it and the grade, computed from the raw
      sum, is the grade of the overall score. */
  function AtsReport(r: Resume): (rep: Report)
    ensures WithinMaxima(rep.sections)
    ensures rep.overallScore == Total(rep.sections) <= 100
    ensures rep.grade == GradeOf(rep.overallScore)
    ensures rep.improvements + rep.tips == |rep.feedback|
  {
    Assemble(ContactPart(r), SummaryPart(r.summary), ExperiencePart(r.experience),
             EducationPart(r.education), SkillsPart(r.skills), FormattingPart(r.rawText, r.email),
             FoundKeywords(r.rawText))
  }

  /** The report of a record is assembled from its sections' parts. */
  lemma AtsReportOfParts(r: Resume, c: Part, s: Part, e: Part, d: Part, k: Part, f: Part, found: seq<string>)
    requires c == ContactPart(r) && s == SummaryPart(r.summary) && e == ExperiencePart(r.experience)
    requires d == EducationPart(r.education) && k == SkillsPart(r.skills) && f == FormattingPart(r.rawText, r.email)
    requires found == FoundKeywords(r.rawText)
    ensures c.score <= 10 && s.score <= 15 && e.score <= 25 && d.score <= 10 && k.score <= 20 && f.score <= 10
    ensures AtsReport(r) == Assemble(c, s, e, d, k, f, found)
  {
  }

  /** The report's sections and feedback are those of the record's sections. */
  lemma AtsReportParts(r: Resume)
    ensures AtsReport(r).sections == SectionsOf(r)
    ensures AtsReport(r).feedback == AllFeedback(r)
    ensures AtsReport(r).improvements == CountIf(AllFeedback(r), IsImprovement)
    ensures AtsReport(r).tips == CountIf(AllFeedback(r), IsTip)
  {
  }

  /** A record without a location gets the location tip, at most 8 contact
      points and at most 98 overall. */
  lemma NoLocationReport(r: Resume)
    requires r.location == ""
    ensures LocationMissing in AtsReport(r).feedback
    ensures AtsReport(r).sections.contact.score <= 8
    ensures AtsReport(r).overallScore <= 98
    ensures AtsReport(r).tips >= 1
  {
    AtsReportParts(r);
    NoLocationParts(r);
    SectionsWithinMaxima(r);
  }

  lemma NoLocationParts(r: Resume)
    requires r.location == ""
    ensures LocationMissing in AllFeedback(r) && CountIf(AllFeedback(r), IsTip) >= 1
    ensures SectionsOf(r).contact.score <= 8
  {
    ContactPartCorrect(r);
    var contact := ContactPart(r).feedback;
    var k :| 0 <= k < |contact| && contact[k] == LocationMissing;
    TipInFirst(contact, SummaryPart(r.summary).feedback, ExperiencePart(r.experience).feedback,
               EducationPart(r.education).feedback, SkillsPart(r.skills).feedback,
               FormattingPart(r.rawText, r.email).feedback, k);
  }

  /** A tip among the first section's items is among all items, and counted. */
  lemma TipInFirst(a: seq<Feedback>, b: seq<Feedback>, c: seq<Feedback>, d: seq<Feedback>,
                   e: seq<Feedback>, f: seq<Feedback>, k: nat)
    requires k < |a| && IsTip(a[k])
    ensures a[k] in a + b + c + d + e + f && CountIf(a + b + c + d + e + f, IsTip) >= 1
  {
    var items := a + b + c + d + e + f;
    assert items[k] == a[k];
    TipCounted(items, k);
  }

  /** A list holding a tip counts at least one tip. */
  lemma {:induction false} TipCounted(fs: seq<Feedback>, k: nat)
    requires k < |fs| && IsTip(fs[k])
    ensures CountIf(fs, IsTip) >= 1
    decreases k
  {
    if k > 0 {
      TipCounted(fs[1..], k - 1);
    }
  }

  /** An empty record scores 5 (formatting only), grade F, with seven
      improvements and two tips, the first being the missing email. */
  lemma EmptyResumeReport()
    ensures AtsReport(EmptyResume).overallScore == 5
    ensures AtsReport(EmptyResume).grade.letter == "F"
    ensures |AtsReport(EmptyResume).feedback| == 9 && AtsReport(EmptyResume).feedback[0] == EmailMissing
    ensures AtsReport(EmptyResume).improvements == 7 && AtsReport(EmptyResume).tips == 2
  {
    AtsReportParts(EmptyResume);
    EmptyResumeFeedback();
    EmptyResumeTotal();
    EmptyResumeCounts();
  }

  lemma EmptyResumeCounts()
    ensures CountIf(EmptyResumeItems, IsImprovement) == 7 && CountIf(EmptyResumeItems, IsTip) == 2
  {
    var s := EmptyResumeItems;
    assert s[8..][1..] == s[9..];
    assert CountIf(s[8..], IsImprovement) == 1 && CountIf(s[8..], IsTip) == 0;
    assert s[7..][1..] == s[8..];
    assert CountIf(s[7..], IsImprovement) == 2 && CountIf(s[7..], IsTip) == 0;
    assert s[6..][1..] == s[7..];
    assert CountIf(s[6..], IsImprovement) == 3 && CountIf(s[6..], IsTip) == 0;
    assert s[5..][1..] == s[6..];
    assert CountIf(s[5..], IsImprovement) == 4 && CountIf(s[5..], IsTip) == 0;
    assert s[4..][1..] == s[5..];
    assert CountIf(s[4..], IsImprovement) == 5 && CountIf(s[4..], IsTip) == 0;
    assert s[3..][1..] == s[4..];
    assert CountIf(s[3..], IsImprovement) == 5 && CountIf(s[3..], IsTip) == 1;
    assert s[2..][1..] == s[3..];
    assert CountIf(s[2..], IsImprovement) == 5 && CountIf(s[2..], IsTip) == 2;
    assert s[1..][1..] == s[2..];
    assert CountIf(s[1..], IsImprovement) == 6 && CountIf(s[1..], IsTip) == 2;
    assert s[0..][1..] == s[1..];
    assert CountIf(s[0..], IsImprovement) == 7 && CountIf(s[0..], IsTip) == 2;
    assert s[0..] == s;
  }

  /** The feedback for an empty record, in order. */
  const EmptyResumeItems: seq<Feedback> := [EmailMissing, PhoneMissing, LinkedInMissing, LocationMissing,
    SummaryMissing, ExperienceMissing, EducationMissing, SkillsMissing, TooShort]

  lemma EmptyResumeFeedback()
    ensures AllFeedback(EmptyResume) == EmptyResumeItems
  {
    EmptyResumeParts();
  }

  lemma EmptyResumeTotal()
    ensures Total(SectionsOf(EmptyResume)) == 5
  {
    EmptyResumeParts();
    NothingFoundInEmptyText();
  }

  /** Each section of an empty record: nothing scores but formatting, and
      every section reports what is missing. */
  lemma EmptyResumeParts()
    ensures ContactPart(EmptyResume) == Part(0, [EmailMissing, PhoneMissing, LinkedInMissing, LocationMissing])
    ensures SummaryPart("") == Part(0, [SummaryMissing])
    ensures ExperiencePart([]) == Part(0, [ExperienceMissing])
    ensures EducationPart([]) == Part(0, [EducationMissing])
    ensures SkillsPart([]) == Part(0, [SkillsMissing])
    ensures FormattingPart("", "") == Part(5, [TooShort])
  {
  }

  /** No industry keyword occurs in the empty text. */
  lemma NothingFoundInEmptyText()
    ensures FoundKeywords("") == []
  {
    assert NonEmptyWords(IndustryKeywords) by {
      forall k | 0 <= k < |IndustryKeywords| ensures |IndustryKeywords[k]| > 0 {
      }
    }
    forall k | 0 <= k < |IndustryKeywords| ensures !MentionedIn("")(IndustryKeywords[k]) {
      assert |IndustryKeywords[k]| > 0;
    }
    FilterNone(IndustryKeywords, MentionedIn(""));
  }
}
