/** `calculateATSScore` as the scorer runs it: a running total and a feedback
    list that grows section by section, with a loop over the experience
    entries and one over the education entries. Each block of the scorer is a
    method proved to yield the section that `Ats` specifies. */
module AtsEngine {
  import opened Text
  import opened Seqs
  import opened ResumeData
  import opened Ats

  /** Block 1: contact information. */
  method ScoreContact(r: Resume) returns (score: nat, items: seq<Feedback>)
    ensures Part(score, items) == ContactPart(r)
  {
    score := 0;
    items := [];
    if r.email != "" { score := score + 3; } else { items := items + [EmailMissing]; }
    if r.phone != "" { score := score + 3; } else { items := items + [PhoneMissing]; }
    if r.linkedin != "" { score := score + 2; } else { items := items + [LinkedInMissing]; }
    if r.location != "" { score := score + 2; } else { items := items + [LocationMissing]; }
  }

  /** Block 2: professional summary. */
  method ScoreSummary(summary: string) returns (score: nat, items: seq<Feedback>)
    ensures Part(score, items) == SummaryPart(summary)
  {
    score, items := SummaryBlock(|summary|, SummaryKeywordCount(summary));
  }

  /** The statements of block 2, for a summary of `size` characters with
      `hits` keyword matches. */
  method SummaryBlock(size: nat, hits: nat) returns (score: nat, items: seq<Feedback>)
    ensures Part(score, items) == SummaryScoring(size, hits)
  {
    score := 0;
    items := [];
    if size >= 50 {
      score := score + 5;
      if 150 <= size <= 300 {
        score := score + 5;
      } else if size > 300 {
        score := score + 3;
        items := items + [SummaryTooLong];
      } else {
        score := score + 2;
        items := items + [SummaryTooShort];
      }
      if hits >= 3 {
        score := score + 5;
      } else {
        score := score + 2;
        items := items + [SummaryFewKeywords];
      }
    } else {
      items := items + [SummaryMissing];
    }
  }

  /** Block 3: work experience, one entry at a time. */
  method ScoreExperience(es: seq<Experience>) returns (score: nat, items: seq<Feedback>)
    ensures Part(score, items) == ExperiencePart(es)
  {
    score := 0;
    items := [];
    if |es| > 0 {
      score := score + 5;
      var i := 0;
      assert es[..0] == [];
      while i < |es|
        invariant 0 <= i <= |es|
        invariant score == 5 + EntriesPoints(es[..i])
        invariant items == EntriesFeedback(es[..i])
      {
        var points, entryItems := ScoreEntry(es[i], i + 1);
        score := score + points;
        items := items + entryItems;
        EntriesStep(es, i);
        i := i + 1;
      }
      assert es[..i] == es;
      score := Min(score, 25);
    } else {
      items := items + [ExperienceMissing];
    }
  }

  /** The body of the loop over the experience entries, for the entry numbered `number`. */
  method ScoreEntry(e: Experience, number: nat) returns (points: nat, items: seq<Feedback>)
    ensures points == EntryPoints(e) && items == EntryFeedback(e, number)
  {
    points := 0;
    items := [];
    var description := e.description;
    if ActionVerbCount(description) >= 2 {
      points := points + 3;
    } else {
      items := items + [Feedback(Tip, "Use more action verbs in experience #" + NatToString(number))];
    }
    if HasQuantity(description) {
      points := points + 4;
    } else {
      items := items + [Feedback(Warning, "Add quantifiable achievements to experience #" + NatToString(number))];
    }
  }

  /** The points and feedback of the first `i + 1` entries extend those of the first `i`. */
  lemma EntriesStep(es: seq<Experience>, i: nat)
    requires i < |es|
    ensures EntriesPoints(es[..i + 1]) == EntriesPoints(es[..i]) + EntryPoints(es[i])
    ensures EntriesFeedback(es[..i + 1]) == EntriesFeedback(es[..i]) + EntryFeedback(es[i], i + 1)
  {
    assert es[..i + 1][..i] == es[..i];
  }

  /** Block 4: education, one entry at a time. */
  method ScoreEducation(es: seq<Education>) returns (score: nat, items: seq<Feedback>)
    ensures Part(score, items) == EducationPart(es)
  {
    score := 0;
    items := [];
    if |es| > 0 {
      score := score + 5;
      var i := 0;
      while i < |es|
        invariant 0 <= i <= |es|
        invariant score == 5 + DegreesPoints(es[..i])
      {
        if es[i].degree != "" { score := score + 2; }
        if es[i].institution != "" { score := score + 2; }
        if es[i].year != "" { score := score + 1; }
        assert es[..i + 1][..i] == es[..i];
        i := i + 1;
      }
      assert es[..i] == es;
      score := Min(score, 10);
    } else {
      items := items + [EducationMissing];
    }
  }

  /** Block 5: skills. */
  method ScoreSkills(skills: seq<string>) returns (score: nat, items: seq<Feedback>)
    ensures Part(score, items) == SkillsPart(skills)
  {
    score := 0;
    items := [];
    if |skills| > 0 {
      score := score + 5;
      if |skills| >= 5 { score := score + 5; }
      else if |skills| >= 3 { score := score + 3; }
      if |skills| >= 10 { score := score + 5; }
      else if |skills| >= 7 { score := score + 3; }
      if Any(skills, IsSoftSkill) {
        score := score + 5;
      } else {
        items := items + [SoftSkillsMissing];
      }
      score := Min(score, 20);
    } else {
      items := items + [SkillsMissing];
    }
  }

  /** Block 6: formatting. The score starts at 10 and is clamped at 0. */
  method ScoreFormatting(fullText: string, email: string) returns (score: nat, items: seq<Feedback>)
    ensures Part(score, items) == FormattingPart(fullText, email)
  {
    var s: int := 10;
    items := [];
    if !Includes(fullText, "@") && email == "" {
      s := s - 2;
    }
    if |fullText| < 300 {
      s := s - 3;
      items := items + [TooShort];
    } else if |fullText| > 5000 {
      s := s - 2;
      items := items + [TooLong];
    }
    if s < 0 {
      s := 0;
    }
    score := s;
  }

  /** `words.filter(w => text.toLowerCase().includes(w.toLowerCase()))`, one word at a time. */
  method FilterMentioned(words: seq<string>, text: string) returns (found: seq<string>)
    ensures found == Filter(words, MentionedIn(text))
  {
    found := [];
    var i := 0;
    while i < |words|
      invariant 0 <= i <= |words|
      invariant found == Filter(words[..i], MentionedIn(text))
    {
      if IncludesIgnoringCase(text, words[i]) {
        found := found + [words[i]];
      }
      FilterStep(words, i, MentionedIn(text));
      i := i + 1;
    }
    assert words[..i] == words;
  }

  /** Block 7: industry keywords. */
  method ScoreKeywords(fullText: string) returns (score: nat, found: seq<string>)
    ensures found == FoundKeywords(fullText) && score == KeywordsScore(|found|)
  {
    found := FilterMentioned(IndustryKeywords, fullText);
    score := Min((8 * |found|) / 10, 10);
  }

  /** Blocks 1 to 6, adding each section's points to the running total and
      its feedback items to the list. */
  method ScoreSections(r: Resume)
    returns (contact: Part, summary: Part, experience: Part, education: Part, skills: Part, formatting: Part,
             score: nat, feedback: seq<Feedback>)
    ensures contact == ContactPart(r) && summary == SummaryPart(r.summary)
    ensures experience == ExperiencePart(r.experience) && education == EducationPart(r.education)
    ensures skills == SkillsPart(r.skills) && formatting == FormattingPart(r.rawText, r.email)
    ensures score == contact.score + summary.score + experience.score + education.score + skills.score + formatting.score
    ensures feedback == contact.feedback + summary.feedback + experience.feedback + education.feedback
                        + skills.feedback + formatting.feedback
  {
    var contactScore, contactItems := ScoreContact(r);
    feedback := contactItems;
    score := contactScore;

    var summaryScore, summaryItems := ScoreSummary(r.summary);
    feedback := feedback + summaryItems;
    score := score + summaryScore;

    var experienceScore, experienceItems := ScoreExperience(r.experience);
    feedback := feedback + experienceItems;
    score := score + experienceScore;

    var educationScore, educationItems := ScoreEducation(r.education);
    feedback := feedback + educationItems;
    score := score + educationScore;

    var skillsScore, skillsItems := ScoreSkills(r.skills);
    feedback := feedback + skillsItems;
    score := score + skillsScore;

    var formattingScore, formattingItems := ScoreFormatting(r.rawText, r.email);
    feedback := feedback + formattingItems;
    score := score + formattingScore;

    contact, summary, experience := Part(contactScore, contactItems), Part(summaryScore, summaryItems),
                                    Part(experienceScore, experienceItems);
    education, skills, formatting := Part(educationScore, educationItems), Part(skillsScore, skillsItems),
                                     Part(formattingScore, formattingItems);
  }

  /** Scores the resume block by block; the report is exactly the one
      `Ats.AtsReport` specifies, so the overall score is the uncapped total of
      the sections, at most 100, and the grade is that of the overall score. */
  method CalculateATSScore(r: Resume) returns (rep: Report)
    ensures rep == AtsReport(r)
    ensures rep.overallScore <= 100 && rep.grade == GradeOf(rep.overallScore)
    ensures rep.improvements + rep.tips == |rep.feedback|
  {
    var contact, summary, experience, education, skills, formatting, score, feedback := ScoreSections(r);
    var keywordsScore, found := ScoreKeywords(r.rawText);
    score := score + keywordsScore;

    var sections := Sections(
      SectionScore(contact.score, 10), SectionScore(summary.score, 15),
      SectionScore(experience.score, 25), SectionScore(education.score, 10),
      SectionScore(skills.score, 20), SectionScore(formatting.score, 10),
      SectionScore(keywordsScore, 10));
    rep := Report(Min(score, 100), GradeOf(score), sections, found, feedback,
                  CountIf(feedback, IsImprovement), CountIf(feedback, IsTip));
    AtsReportOfParts(r, contact, summary, experience, education, skills, formatting, found);
    ReportAssembled(contact, summary, experience, education, skills, formatting, found, rep);
  }
}
