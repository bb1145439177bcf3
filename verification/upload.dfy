/** The upload route: the extracted text is parsed into a record, and the
    record is scored. Reading the file and extracting its text are left out;
    the text is the input. */
module Upload {
  import opened Seqs
  import opened ResumeData
  import opened Parser
  import opened Ats

  /** The record and the score the upload route sends back. */
  datatype Uploaded = Uploaded(data: Resume, atsScore: Report)

  function UploadText(text: string): (u: Uploaded)
    ensures u.data.rawText == text
    ensures u.atsScore.overallScore <= 100 && u.atsScore.grade == GradeOf(u.atsScore.overallScore)
  {
    var data := ParseResumeText(text);
    Uploaded(data, AtsReport(data))
  }

  /** The parser never fills in a location, so every uploaded resume gets the
      location tip, scores at most 8 of the 10 contact points and so at most
      98 overall. */
  lemma UploadedResumeMissesLocation(text: string)
    ensures LocationMissing in UploadText(text).atsScore.feedback
    ensures UploadText(text).atsScore.sections.contact.score <= 8
    ensures UploadText(text).atsScore.overallScore <= 98
    ensures UploadText(text).atsScore.tips >= 1
  {
    var data := ParseResumeText(text);
    assert UploadText(text).atsScore == AtsReport(data);
    NoLocationReport(data);
  }
}
