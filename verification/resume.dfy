/** The structured resume record shared by the parser, the ATS scorer and the
    editor. A field the JSON object lacks is the empty string or the empty list,
    which every consumer treats the same way (JavaScript's `x || ''`). */
module ResumeData {

  /** One work-experience entry. */
  datatype Experience = Experience(
    id: nat, title: string, company: string, duration: string, description: string)

  /** One education entry. */
  datatype Education = Education(
    id: nat, degree: string, institution: string, year: string, description: string)

  datatype Resume = Resume(
    rawText: string,
    name: string,
    email: string,
    phone: string,
    linkedin: string,
    location: string,
    website: string,
    summary: string,
    experience: seq<Experience>,
    education: seq<Education>,
    skills: seq<string>)

  /** The record with every field empty. */
  const EmptyResume: Resume := Resume("", "", "", "", "", "", "", "", [], [], [])
}
