/** The resume editor's record operations. Each one builds a new record from
    the previous one (object spread, `map`, `filter`); none changes a record in
    place, so each is a function from the old record to the new one. */
module Editor {
  import opened Wrappers
  import opened Text
  import opened Seqs
  import opened ResumeData

  // updateResumeData

  /** The argument of `updateResumeData`: the fields it supplies. */
  datatype ResumePatch = ResumePatch(
    rawText: Option<string>,
    name: Option<string>,
    email: Option<string>,
    phone: Option<string>,
    linkedin: Option<string>,
    location: Option<string>,
    website: Option<string>,
    summary: Option<string>,
    experience: Option<seq<Experience>>,
    education: Option<seq<Education>>,
    skills: Option<seq<string>>)

  /** The patch that supplies no field. */
  const NoChange: ResumePatch := ResumePatch(None, None, None, None, None, None, None, None, None, None, None)

  /** The value of a field after a spread: the supplied one if there is one. */
  function Pick<T>(supplied: Option<T>, previous: T): T {
    if supplied.Some? then supplied.value else previous
  }

  /** `{ ...prev, ...data }`: every supplied field is overwritten, every other
      field keeps its previous value. */
  function UpdateResume(prev: Resume, data: ResumePatch): (r: Resume)
    ensures data.rawText.Some? ==> r.rawText == data.rawText.value
    ensures data.rawText.None? ==> r.rawText == prev.rawText
    ensures data.name.Some? ==> r.name == data.name.value
    ensures data.name.None? ==> r.name == prev.name
    ensures data.email.Some? ==> r.email == data.email.value
    ensures data.email.None? ==> r.email == prev.email
    ensures data.phone.Some? ==> r.phone == data.phone.value
    ensures data.phone.None? ==> r.phone == prev.phone
    ensures data.linkedin.Some? ==> r.linkedin == data.linkedin.value
    ensures data.linkedin.None? ==> r.linkedin == prev.linkedin
    ensures data.location.Some? ==> r.location == data.location.value
    ensures data.location.None? ==> r.location == prev.location
    ensures data.website.Some? ==> r.website == data.website.value
    ensures data.website.None? ==> r.website == prev.website
    ensures data.summary.Some? ==> r.summary == data.summary.value
    ensures data.summary.None? ==> r.summary == prev.summary
    ensures data.experience.Some? ==> r.experience == data.experience.value
    ensures data.experience.None? ==> r.experience == prev.experience
    ensures data.education.Some? ==> r.education == data.education.value
    ensures data.education.None? ==> r.education == prev.education
    ensures data.skills.Some? ==> r.skills == data.skills.value
    ensures data.skills.None? ==> r.skills == prev.skills
  {
    Resume(
      Pick(data.rawText, prev.rawText), Pick(data.name, prev.name), Pick(data.email, prev.email),
      Pick(data.phone, prev.phone), Pick(data.linkedin, prev.linkedin),
      Pick(data.location, prev.location), Pick(data.website, prev.website),
      Pick(data.summary, prev.summary), Pick(data.experience, prev.experience),
      Pick(data.education, prev.education), Pick(data.skills, prev.skills))
  }

  /** `{ ...p, ...q }` on patches: the fields of `q` win. */
  function MergePatches(p: ResumePatch, q: ResumePatch): ResumePatch {
    ResumePatch(
      if q.rawText.Some? then q.rawText else p.rawText,
      if q.name.Some? then q.name else p.name,
      if q.email.Some? then q.email else p.email,
      if q.phone.Some? then q.phone else p.phone,
      if q.linkedin.Some? then q.linkedin else p.linkedin,
      if q.location.Some? then q.location else p.location,
      if q.website.Some? then q.website else p.website,
      if q.summary.Some? then q.summary else p.summary,
      if q.experience.Some? then q.experience else p.experience,
      if q.education.Some? then q.education else p.education,
      if q.skills.Some? then q.skills else p.skills)
  }

  /** An update that supplies nothing leaves the record as it was. */
  lemma UpdateNothing(prev: Resume)
    ensures UpdateResume(prev, NoChange) == prev
  {
  }

  /** Two updates in a row are one update with the merged fields, later ones winning. */
  lemma UpdateTwice(prev: Resume, p: ResumePatch, q: ResumePatch)
    ensures UpdateResume(UpdateResume(prev, p), q) == UpdateResume(prev, MergePatches(p, q))
  {
  }

  /** Applying the same update twice is applying it once. */
  lemma UpdateIdempotent(prev: Resume, p: ResumePatch)
    ensures UpdateResume(UpdateResume(prev, p), p) == UpdateResume(prev, p)
  {
  }

  /** The patches the editor's list operations send: one list field each. */
  function ExperiencePatch(xs: seq<Experience>): ResumePatch {
    NoChange.(experience := Some(xs))
  }

  function EducationPatch(xs: seq<Education>): ResumePatch {
    NoChange.(education := Some(xs))
  }

  function SkillsPatch(xs: seq<string>): ResumePatch {
    NoChange.(skills := Some(xs))
  }

  // Skills

  /** The state `addSkill` works on: the record and the text of the new-skill box. */
  datatype SkillInput = SkillInput(resume: Resume, newSkill: string)

  /** `addSkill`: the trimmed text is appended if it is non-empty and not
      already a skill, and the input box is then cleared; otherwise nothing
      changes. */
  function AddSkill(s: SkillInput): (t: SkillInput)
    ensures var skill := Trim(s.newSkill);
            if skill != "" && skill !in s.resume.skills
            then t.resume.skills == s.resume.skills + [skill] && t.newSkill == ""
            else t == s
    ensures t.resume == s.resume.(skills := t.resume.skills)
  {
    var skill := Trim(s.newSkill);
    if skill != "" && skill !in s.resume.skills then
      SkillInput(UpdateResume(s.resume, SkillsPatch(s.resume.skills + [skill])), "")
    else
      s
  }

  /** Adding a skill keeps a duplicate-free list duplicate-free, and every
      skill in the list is trimmed and non-empty if it was so before. */
  lemma AddSkillKeepsSkillsClean(s: SkillInput)
    requires NoDuplicates(s.resume.skills)
    requires forall i :: 0 <= i < |s.resume.skills| ==> IsCleanSkill(s.resume.skills[i])
    ensures NoDuplicates(AddSkill(s).resume.skills)
    ensures forall i :: 0 <= i < |AddSkill(s).resume.skills| ==> IsCleanSkill(AddSkill(s).resume.skills[i])
  {
    var skill := Trim(s.newSkill);
    if skill != "" && skill !in s.resume.skills {
      TrimIdempotent(s.newSkill);
      assert IsCleanSkill(skill);
    }
  }

  /** What `addSkill` ever puts into the list: a non-empty string without
      surrounding white space. */
  predicate IsCleanSkill(skill: string) {
    skill != "" && Trim(skill) == skill
  }

  /** Adding a skill never loses one, and adds at most the trimmed input. */
  lemma AddSkillMembers(s: SkillInput, x: string)
    ensures x in AddSkill(s).resume.skills <==> x in s.resume.skills || (x == Trim(s.newSkill) && x != "")
  {
  }

  function NotEqualTo(skill: string): string -> bool {
    s => s != skill
  }

  /** `removeSkill`: every occurrence of `skill` is dropped. */
  function RemoveSkill(r: Resume, skill: string): (r': Resume)
    ensures r' == r.(skills := r'.skills)
    ensures |r'.skills| <= |r.skills|
  {
    UpdateResume(r, SkillsPatch(Filter(r.skills, NotEqualTo(skill))))
  }

  /** The remaining skills are the others, in their order, and the list shrinks
      by the number of occurrences of the removed skill. */
  lemma RemoveSkillCorrect(r: Resume, skill: string)
    ensures IsSubseq(RemoveSkill(r, skill).skills, r.skills)
    ensures skill !in RemoveSkill(r, skill).skills
    ensures forall i :: 0 <= i < |r.skills| && r.skills[i] != skill ==> r.skills[i] in RemoveSkill(r, skill).skills
    ensures |RemoveSkill(r, skill).skills| == |r.skills| - CountIf(r.skills, s => s == skill)
  {
    var kept := Filter(r.skills, NotEqualTo(skill));
    FilterMembers(r.skills, NotEqualTo(skill));
    FilterLength(r.skills, NotEqualTo(skill));
    CountIfPartition(r.skills, NotEqualTo(skill), s => s == skill);
  }

  /** Removing a skill and adding it back through the input box puts it at the end. */
  lemma RemoveThenAddSkill(r: Resume, skill: string)
    requires IsCleanSkill(skill)
    ensures AddSkill(SkillInput(RemoveSkill(r, skill), skill)).resume.skills
            == RemoveSkill(r, skill).skills + [skill]
  {
    RemoveSkillCorrect(r, skill);
  }

  // Experience entries

  /** The fields of an experience entry the editor's inputs change. */
  datatype ExperienceField = Title | Company | Duration | Description

  function SetExperienceField(e: Experience, field: ExperienceField, value: string): Experience {
    match field
    case Title => e.(title := value)
    case Company => e.(company := value)
    case Duration => e.(duration := value)
    case Description => e.(description := value)
  }

  function ExperienceFieldOf(e: Experience, field: ExperienceField): string {
    match field
    case Title => e.title
    case Company => e.company
    case Duration => e.duration
    case Description => e.description
  }

  /** `addExperience`, with the timestamp `Date.now()` as the new entry's id. */
  function AddExperience(r: Resume, now: nat): (r': Resume)
    ensures |r'.experience| == |r.experience| + 1
    ensures r'.experience[..|r.experience|] == r.experience
    ensures r'.experience[|r.experience|] == Experience(now, "", "", "", "")
    ensures r' == r.(experience := r'.experience)
  {
    UpdateResume(r, ExperiencePatch(r.experience + [Experience(now, "", "", "", "")]))
  }

  /** `updateExperience(id, field, value)`: the field is set on every entry with that id. */
  function UpdateExperience(r: Resume, id: nat, field: ExperienceField, value: string): (r': Resume)
    ensures r' == r.(experience := r'.experience)
    ensures |r'.experience| == |r.experience|
  {
    var xs := r.experience;
    UpdateResume(r, ExperiencePatch(
      seq(|xs|, i requires 0 <= i < |xs| =>
        if xs[i].id == id then SetExperienceField(xs[i], field, value) else xs[i])))
  }

  /** Only entries with the id change, only in the named field; the list keeps
      its length and order. */
  lemma UpdateExperienceCorrect(r: Resume, id: nat, field: ExperienceField, value: string, i: nat)
    requires i < |r.experience|
    ensures var e := r.experience[i];
            var e' := UpdateExperience(r, id, field, value).experience[i];
            && e'.id == e.id
            && (e.id != id ==> e' == e)
            && (e.id == id ==> ExperienceFieldOf(e', field) == value)
            && (forall g :: g != field ==> ExperienceFieldOf(e', g) == ExperienceFieldOf(e, g))
  {
  }

  /** Setting a field to the value it already has on every matching entry changes nothing. */
  lemma UpdateExperienceIdempotent(r: Resume, id: nat, field: ExperienceField, value: string)
    ensures var r' := UpdateExperience(r, id, field, value);
            UpdateExperience(r', id, field, value) == r'
  {
    var r' := UpdateExperience(r, id, field, value);
    var r'' := UpdateExperience(r', id, field, value);
    assert r''.experience == r'.experience;
  }

  function IdIsNot(id: nat): Experience -> bool {
    (e: Experience) => e.id != id
  }

  /** `removeExperience(id)`: every entry with the id is dropped. */
  function RemoveExperience(r: Resume, id: nat): (r': Resume)
    ensures r' == r.(experience := r'.experience)
    ensures |r'.experience| <= |r.experience|
  {
    UpdateResume(r, ExperiencePatch(Filter(r.experience, IdIsNot(id))))
  }

  /** The remaining entries are, in order, exactly those with another id. */
  lemma RemoveExperienceCorrect(r: Resume, id: nat)
    ensures IsSubseq(RemoveExperience(r, id).experience, r.experience)
    ensures forall i :: 0 <= i < |RemoveExperience(r, id).experience| ==> RemoveExperience(r, id).experience[i].id != id
    ensures forall i :: 0 <= i < |r.experience| ==> (r.experience[i] in RemoveExperience(r, id).experience <==> r.experience[i].id != id)
  {
    FilterMembers(r.experience, IdIsNot(id));
  }

  /** Removing the entry just added, when its id is fresh, gives back the record. */
  lemma AddThenRemoveExperience(r: Resume, now: nat)
    requires forall i :: 0 <= i < |r.experience| ==> r.experience[i].id != now
    ensures RemoveExperience(AddExperience(r, now), now) == r
  {
    var xs := r.experience + [Experience(now, "", "", "", "")];
    assert xs[..|r.experience|] == r.experience;
    FilterKeepsAll(r.experience, IdIsNot(now));
    FilterAppend(r.experience, [Experience(now, "", "", "", "")], IdIsNot(now));
  }

  // Education entries

  /** The fields of an education entry the editor's inputs change. */
  datatype EducationField = Degree | Institution | Year

  function SetEducationField(e: Education, field: EducationField, value: string): Education {
    match field
    case Degree => e.(degree := value)
    case Institution => e.(institution := value)
    case Year => e.(year := value)
  }

  function EducationFieldOf(e: Education, field: EducationField): string {
    match field
    case Degree => e.degree
    case Institution => e.institution
    case Year => e.year
  }

  /** `addEducation`, with the timestamp `Date.now()` as the new entry's id. */
  function AddEducation(r: Resume, now: nat): (r': Resume)
    ensures |r'.education| == |r.education| + 1
    ensures r'.education[..|r.education|] == r.education
    ensures r'.education[|r.education|] == Education(now, "", "", "", "")
    ensures r' == r.(education := r'.education)
  {
    UpdateResume(r, EducationPatch(r.education + [Education(now, "", "", "", "")]))
  }

  /** `updateEducation(id, field, value)`: the field is set on every entry with that id. */
  function UpdateEducation(r: Resume, id: nat, field: EducationField, value: string): (r': Resume)
    ensures r' == r.(education := r'.education)
    ensures |r'.education| == |r.education|
  {
    var xs := r.education;
    UpdateResume(r, EducationPatch(
      seq(|xs|, i requires 0 <= i < |xs| =>
        if xs[i].id == id then SetEducationField(xs[i], field, value) else xs[i])))
  }

  /** Only entries with the id change, only in the named field; the list keeps
      its length and order. */
  lemma UpdateEducationCorrect(r: Resume, id: nat, field: EducationField, value: string, i: nat)
    requires i < |r.education|
    ensures var e := r.education[i];
            var e' := UpdateEducation(r, id, field, value).education[i];
            && e'.id == e.id && e'.description == e.description
            && (e.id != id ==> e' == e)
            && (e.id == id ==> EducationFieldOf(e', field) == value)
            && (forall g :: g != field ==> EducationFieldOf(e', g) == EducationFieldOf(e, g))
  {
  }

  function EducationIdIsNot(id: nat): Education -> bool {
    (e: Education) => e.id != id
  }

  /** `removeEducation(id)`: every entry with the id is dropped. */
  function RemoveEducation(r: Resume, id: nat): (r': Resume)
    ensures r' == r.(education := r'.education)
    ensures |r'.education| <= |r.education|
  {
    UpdateResume(r, EducationPatch(Filter(r.education, EducationIdIsNot(id))))
  }

  /** The remaining entries are, in order, exactly those with another id. */
  lemma RemoveEducationCorrect(r: Resume, id: nat)
    ensures IsSubseq(RemoveEducation(r, id).education, r.education)
    ensures forall i :: 0 <= i < |RemoveEducation(r, id).education| ==> RemoveEducation(r, id).education[i].id != id
    ensures forall i :: 0 <= i < |r.education| ==> (r.education[i] in RemoveEducation(r, id).education <==> r.education[i].id != id)
  {
    FilterMembers(r.education, EducationIdIsNot(id));
  }

  /** Removing the entry just added, when its id is fresh, gives back the record. */
  lemma AddThenRemoveEducation(r: Resume, now: nat)
    requires forall i :: 0 <= i < |r.education| ==> r.education[i].id != now
    ensures RemoveEducation(AddEducation(r, now), now) == r
  {
    FilterKeepsAll(r.education, EducationIdIsNot(now));
    FilterAppend(r.education, [Education(now, "", "", "", "")], EducationIdIsNot(now));
  }

  // Section settings

  /** The visibility and heading of one resume section. */
  datatype SectionSetting = SectionSetting(visible: bool, heading: string)

  /** The editor's initial settings: four sections shown, three hidden. */
  const InitialSections: map<string, SectionSetting> := map[
    "summary" := SectionSetting(true, "Professional Summary"),
    "experience" := SectionSetting(true, "Work Experience"),
    "education" := SectionSetting(true, "Education"),
    "skills" := SectionSetting(true, "Skills"),
    "certifications" := SectionSetting(false, "Certifications"),
    "projects" := SectionSetting(false, "Projects"),
    "languages" := SectionSetting(false, "Languages")]

  /** `toggleSection(section)`: the section's visibility is flipped. For a
      section that is not in the settings, `prev[section].visible` throws:
      the result is then `None`. */
  function ToggleSection(settings: map<string, SectionSetting>, section: string): (r: Option<map<string, SectionSetting>>)
    ensures r.None? <==> section !in settings
    ensures r.Some? ==> r.value.Keys == settings.Keys
    ensures r.Some? ==> r.value[section] == settings[section].(visible := !settings[section].visible)
    ensures r.Some? ==> forall k :: k in settings && k != section ==> r.value[k] == settings[k]
  {
    if section in settings then
      Some(settings[section := settings[section].(visible := !settings[section].visible)])
    else
      None
  }

  /** Toggling a section twice restores the settings. */
  lemma ToggleTwice(settings: map<string, SectionSetting>, section: string)
    requires section in settings
    ensures ToggleSection(ToggleSection(settings, section).value, section) == Some(settings)
  {
    var once := ToggleSection(settings, section).value;
    var twice := ToggleSection(once, section).value;
    assert twice == settings;
  }

  /** Toggles of different sections commute. */
  lemma ToggleCommutes(settings: map<string, SectionSetting>, a: string, b: string)
    requires a in settings && b in settings
    ensures ToggleSection(ToggleSection(settings, a).value, b) == ToggleSection(ToggleSection(settings, b).value, a)
  {
    var ab := ToggleSection(ToggleSection(settings, a).value, b).value;
    var ba := ToggleSection(ToggleSection(settings, b).value, a).value;
    assert ab == ba;
  }

  // Template gallery

  /** A resume template as the gallery lists it. */
  datatype Template = Template(
    id: string, name: string, category: string, description: string, color: string,
    hasHeadshot: bool, hasGraphics: bool, columns: nat)

  /** The gallery's three dropdowns: 'all', 'with' or 'without' for the first
      two, 'all', '1' or '2' for the third. */
  datatype Filters = Filters(headshot: string, graphics: string, columns: string)

  /** The gallery: twelve templates. */
  const AllTemplates: seq<Template> := [
    Template("modern", "Modern Minimal", "General", "Clean, lots of whitespace", "#6366f1", false, false, 1),
    Template("professional", "Professional Classic", "Corporate", "Traditional, formal", "#1e293b", false, false, 1),
    Template("creative", "Creative Bold", "Design", "Color accents, modern", "#667eea", true, true, 1),
    Template("executive", "Executive", "Senior Roles", "Elegant, sophisticated", "#0f172a", false, false, 1),
    Template("tech", "Tech Developer", "IT/Software", "Code-inspired, clean", "#58a6ff", false, true, 1),
    Template("marketing", "Marketing Pro", "Marketing/Sales", "Dynamic, impactful", "#f5576c", true, true, 1),
    Template("finance", "Finance Formal", "Banking/Finance", "Conservative, trustworthy", "#0f172a", false, false, 1),
    Template("healthcare", "Healthcare", "Medical", "Clean, organized", "#0369a1", true, false, 2),
    Template("designer", "Designer Portfolio", "Creative", "Visual, unique", "#ff6b6b", true, true, 2),
    Template("fresher", "Fresher/Student", "Entry Level", "Skills-focused", "#10b981", false, false, 1),
    Template("sidebar-left", "Sidebar Left", "Modern", "Two column layout", "#6366f1", true, false, 2),
    Template("sidebar-right", "Sidebar Right", "Modern", "Right sidebar layout", "#8b5cf6", true, false, 2)]

  const NoFilters: Filters := Filters("all", "all", "all")

  /** The filter callback: a template is dropped by the first filter it fails. */
  predicate KeepTemplate(f: Filters, t: Template) {
    if f.headshot == "with" && !t.hasHeadshot then false
    else if f.headshot == "without" && t.hasHeadshot then false
    else if f.graphics == "with" && !t.hasGraphics then false
    else if f.graphics == "without" && t.hasGraphics then false
    else if f.columns == "1" && t.columns != 1 then false
    else if f.columns == "2" && t.columns != 2 then false
    else true
  }

  function Keeps(f: Filters): Template -> bool {
    t => KeepTemplate(f, t)
  }

  /** `filteredTemplates` for the gallery `templates`. */
  function FilteredTemplates(templates: seq<Template>, f: Filters): (r: seq<Template>)
    ensures |r| <= |templates|
  {
    Filter(templates, Keeps(f))
  }

  /** The shown templates are, in order, exactly those matching every filter. */
  lemma FilteredTemplatesCorrect(templates: seq<Template>, f: Filters)
    ensures IsSubseq(FilteredTemplates(templates, f), templates)
    ensures forall i :: 0 <= i < |FilteredTemplates(templates, f)| ==>
              var t := FilteredTemplates(templates, f)[i];
              && (f.headshot == "with" ==> t.hasHeadshot)
              && (f.headshot == "without" ==> !t.hasHeadshot)
              && (f.graphics == "with" ==> t.hasGraphics)
              && (f.graphics == "without" ==> !t.hasGraphics)
              && (f.columns == "1" ==> t.columns == 1)
              && (f.columns == "2" ==> t.columns == 2)
    ensures forall i :: 0 <= i < |templates| ==> (templates[i] in FilteredTemplates(templates, f) <==> KeepTemplate(f, templates[i]))
    ensures forall i :: 0 <= i < |templates| ==>
              var t := templates[i];
              (f.headshot == "with" ==> t.hasHeadshot)
              && (f.headshot == "without" ==> !t.hasHeadshot)
              && (f.graphics == "with" ==> t.hasGraphics)
              && (f.graphics == "without" ==> !t.hasGraphics)
              && (f.columns == "1" ==> t.columns == 1)
              && (f.columns == "2" ==> t.columns == 2)
              ==> t in FilteredTemplates(templates, f)
  {
    FilterMembers(templates, Keeps(f));
    forall i | 0 <= i < |FilteredTemplates(templates, f)|
      ensures KeepTemplate(f, FilteredTemplates(templates, f)[i])
    {
      assert Keeps(f)(FilteredTemplates(templates, f)[i]);
    }
  }

  /** With every dropdown on 'all', the whole gallery is shown. */
  lemma NoFiltersKeepAll(templates: seq<Template>)
    ensures FilteredTemplates(templates, NoFilters) == templates
  {
    FilterKeepsAll(templates, Keeps(NoFilters));
  }

  /** In the gallery, the two-column filter shows the four two-column layouts. */
  lemma TwoColumnTemplates()
    ensures FilteredTemplates(AllTemplates, Filters("all", "all", "2"))
            == [AllTemplates[7], AllTemplates[8], AllTemplates[10], AllTemplates[11]]
    ensures AllTemplates[7].id == "healthcare" && AllTemplates[8].id == "designer"
    ensures AllTemplates[10].id == "sidebar-left" && AllTemplates[11].id == "sidebar-right"
  {
    var s := AllTemplates;
    var keep := Keeps(Filters("all", "all", "2"));
    assert Filter(s[12..], keep) == [];
    assert s[11..][1..] == s[12..];
    assert Filter(s[11..], keep) == [s[11]];
    assert s[10..][1..] == s[11..];
    assert Filter(s[10..], keep) == [s[10], s[11]];
    assert s[9..][1..] == s[10..];
    assert Filter(s[9..], keep) == [s[10], s[11]];
    assert s[8..][1..] == s[9..];
    assert Filter(s[8..], keep) == [s[8], s[10], s[11]];
    assert s[7..][1..] == s[8..];
    assert Filter(s[7..], keep) == [s[7], s[8], s[10], s[11]];
    assert s[6..][1..] == s[7..];
    assert Filter(s[6..], keep) == [s[7], s[8], s[10], s[11]];
    assert s[5..][1..] == s[6..];
    assert Filter(s[5..], keep) == [s[7], s[8], s[10], s[11]];
    assert s[4..][1..] == s[5..];
    assert Filter(s[4..], keep) == [s[7], s[8], s[10], s[11]];
    assert s[3..][1..] == s[4..];
    assert Filter(s[3..], keep) == [s[7], s[8], s[10], s[11]];
    assert s[2..][1..] == s[3..];
    assert Filter(s[2..], keep) == [s[7], s[8], s[10], s[11]];
    assert s[1..][1..] == s[2..];
    assert Filter(s[1..], keep) == [s[7], s[8], s[10], s[11]];
    assert s[0..][1..] == s[1..];
    assert Filter(s[0..], keep) == [s[7], s[8], s[10], s[11]];
    assert s[0..] == s;
  }
}
