/**
 * The list and record edits of the admin sections, applied to the content
 * they target (the active portfolio's sections, or the legacy top-level ones).
 *
 * Skills, projects, experience and education are edited by append, by
 * assignment at a submitted index and by deletion at a submitted index; these
 * indices are used unchecked, with the host language's list semantics: a
 * negative index counts from the end and an index outside the list raises.
 * Hero buttons are the exception: their edit and delete check the index and
 * do nothing when it is outside the list.
 */
module Sections {
  import opened Records
  import opened Text
  import opened Validators
  import opened Reorder

  /** What an edit did to the value it was applied to. */
  datatype Change<T> = Changed(value: T) | Unchanged | Faulted(fault: Fault)

  // ------------------------------------------------------ list primitives

  /** The position `s[i]` denotes in a list of length `n`, if `i` is a valid index there. */
  function PyIndex(i: int, n: nat): (r: Option<nat>)
    ensures r.Some? <==> -(n as int) <= i < n
    ensures r.Some? ==> r.value < n && r.value == i % n
  {
    if 0 <= i < n then Some(i)
    else if -(n as int) <= i < 0 then
      assert i == (i + n) - n;
      Some(i + n)
    else None
  }

  /** `del s[i]`. */
  function PyDelete<T>(s: seq<T>, i: int): (r: Change<seq<T>>)
    ensures !r.Unchanged?
    ensures r.Faulted? <==> !(-|s| <= i < |s|)
    ensures r.Faulted? ==> r.fault == IndexError
    ensures r.Changed? ==> 0 < |s| && r.value == DeleteAt(s, i % |s|)
  {
    match PyIndex(i, |s|)
    case None => Faulted(IndexError)
    case Some(k) => Changed(DeleteAt(s, k))
  }

  /** `s[i] = x`. */
  function PyAssign<T>(s: seq<T>, i: int, x: T): (r: Change<seq<T>>)
    ensures !r.Unchanged?
    ensures r.Faulted? <==> !(-|s| <= i < |s|)
    ensures r.Faulted? ==> r.fault == IndexError
    ensures r.Changed? ==> |r.value| == |s| && r.value[i % |s|] == x
    ensures r.Changed? ==> forall j :: 0 <= j < |s| && j != i % |s| ==> r.value[j] == s[j]
  {
    match PyIndex(i, |s|)
    case None => Faulted(IndexError)
    case Some(k) => Changed(s[k := x])
  }

  // ---------------------------------------------------------------- routing

  /** The key under which a `skills` object stores each kind. */
  function ParseSkillKind(key: string): (r: Option<SkillKind>)
    ensures r.Some? ==> KindName(r.value) == key
    ensures r.None? ==> forall k :: KindName(k) != key
  {
    if key == "technical" then Some(Technical)
    else if key == "soft" then Some(Soft)
    else None
  }

  /** The stored collection of each experience category the forms submit. */
  const ExperienceCategoryMap: map<string, Collection> :=
    map["internship" := Internships, "thesis" := Theses, "certification" := Certifications]

  /** The three categories the forms submit, each naming its own collection. */
  lemma ExperienceCategories()
    ensures ExperienceCategoryMap.Keys == {"internship", "thesis", "certification"}
    ensures ExperienceCategoryMap["internship"] == Internships
    ensures ExperienceCategoryMap["thesis"] == Theses
    ensures ExperienceCategoryMap["certification"] == Certifications
  {
  }

  /** Whether an item has the fields of the collection it sits in. */
  predicate Fits(c: Collection, x: ExperienceItem)
  {
    match c
    case Internships => x.Internship?
    case Theses => x.Thesis?
    case Certifications => x.Certification?
  }

  /** Every stored experience item has the fields of its collection. */
  predicate Routed(x: Experience)
  {
    forall c: Collection, i :: 0 <= i < |x.Of(c)| ==> Fits(c, x.Of(c)[i])
  }

  /** The fields an experience form submits; which of them are kept depends on the category. */
  datatype ExperienceForm = ExperienceForm(
    title: string, description: string,
    company: string, duration: string,
    university: string, year: string,
    issuer: string, link: string)

  /** The item the add and edit forms build for `category`. */
  function ItemFor(category: string, f: ExperienceForm): (x: ExperienceItem)
    requires category in ExperienceCategoryMap
    ensures Fits(ExperienceCategoryMap[category], x)
    ensures x.title == f.title && x.description == f.description
    ensures x.Internship? ==> x.company == f.company && x.duration == f.duration
    ensures x.Thesis? ==> x.university == f.university && x.year == f.year
    ensures x.Certification? ==> x.issuer == f.issuer && x.year == f.year && x.link == f.link
  {
    if category == "internship" then Internship(f.title, f.description, f.company, f.duration)
    else if category == "thesis" then Thesis(f.title, f.description, f.university, f.year)
    else Certification(f.title, f.description, f.issuer, f.year, f.link)
  }

  // ------------------------------------------------------------------ edits

  /** One submitted admin edit of a portfolio's sections, with its form fields. */
  datatype Edit =
    | AddSkill(kind: string, skill: Skill)
    | EditSkill(urlKind: string, index: int, kind: string, skill: Skill)
    | DeleteSkill(kind: string, index: int)
    | MoveSkills(order: seq<string>)
    | AddProject(title: string, description: string, technologies: string, link: string)
    | EditProject(index: int, title: string, description: string, technologies: string, link: string)
    | DeleteProject(index: int)
    | MoveProjects(order: seq<string>)
    | AddExperience(category: string, form: ExperienceForm)
    | EditExperience(category: string, index: int, form: ExperienceForm)
    | DeleteExperience(category: string, index: int)
    | AddEducation(education: Education)
    | EditEducation(index: int, education: Education)
    | DeleteEducation(index: int)
    | UpdateContact(contact: Contact)
    | UpdateAbout(heroTitle: string, heroSubtitle: string, heroDescription: string, aboutText: string,
                  highlight1: Highlight, highlight2: Highlight, highlight3: Highlight)
    | SetPicture(filename: string)
    | AddHeroButton(text: string, link: string, icon: string)
    | EditHeroButton(index: int, text: string, link: string, icon: string, visible: string)
    | DeleteHeroButton(index: int)

  datatype Section = AboutSection | PictureSection | SkillsSection | ProjectsSection | ExperienceSection | ContactSection

  /** The one section an edit may change. */
  function SectionOf(e: Edit): (r: Section)
    ensures r == PictureSection <==> e.SetPicture?
    ensures r == ContactSection <==> e.UpdateContact?
  {
    match e
    case AddSkill(_, _) => SkillsSection
    case EditSkill(_, _, _, _) => SkillsSection
    case DeleteSkill(_, _) => SkillsSection
    case MoveSkills(_) => SkillsSection
    case AddProject(_, _, _, _) => ProjectsSection
    case EditProject(_, _, _, _, _) => ProjectsSection
    case DeleteProject(_) => ProjectsSection
    case MoveProjects(_) => ProjectsSection
    case AddExperience(_, _) => ExperienceSection
    case EditExperience(_, _, _) => ExperienceSection
    case DeleteExperience(_, _) => ExperienceSection
    case AddEducation(_) => ExperienceSection
    case EditEducation(_, _) => ExperienceSection
    case DeleteEducation(_) => ExperienceSection
    case UpdateContact(_) => ContactSection
    case UpdateAbout(_, _, _, _, _, _, _) => AboutSection
    case SetPicture(_) => PictureSection
    case AddHeroButton(_, _, _) => AboutSection
    case EditHeroButton(_, _, _, _, _) => AboutSection
    case DeleteHeroButton(_) => AboutSection
  }

  /** `d` equals `c` in every section except `s`. */
  predicate SameOutside(c: Content, d: Content, s: Section)
  {
    && (s != AboutSection ==> d.about == c.about)
    && (s != PictureSection ==> d.picture == c.picture)
    && (s != SkillsSection ==> d.skills == c.skills)
    && (s != ProjectsSection ==> d.projects == c.projects)
    && (s != ExperienceSection ==> d.experience == c.experience)
    && (s != ContactSection ==> d.contact == c.contact)
  }

  /** The project a project form describes. */
  function ProjectOf(title: string, description: string, technologies: string, link: string): (p: Project)
    ensures p.title == title && p.description == description && p.link == link
    ensures p.technologies == ParseTechnologies(technologies)
    ensures forall i :: 0 <= i < |p.technologies| ==> CleanTerm(p.technologies[i])
  {
    Project(title, description, ParseTechnologies(technologies), link)
  }

  /**
   * The skill edits. An unknown type key raises KeyError; a bad index raises
   * IndexError; otherwise exactly one list changes. An edit checks its index
   * against the list named in the URL, then assigns in the list named by the
   * form.
   */
  function SkillsEdit(s: Skills, e: Edit): (r: Change<Skills>)
    requires SectionOf(e) == SkillsSection
    ensures !r.Unchanged?
    ensures r.Changed? && !e.MoveSkills? ==>
      && ParseSkillKind(e.kind).Some?
      && forall o :: o != ParseSkillKind(e.kind).value ==> r.value.Of(o) == s.Of(o)
    ensures e.AddSkill? ==> (r.Changed? <==> ParseSkillKind(e.kind).Some?)
    ensures e.AddSkill? && r.Changed? ==> r.value.Of(ParseSkillKind(e.kind).value) == s.Of(ParseSkillKind(e.kind).value) + [e.skill]
    ensures (e.AddSkill? || e.DeleteSkill?) && ParseSkillKind(e.kind).None? ==> r == Faulted(KeyError)
    ensures e.EditSkill? && ParseSkillKind(e.urlKind).None? ==> r == Faulted(KeyError)
    ensures e.EditSkill? ==>
      (r.Changed? <==> && ParseSkillKind(e.urlKind).Some? && PyIndex(e.index, |s.Of(ParseSkillKind(e.urlKind).value)|).Some?
                       && ParseSkillKind(e.kind).Some? && PyIndex(e.index, |s.Of(ParseSkillKind(e.kind).value)|).Some?)
    ensures e.EditSkill? && r.Changed? ==>
      var k := ParseSkillKind(e.kind).value;
      PyAssign(s.Of(k), e.index, e.skill) == Changed(r.value.Of(k))
    ensures e.DeleteSkill? ==> (r.Changed? <==> ParseSkillKind(e.kind).Some? && PyIndex(e.index, |s.Of(ParseSkillKind(e.kind).value)|).Some?)
    ensures e.DeleteSkill? && r.Changed? ==>
      var k := ParseSkillKind(e.kind).value;
      PyDelete(s.Of(k), e.index) == Changed(r.value.Of(k))
    ensures e.MoveSkills? ==> r == Changed(ReorderSkills(s, e.order))
  {
    match e
    case AddSkill(key, skill) =>
      (match ParseSkillKind(key)
       case None => Faulted(KeyError)
       case Some(k) => Changed(s.With(k, s.Of(k) + [skill])))
    case EditSkill(urlKey, i, key, skill) =>
      (match ParseSkillKind(urlKey)
       case None => Faulted(KeyError)
       case Some(uk) =>
         if PyIndex(i, |s.Of(uk)|).None? then Faulted(IndexError)
         else match ParseSkillKind(key)
           case None => Faulted(KeyError)
           case Some(k) =>
             match PyAssign(s.Of(k), i, skill)
             case Changed(xs) => Changed(s.With(k, xs))
             case Unchanged => Unchanged
             case Faulted(f) => Faulted(f))
    case DeleteSkill(key, i) =>
      (match ParseSkillKind(key)
       case None => Faulted(KeyError)
       case Some(k) =>
         match PyDelete(s.Of(k), i)
         case Changed(xs) => Changed(s.With(k, xs))
         case Unchanged => Unchanged
         case Faulted(f) => Faulted(f))
    case MoveSkills(order) => Changed(ReorderSkills(s, order))
  }

  /**
   * The project edits: an add appends the project the form describes, an
   * edit assigns it at the submitted index, a delete removes the project at
   * the submitted index, and a move rebuilds the list from the submitted ids.
   */
  function ProjectsEdit(ps: seq<Project>, e: Edit): (r: Change<seq<Project>>)
    requires SectionOf(e) == ProjectsSection
    ensures !r.Unchanged?
    ensures e.AddProject? ==>
      && r.Changed? && |r.value| == |ps| + 1 && r.value[..|ps|] == ps
      && r.value[|ps|] == ProjectOf(e.title, e.description, e.technologies, e.link)
    ensures r.Faulted? ==> r.fault == IndexError
    ensures e.EditProject? || e.DeleteProject? ==> (r.Changed? <==> -|ps| <= e.index < |ps|)
    ensures e.EditProject? && r.Changed? ==>
      forall k: nat :: Names(e.index, k, |ps|) ==>
        r.value == ps[k := ProjectOf(e.title, e.description, e.technologies, e.link)]
    ensures e.DeleteProject? && r.Changed? ==>
      forall k: nat :: Names(e.index, k, |ps|) ==> r.value == DeleteAt(ps, k)
    ensures e.MoveProjects? ==> r == Changed(ReorderProjects(ps, e.order))
  {
    match e
    case AddProject(title, description, technologies, link) =>
      Changed(ps + [ProjectOf(title, description, technologies, link)])
    case EditProject(i, title, description, technologies, link) =>
      assert forall k: nat :: Names(i, k, |ps|) ==> PyIndex(i, |ps|) == Some(k);
      PyAssign(ps, i, ProjectOf(title, description, technologies, link))
    case DeleteProject(i) =>
      assert forall k: nat :: Names(i, k, |ps|) ==> PyIndex(i, |ps|) == Some(k);
      PyDelete(ps, i)
    case MoveProjects(order) => Changed(ReorderProjects(ps, order))
  }

  /**
   * The experience and education edits. An unknown category raises KeyError
   * and a bad index IndexError; otherwise exactly one list changes: the
   * collection the category names, or the education list.
   */
  function ExperienceEdit(x: Experience, e: Edit): (r: Change<Experience>)
    requires SectionOf(e) == ExperienceSection
    ensures !r.Unchanged?
    ensures Routed(x) && r.Changed? ==> Routed(r.value)
    ensures IsItemEdit(e) && e.category !in ExperienceCategoryMap ==> r == Faulted(KeyError)
    ensures IsItemEdit(e) && r.Changed? ==>
      var c := ExperienceCategoryMap[e.category];
      e.category in ExperienceCategoryMap && r.value == x.With(c, r.value.Of(c))
    ensures e.AddExperience? && e.category in ExperienceCategoryMap ==>
      var c := ExperienceCategoryMap[e.category];
      r.Changed? && r.value.Of(c) == x.Of(c) + [ItemFor(e.category, e.form)]
    ensures e.EditExperience? && e.category in ExperienceCategoryMap ==>
      var c := ExperienceCategoryMap[e.category];
      (r.Changed? <==> PyIndex(e.index, |x.Of(c)|).Some?)
      && (r.Changed? ==> PyAssign(x.Of(c), e.index, ItemFor(e.category, e.form)) == Changed(r.value.Of(c)))
    ensures e.DeleteExperience? && e.category in ExperienceCategoryMap ==>
      var c := ExperienceCategoryMap[e.category];
      (r.Changed? <==> PyIndex(e.index, |x.Of(c)|).Some?)
      && (r.Changed? ==> PyDelete(x.Of(c), e.index) == Changed(r.value.Of(c)))
    ensures IsEducationEdit(e) && r.Changed? ==> r.value == x.(education := r.value.education)
    ensures e.AddEducation? ==> r == Changed(x.(education := x.education + [e.education]))
    ensures e.EditEducation? ==> (r.Changed? <==> PyIndex(e.index, |x.education|).Some?)
    ensures e.EditEducation? && r.Changed? ==> PyAssign(x.education, e.index, e.education) == Changed(r.value.education)
    ensures e.DeleteEducation? ==> (r.Changed? <==> PyIndex(e.index, |x.education|).Some?)
    ensures e.DeleteEducation? && r.Changed? ==> PyDelete(x.education, e.index) == Changed(r.value.education)
  {
    match e
    case AddExperience(category, form) =>
      if category !in ExperienceCategoryMap then Faulted(KeyError)
      else
        var c := ExperienceCategoryMap[category];
        RoutedWith(x, c, x.Of(c) + [ItemFor(category, form)]);
        Changed(x.With(c, x.Of(c) + [ItemFor(category, form)]))
    case EditExperience(category, i, form) =>
      if category !in ExperienceCategoryMap then Faulted(KeyError)
      else
        var c := ExperienceCategoryMap[category];
        (match PyAssign(x.Of(c), i, ItemFor(category, form))
         case Changed(xs) =>
           RoutedWith(x, c, xs);
           Changed(x.With(c, xs))
         case Unchanged => Unchanged
         case Faulted(f) => Faulted(f))
    case DeleteExperience(category, i) =>
      if category !in ExperienceCategoryMap then Faulted(KeyError)
      else
        var c := ExperienceCategoryMap[category];
        (match PyDelete(x.Of(c), i)
         case Changed(xs) =>
           RoutedWith(x, c, xs);
           Changed(x.With(c, xs))
         case Unchanged => Unchanged
         case Faulted(f) => Faulted(f))
    case AddEducation(ed) =>
      RoutedEducation(x, x.education + [ed]);
      Changed(x.(education := x.education + [ed]))
    case EditEducation(i, ed) =>
      (match PyAssign(x.education, i, ed)
       case Changed(eds) =>
         RoutedEducation(x, eds);
         Changed(x.(education := eds))
       case Unchanged => Unchanged
       case Faulted(f) => Faulted(f))
    case DeleteEducation(i) =>
      (match PyDelete(x.education, i)
       case Changed(eds) =>
         RoutedEducation(x, eds);
         Changed(x.(education := eds))
       case Unchanged => Unchanged
       case Faulted(f) => Faulted(f))
  }

  predicate IsItemEdit(e: Edit)
  {
    e.AddExperience? || e.EditExperience? || e.DeleteExperience?
  }

  predicate IsEducationEdit(e: Edit)
  {
    e.AddEducation? || e.EditEducation? || e.DeleteEducation?
  }

  /** Replacing one collection by a list whose items all fit it keeps every item routed. */
  lemma RoutedWith(x: Experience, c: Collection, xs: seq<ExperienceItem>)
    ensures Routed(x) && (forall i :: 0 <= i < |xs| ==> Fits(c, xs[i])) ==> Routed(x.With(c, xs))
  {
  }

  /** The education list plays no part in routing. */
  lemma RoutedEducation(x: Experience, eds: seq<Education>)
    ensures Routed(x.(education := eds)) == Routed(x)
  {
    assert forall c :: x.(education := eds).Of(c) == x.Of(c);
  }

  /** The hero-button and text edits of the about section. */
  function AboutEdit(a: About, e: Edit): (r: Change<About>)
    requires SectionOf(e) == AboutSection
    ensures !r.Faulted?
    ensures r.Unchanged? <==> (e.EditHeroButton? || e.DeleteHeroButton?) && !(0 <= e.index < |a.heroButtons|)
    ensures r.Changed? && !e.UpdateAbout? ==> r.value == a.(heroButtons := r.value.heroButtons)
    ensures r.Changed? && e.UpdateAbout? ==> r.value.heroButtons == a.heroButtons
    ensures e.UpdateAbout? ==>
      r == Changed(a.(heroTitle := e.heroTitle, heroSubtitle := e.heroSubtitle, heroDescription := e.heroDescription,
                      aboutText := e.aboutText, highlight1 := e.highlight1, highlight2 := e.highlight2,
                      highlight3 := e.highlight3))
    ensures e.AddHeroButton? ==>
      r.Changed? && r.value.heroButtons == a.heroButtons + [HeroButton(e.text, e.link, e.icon, true)]
    ensures e.EditHeroButton? && r.Changed? ==>
      && |r.value.heroButtons| == |a.heroButtons|
      && r.value.heroButtons[e.index] == HeroButton(e.text, e.link, e.icon, e.visible == "true")
      && forall j :: 0 <= j < |a.heroButtons| && j != e.index ==> r.value.heroButtons[j] == a.heroButtons[j]
    ensures e.DeleteHeroButton? && r.Changed? ==> r.value.heroButtons == DeleteAt(a.heroButtons, e.index)
  {
    match e
    case UpdateAbout(t, st, d, txt, h1, h2, h3) =>
      Changed(a.(heroTitle := t, heroSubtitle := st, heroDescription := d, aboutText := txt,
                 highlight1 := h1, highlight2 := h2, highlight3 := h3))
    case AddHeroButton(text, link, icon) =>
      Changed(a.(heroButtons := a.heroButtons + [HeroButton(text, link, icon, true)]))
    case EditHeroButton(i, text, link, icon, visible) =>
      if 0 <= i < |a.heroButtons| then
        Changed(a.(heroButtons := a.heroButtons[i := HeroButton(text, link, icon, visible == "true")]))
      else Unchanged
    case DeleteHeroButton(i) =>
      if 0 <= i < |a.heroButtons| then Changed(a.(heroButtons := DeleteAt(a.heroButtons, i)))
      else Unchanged
  }

  /** An admin edit applied to the content it targets. */
  function ApplyEdit(c: Content, e: Edit): (r: Change<Content>)
    ensures r.Changed? ==> SameOutside(c, r.value, SectionOf(e))
    ensures r.Unchanged? ==> e.SetPicture? || e.EditHeroButton? || e.DeleteHeroButton?
    ensures r.Faulted? ==> SectionOf(e) in {SkillsSection, ProjectsSection, ExperienceSection}
    ensures Routed(c.experience) && r.Changed? ==> Routed(r.value.experience)
    ensures e.UpdateContact? ==> r == Changed(c.(contact := e.contact))
    ensures e.SetPicture? ==> (r.Changed? <==> AllowedFile(e.filename))
    ensures e.SetPicture? && r.Changed? ==> r.value.picture == Picture(e.filename, "/static/images/" + e.filename)
  {
    match SectionOf(e)
    case SkillsSection =>
      (match SkillsEdit(c.skills, e)
       case Changed(s) => Changed(c.(skills := s))
       case Unchanged => Unchanged
       case Faulted(f) => Faulted(f))
    case ProjectsSection =>
      (match ProjectsEdit(c.projects, e)
       case Changed(ps) => Changed(c.(projects := ps))
       case Unchanged => Unchanged
       case Faulted(f) => Faulted(f))
    case ExperienceSection =>
      (match ExperienceEdit(c.experience, e)
       case Changed(x) => Changed(c.(experience := x))
       case Unchanged => Unchanged
       case Faulted(f) => Faulted(f))
    case AboutSection =>
      (match AboutEdit(c.about, e)
       case Changed(a) => Changed(c.(about := a))
       case Unchanged => Unchanged
       case Faulted(f) => Faulted(f))
    case ContactSection => Changed(c.(contact := e.contact))
    case PictureSection =>
      if AllowedFile(e.filename) then
        Changed(c.(picture := Picture(e.filename, "/static/images/" + e.filename)))
      else Unchanged
  }

  // ----------------------------------------------------------------- lemmas

  predicate IsAdd(e: Edit)
  {
    e.AddSkill? || e.AddProject? || e.AddExperience? || e.AddEducation? || e.AddHeroButton?
  }

  /** The delete of the item an add appends: index -1 where indices are unchecked, the length for hero buttons. */
  function UndoOf(c: Content, e: Edit): Edit
    requires IsAdd(e)
  {
    match e
    case AddSkill(key, _) => DeleteSkill(key, -1)
    case AddProject(_, _, _, _) => DeleteProject(-1)
    case AddExperience(category, _) => DeleteExperience(category, -1)
    case AddEducation(_) => DeleteEducation(-1)
    case AddHeroButton(_, _, _) => DeleteHeroButton(|c.about.heroButtons|)
  }

  lemma DropAppended<T>(s: seq<T>, x: T)
    ensures DeleteAt(s + [x], |s|) == s
    ensures PyDelete(s + [x], -1) == Changed(s)
  {
    assert (s + [x])[..|s|] == s;
  }

  lemma SkillsAddThenUndo(s: Skills, key: string, skill: Skill)
    requires SkillsEdit(s, AddSkill(key, skill)).Changed?
    ensures SkillsEdit(SkillsEdit(s, AddSkill(key, skill)).value, DeleteSkill(key, -1)) == Changed(s)
  {
    var k := ParseSkillKind(key).value;
    DropAppended(s.Of(k), skill);
    var t := s.With(k, s.Of(k) + [skill]);
    assert t.With(k, s.Of(k)) == s;
  }

  lemma ExperienceAddThenUndo(x: Experience, category: string, form: ExperienceForm)
    requires ExperienceEdit(x, AddExperience(category, form)).Changed?
    ensures ExperienceEdit(ExperienceEdit(x, AddExperience(category, form)).value,
                           DeleteExperience(category, -1)) == Changed(x)
  {
    var col := ExperienceCategoryMap[category];
    DropAppended(x.Of(col), ItemFor(category, form));
    var y := x.With(col, x.Of(col) + [ItemFor(category, form)]);
    assert y.With(col, x.Of(col)) == x;
  }

  lemma UndoSkill(c: Content, key: string, skill: Skill)
    requires ApplyEdit(c, AddSkill(key, skill)).Changed?
    ensures ApplyEdit(ApplyEdit(c, AddSkill(key, skill)).value, DeleteSkill(key, -1)) == Changed(c)
  {
    SkillsAddThenUndo(c.skills, key, skill);
  }

  /** A project-list result becomes the content's result. */
  lemma ProjectsWrite(c: Content, e: Edit, ps: seq<Project>)
    requires SectionOf(e) == ProjectsSection && ProjectsEdit(c.projects, e) == Changed(ps)
    ensures ApplyEdit(c, e) == Changed(c.(projects := ps))
  {
  }

  /** An about-section result becomes the content's result. */
  lemma AboutWrite(c: Content, e: Edit, a: About)
    requires SectionOf(e) == AboutSection && AboutEdit(c.about, e) == Changed(a)
    ensures ApplyEdit(c, e) == Changed(c.(about := a))
  {
  }

  lemma UndoProject(c: Content, title: string, description: string, technologies: string, link: string)
    ensures ApplyEdit(c, AddProject(title, description, technologies, link)).Changed?
    ensures ApplyEdit(ApplyEdit(c, AddProject(title, description, technologies, link)).value,
                      DeleteProject(-1)) == Changed(c)
  {
    var add := AddProject(title, description, technologies, link);
    var grown := c.projects + [ProjectOf(title, description, technologies, link)];
    ProjectsWrite(c, add, grown);
    DropAppended(c.projects, ProjectOf(title, description, technologies, link));
    ProjectsWrite(c.(projects := grown), DeleteProject(-1), c.projects);
    assert c.(projects := grown).(projects := c.projects) == c;
  }

  lemma UndoExperience(c: Content, category: string, form: ExperienceForm)
    requires ApplyEdit(c, AddExperience(category, form)).Changed?
    ensures ApplyEdit(ApplyEdit(c, AddExperience(category, form)).value,
                      DeleteExperience(category, -1)) == Changed(c)
  {
    var x := c.experience;
    var add := AddExperience(category, form);
    ExperienceResult(c, add);
    var y := ExperienceEdit(x, add).value;
    ExperienceWrite(c, add, y);
    ExperienceAddThenUndo(x, category, form);
    ExperienceWrite(c.(experience := y), DeleteExperience(category, -1), x);
    assert c.(experience := y).(experience := x) == c;
  }

  /** An experience result becomes the content's result. */
  lemma ExperienceWrite(c: Content, e: Edit, x: Experience)
    requires SectionOf(e) == ExperienceSection && ExperienceEdit(c.experience, e) == Changed(x)
    ensures ApplyEdit(c, e) == Changed(c.(experience := x))
  {
  }

  /** An experience edit changes the content exactly when it changes the experience section. */
  lemma ExperienceResult(c: Content, e: Edit)
    requires SectionOf(e) == ExperienceSection
    ensures ApplyEdit(c, e).Changed? <==> ExperienceEdit(c.experience, e).Changed?
  {
  }

  lemma UndoEducation(c: Content, ed: Education)
    ensures ApplyEdit(c, AddEducation(ed)).Changed?
    ensures ApplyEdit(ApplyEdit(c, AddEducation(ed)).value, DeleteEducation(-1)) == Changed(c)
  {
    var x := c.experience;
    var y := x.(education := x.education + [ed]);
    ExperienceWrite(c, AddEducation(ed), y);
    EducationDropAppended(x, ed);
    ExperienceWrite(c.(experience := y), DeleteEducation(-1), x);
    assert c.(experience := y).(experience := x) == c;
  }

  /** Deleting education entry -1 removes the one just appended. */
  lemma EducationDropAppended(x: Experience, ed: Education)
    ensures ExperienceEdit(x.(education := x.education + [ed]), DeleteEducation(-1)) == Changed(x)
  {
    DropAppended(x.education, ed);
    assert x.(education := x.education + [ed]).(education := x.education) == x;
  }

  lemma UndoHeroButton(c: Content, text: string, link: string, icon: string)
    ensures ApplyEdit(c, AddHeroButton(text, link, icon)).Changed?
    ensures ApplyEdit(ApplyEdit(c, AddHeroButton(text, link, icon)).value,
                      DeleteHeroButton(|c.about.heroButtons|)) == Changed(c)
  {
    var a := c.about;
    var grown := a.(heroButtons := a.heroButtons + [HeroButton(text, link, icon, true)]);
    AboutWrite(c, AddHeroButton(text, link, icon), grown);
    HeroDropAppended(a, HeroButton(text, link, icon, true));
    AboutWrite(c.(about := grown), DeleteHeroButton(|a.heroButtons|), a);
    assert c.(about := grown).(about := a) == c;
  }

  /** Deleting the hero button at the old length removes the one just appended. */
  lemma HeroDropAppended(a: About, b: HeroButton)
    ensures AboutEdit(a.(heroButtons := a.heroButtons + [b]), DeleteHeroButton(|a.heroButtons|)) == Changed(a)
  {
    DropAppended(a.heroButtons, b);
  }

  /** An accepted add followed by the delete of the item it appended restores the content. */
  lemma AddThenUndo(c: Content, e: Edit)
    requires IsAdd(e) && ApplyEdit(c, e).Changed?
    ensures ApplyEdit(ApplyEdit(c, e).value, UndoOf(c, e)) == Changed(c)
  {
    match e
    case AddSkill(key, skill) => UndoSkill(c, key, skill);
    case AddProject(title, description, technologies, link) => UndoProject(c, title, description, technologies, link);
    case AddExperience(category, form) => UndoExperience(c, category, form);
    case AddEducation(ed) => UndoEducation(c, ed);
    case AddHeroButton(text, link, icon) => UndoHeroButton(c, text, link, icon);
  }

  /** The edit form of the hero button at `i`, submitted as the page fills it in. */
  function ShownButtonEdit(b: HeroButton, i: int): Edit
  {
    EditHeroButton(i, b.text, b.link, b.icon, if b.isVisible then "true" else "")
  }

  /** The edit form of the project at `i`, its technologies shown joined with commas. */
  function ShownProjectEdit(p: Project, i: int): Edit
  {
    EditProject(i, p.title, p.description, Join(p.technologies, ','), p.link)
  }

  /** Submitting an edit form unchanged writes back what was there. */
  lemma ResubmitButtonUnchanged(c: Content, i: int)
    requires 0 <= i < |c.about.heroButtons|
    ensures ApplyEdit(c, ShownButtonEdit(c.about.heroButtons[i], i)) == Changed(c)
  {
    var bs := c.about.heroButtons;
    assert bs[i := HeroButton(bs[i].text, bs[i].link, bs[i].icon, bs[i].isVisible)] == bs;
  }

  /** The index `i` names position `k` of a list of length `n`, counting from either end. */
  predicate Names(i: int, k: nat, n: nat)
  {
    k < n && (i == k || i == k - n)
  }

  /** Assigning a list's own element back, at either spelling of its index, changes nothing. */
  lemma AssignSame<T>(s: seq<T>, i: int, k: nat)
    requires Names(i, k, |s|)
    ensures PyAssign(s, i, s[k]) == Changed(s)
  {
    assert PyIndex(i, |s|) == Some(k);
    assert s[k := s[k]] == s;
  }

  lemma ResubmitProjectUnchanged(c: Content, i: int, k: nat)
    requires Names(i, k, |c.projects|)
    requires forall t :: 0 <= t < |c.projects[k].technologies| ==> CleanTerm(c.projects[k].technologies[t])
    ensures ApplyEdit(c, ShownProjectEdit(c.projects[k], i)) == Changed(c)
  {
    var e := ShownProjectEdit(c.projects[k], i);
    assert SectionOf(e) == ProjectsSection && ProjectsEdit(c.projects, e) == Changed(c.projects) by {
      ShownProjectWritesBack(c.projects, i, k);
    }
    ProjectsUnchanged(c, e);
  }

  /** A project edit that gives the list back as it was gives the content back as it was. */
  lemma ProjectsUnchanged(c: Content, e: Edit)
    requires SectionOf(e) == ProjectsSection && ProjectsEdit(c.projects, e) == Changed(c.projects)
    ensures ApplyEdit(c, e) == Changed(c)
  {
    ProjectsWrite(c, e, c.projects);
    assert c.(projects := c.projects) == c;
  }

  /** The list-level resubmission: the shown form of a clean project writes the list back as it was. */
  lemma ShownProjectWritesBack(ps: seq<Project>, i: int, k: nat)
    requires Names(i, k, |ps|)
    requires forall t :: 0 <= t < |ps[k].technologies| ==> CleanTerm(ps[k].technologies[t])
    ensures ProjectsEdit(ps, ShownProjectEdit(ps[k], i)) == Changed(ps)
  {
    var p := ps[k];
    ProjectFormRoundTrip(p);
    ProjectListResubmit(ps, i, k, p.title, p.description, Join(p.technologies, ','), p.link);
  }


  /** An edit form that describes the project at `k` again writes the list back as it was. */
  lemma ProjectListResubmit(ps: seq<Project>, i: int, k: nat, title: string, description: string,
                            technologies: string, link: string)
    requires Names(i, k, |ps|)
    requires ProjectOf(title, description, technologies, link) == ps[k]
    ensures ProjectsEdit(ps, EditProject(i, title, description, technologies, link)) == Changed(ps)
  {
    AssignSame(ps, i, k);
  }

  /** A project's form, filled in as shown, describes that project again. */
  lemma ProjectFormRoundTrip(p: Project)
    requires forall t :: 0 <= t < |p.technologies| ==> CleanTerm(p.technologies[t])
    ensures ProjectOf(p.title, p.description, Join(p.technologies, ','), p.link) == p
  {
    TechnologiesRoundTrip(p.technologies);
  }

  lemma ResubmitSkillUnchanged(c: Content, key: string, i: int)
    requires ParseSkillKind(key).Some?
    requires -|c.skills.Of(ParseSkillKind(key).value)| <= i < |c.skills.Of(ParseSkillKind(key).value)|
    ensures var xs := c.skills.Of(ParseSkillKind(key).value);
            ApplyEdit(c, EditSkill(key, i, key, xs[i % |xs|])) == Changed(c)
  {
    var k := ParseSkillKind(key).value;
    var xs := c.skills.Of(k);
    assert xs[i % |xs| := xs[i % |xs|]] == xs;
    assert c.skills.With(k, xs) == c.skills;
  }

  /**
   * The unchecked deletes read -1 as the last item and raise past either end;
   * the hero-button delete ignores -1 and every index outside the list.
   */
  lemma DeleteIndexPolicy(c: Content)
    ensures ApplyEdit(c, DeleteProject(-1)).Faulted? <==> c.projects == []
    ensures c.projects != [] ==> ApplyEdit(c, DeleteProject(-1)).value.projects == c.projects[..|c.projects| - 1]
    ensures ApplyEdit(c, DeleteProject(|c.projects|)) == Faulted(IndexError)
    ensures ApplyEdit(c, DeleteHeroButton(-1)) == Unchanged
    ensures ApplyEdit(c, DeleteHeroButton(|c.about.heroButtons|)) == Unchanged
  {
    ProjectDeleteLast(c.projects);
    ProjectDeletePastEnd(c.projects);
  }

  /** On the project list, -1 names the last project. */
  lemma ProjectDeleteLast(ps: seq<Project>)
    ensures ProjectsEdit(ps, DeleteProject(-1)).Faulted? <==> ps == []
    ensures ps != [] ==> ProjectsEdit(ps, DeleteProject(-1)).value == ps[..|ps| - 1]
  {
    if ps != [] {
      var n := |ps|;
      assert PyIndex(-1, n) == Some(n - 1);
    }
  }

  /** On the project list, the length is one past the end. */
  lemma ProjectDeletePastEnd(ps: seq<Project>)
    ensures ProjectsEdit(ps, DeleteProject(|ps|)) == Faulted(IndexError)
  {
  }
}
