/**
 * The portfolio document: the records every other module works on.
 *
 * The stored document is one JSON object. Its portfolio records and the
 * legacy top-level sections are modelled as datatypes; every section that a
 * record may lack in the stored JSON (an `education` list, `hero_buttons`,
 * `contact`) is present here and empty when the JSON would omit it.
 */
module Records {

  datatype Option<T> = None | Some(value: T)

  function GetOr<T>(o: Option<T>, default: T): T
  {
    match o
    case Some(v) => v
    case None => default
  }

  // ---------------------------------------------------------------- skills

  datatype Skill = Skill(name: string, description: string)

  /** The two keys of a `skills` object. */
  datatype SkillKind = Technical | Soft

  datatype Skills = Skills(technical: seq<Skill>, soft: seq<Skill>)
  {
    /** The list stored under `kind`. */
    function Of(kind: SkillKind): seq<Skill>
    {
      match kind
      case Technical => technical
      case Soft => soft
    }

    /** The same skills with the list under `kind` replaced by `list`. */
    function With(kind: SkillKind, list: seq<Skill>): (r: Skills)
      ensures r.Of(kind) == list
      ensures forall other :: other != kind ==> r.Of(other) == Of(other)
    {
      match kind
      case Technical => this.(technical := list)
      case Soft => this.(soft := list)
    }
  }

  // -------------------------------------------------------------- projects

  datatype Project = Project(title: string, description: string, technologies: seq<string>, link: string)

  // ------------------------------------------------------------ experience

  /** An entry of one of the three experience collections; each category has its own fields. */
  datatype ExperienceItem =
    | Internship(title: string, description: string, company: string, duration: string)
    | Thesis(title: string, description: string, university: string, year: string)
    | Certification(title: string, description: string, issuer: string, year: string, link: string)

  /** The stored collections `internships`, `thesis` and `certifications`. */
  datatype Collection = Internships | Theses | Certifications

  datatype Education = Education(
    degree: string, university: string, year: string, description: string,
    gpa: string, honors: string, certificateLink: string)

  datatype Experience = Experience(
    internships: seq<ExperienceItem>,
    thesis: seq<ExperienceItem>,
    certifications: seq<ExperienceItem>,
    education: seq<Education>)
  {
    function Of(c: Collection): seq<ExperienceItem>
    {
      match c
      case Internships => internships
      case Theses => thesis
      case Certifications => certifications
    }

    function With(c: Collection, items: seq<ExperienceItem>): (r: Experience)
      ensures r.Of(c) == items && r.education == education
      ensures forall other :: other != c ==> r.Of(other) == Of(other)
    {
      match c
      case Internships => this.(internships := items)
      case Theses => this.(thesis := items)
      case Certifications => this.(certifications := items)
    }
  }

  // ----------------------------------------------------------------- about

  datatype HeroButton = HeroButton(text: string, link: string, icon: string, isVisible: bool)

  datatype Highlight = Highlight(emoji: string, title: string, description: string)

  datatype About = About(
    heroTitle: string, heroSubtitle: string, heroDescription: string, aboutText: string,
    highlight1: Highlight, highlight2: Highlight, highlight3: Highlight,
    heroButtons: seq<HeroButton>)

  datatype Picture = Picture(filename: string, filepath: string)

  datatype Contact = Contact(email: string, phone: string, linkedin: string, github: string)

  /**
   * The sections an admin edits: held by every portfolio record and, as the
   * legacy fallback, at the top level of the document.
   */
  datatype Content = Content(
    about: About,
    picture: Picture,
    skills: Skills,
    projects: seq<Project>,
    experience: Experience,
    contact: Contact)

  // ------------------------------------------------------------- portfolio

  datatype Portfolio = Portfolio(
    id: string,
    name: string,
    description: string,
    isActive: bool,
    createdAt: string,
    updatedAt: string,
    content: Content,
    siteTitle: string)

  /** Site-wide settings, stored once at the top level of the document. */
  datatype SiteSettings = SiteSettings(
    siteTitle: string,
    defaultPortfolio: Option<string>,
    allowPublicAccess: bool,
    maintenanceMode: bool,
    defaultTheme: string,
    sectionAlignment: string)

  datatype Credentials = Credentials(username: string, passwordHash: string)

  // ----------------------------------------------------------------- lists

  /** The list without its element at `k`. */
  function DeleteAt<T>(s: seq<T>, k: nat): (r: seq<T>)
    requires k < |s|
    ensures |r| == |s| - 1
    ensures forall j :: 0 <= j < k ==> r[j] == s[j]
    ensures forall j :: k <= j < |r| ==> r[j] == s[j + 1]
    ensures multiset(r) + multiset{s[k]} == multiset(s)
  {
    assert s == s[..k] + [s[k]] + s[k + 1..];
    s[..k] + s[k + 1..]
  }

  // -------------------------------------------------------------- outcomes

  /** Why an admin action was turned down with a message and nothing written. */
  datatype Reason =
    | NameRequired | NameInUse | MissingFields | NotFound
    | OnlyPortfolio | TargetActive
    | WrongPassword | PasswordMismatch | PasswordTooShort | UsernameEmpty

  /** The exception an unchecked lookup raises (the request then fails with no write). */
  datatype Fault = KeyError | IndexError

  /** What an admin action did: wrote the document, refused, did nothing, or raised. */
  datatype Outcome = Done | Refused(reason: Reason) | Ignored | Crashed(fault: Fault)

  // -------------------------------------------------------------- defaults

  /** The fixed date that creation, duplication and update write as timestamps. */
  const Stamp: string := "2024-01-01"

  /** The record `create_portfolio` builds around a fresh id. */
  function NewPortfolio(id: string, name: string, description: string): (p: Portfolio)
    ensures p.id == id && p.name == name && p.description == description
    ensures !p.isActive
    ensures p.createdAt == Stamp && p.updatedAt == Stamp
    ensures p.content.skills == Skills([], [])
    ensures p.content.projects == []
    ensures p.content.experience == Experience([], [], [], [])
    ensures p.content.about.heroButtons == []
    ensures p.content.contact == Contact("", "", "", "")
  {
    Portfolio(
      id, name, description, false, Stamp, Stamp,
      Content(
        About(
          "New Portfolio", "Portfolio Subtitle", "Portfolio description",
          "About text for this portfolio",
          Highlight("\U{1F31F}", "Highlight 1", "Description for highlight 1"),
          Highlight("\U{1F4A1}", "Highlight 2", "Description for highlight 2"),
          Highlight("\U{1F680}", "Highlight 3", "Description for highlight 3"),
          []),
        Picture("", ""),
        Skills([], []),
        [],
        Experience([], [], [], []),
        Contact("", "", "", "")),
      "My Awesome Portfolio")
  }

  /** The deep copy `duplicate_portfolio` appends: a new id and name, inactive, fresh timestamps. */
  function CopyOf(p: Portfolio, id: string, name: string): (q: Portfolio)
    ensures q.id == id && q.name == name && !q.isActive
    ensures q.createdAt == Stamp && q.updatedAt == Stamp
    ensures q.description == p.description && q.content == p.content && q.siteTitle == p.siteTitle
  {
    p.(id := id, name := name, isActive := false, createdAt := Stamp, updatedAt := Stamp)
  }
}
