/** The application aggregate: the five step slices and the current step.
    `step4` is the superset the photo/social-media wizard and the submission
    pipeline use: it adds `socialMedia` (absent until first edited) and `photo`. */
module Application {
  import opened Wrappers

  datatype OutcomeKey =
    | Playbook | TeamRestructure | OperationalDiscipline | HighPerformance
    | BarRaiser | Accountability | Conversion | Ai

  /** The outcome keys in the order the outcomes object declares them, which is
      the order `Object.entries` visits them. */
  const OutcomeKeys: seq<OutcomeKey> :=
    [Playbook, TeamRestructure, OperationalDiscipline, HighPerformance,
     BarRaiser, Accountability, Conversion, Ai]

  /** Position of an outcome key in the declared key order. */
  function KeyIndex(k: OutcomeKey): (i: nat)
    ensures i < |OutcomeKeys| && OutcomeKeys[i] == k
  {
    match k
    case Playbook => 0
    case TeamRestructure => 1
    case OperationalDiscipline => 2
    case HighPerformance => 3
    case BarRaiser => 4
    case Accountability => 5
    case Conversion => 6
    case Ai => 7
  }

  /** The key at position `i` of the declared order sits at position `i`. */
  lemma KeyIndexOfPosition(i: nat)
    requires i < |OutcomeKeys|
    ensures KeyIndex(OutcomeKeys[i]) == i
  {
  }

  datatype OutcomeResponse = OutcomeResponse(accepted: bool, comment: string)

  const BlankOutcome := OutcomeResponse(false, "")

  /** The eight outcome answers, one field per key. */
  datatype Outcomes = Outcomes(
    playbook: OutcomeResponse,
    teamRestructure: OutcomeResponse,
    operationalDiscipline: OutcomeResponse,
    highPerformance: OutcomeResponse,
    barRaiser: OutcomeResponse,
    accountability: OutcomeResponse,
    conversion: OutcomeResponse,
    ai: OutcomeResponse)
  {
    /** `outcomes[k]`. */
    function Get(k: OutcomeKey): OutcomeResponse {
      match k
      case Playbook => playbook
      case TeamRestructure => teamRestructure
      case OperationalDiscipline => operationalDiscipline
      case HighPerformance => highPerformance
      case BarRaiser => barRaiser
      case Accountability => accountability
      case Conversion => conversion
      case Ai => ai
    }

    /** `{ ...outcomes, [k]: v }`: the answer under `k` becomes `v`, the other seven stay. */
    function Set(k: OutcomeKey, v: OutcomeResponse): (r: Outcomes)
      ensures r.Get(k) == v
      ensures forall k' :: k' != k ==> r.Get(k') == Get(k')
    {
      match k
      case Playbook => this.(playbook := v)
      case TeamRestructure => this.(teamRestructure := v)
      case OperationalDiscipline => this.(operationalDiscipline := v)
      case HighPerformance => this.(highPerformance := v)
      case BarRaiser => this.(barRaiser := v)
      case Accountability => this.(accountability := v)
      case Conversion => this.(conversion := v)
      case Ai => this.(ai := v)
    }
  }

  const BlankOutcomes := Outcomes(BlankOutcome, BlankOutcome, BlankOutcome, BlankOutcome,
                                  BlankOutcome, BlankOutcome, BlankOutcome, BlankOutcome)

  /** Two outcome records with the same answer under every key are the same record. */
  lemma OutcomesExtensional(a: Outcomes, b: Outcomes)
    requires forall k :: a.Get(k) == b.Get(k)
    ensures a == b
  {
    assert a.Get(Playbook) == b.Get(Playbook);
    assert a.Get(TeamRestructure) == b.Get(TeamRestructure);
    assert a.Get(OperationalDiscipline) == b.Get(OperationalDiscipline);
    assert a.Get(HighPerformance) == b.Get(HighPerformance);
    assert a.Get(BarRaiser) == b.Get(BarRaiser);
    assert a.Get(Accountability) == b.Get(Accountability);
    assert a.Get(Conversion) == b.Get(Conversion);
    assert a.Get(Ai) == b.Get(Ai);
  }

  datatype CompetencyResponse = CompetencyResponse(name: string, rating: string, example: string)

  /** The competency list as JavaScript holds it: an index never written is a
      hole, read back as `undefined` (and stored as `null`), here `None`. */
  type Competencies = seq<Option<CompetencyResponse>>

  datatype PersonalInfo = PersonalInfo(fullName: string, cpf: string, birthDate: string, city: string, state: string)

  datatype ContactInfo = ContactInfo(email: string, whatsapp: string)

  datatype SocialLink = SocialLink(name: string, url: string)

  /** A browser `File`: its name, its size in bytes and its declared media type. */
  datatype FileRef = FileRef(name: string, size: nat, mediaType: string)

  /** `step4.photo`: nothing (`undefined` or `null`), a chosen file, or the empty
      object `{}` that a `File` becomes after a trip through JSON — truthy, with
      no `name`. */
  datatype PhotoSlot = NoPhoto | PhotoFile(file: FileRef) | Placeholder

  datatype Step4Data = Step4Data(
    personalInfo: PersonalInfo,
    contact: ContactInfo,
    salaryExpectation: string,
    finalNotes: string,
    files: seq<FileRef>,
    socialMedia: Option<seq<SocialLink>>,
    photo: PhotoSlot)

  datatype Step0Data = Step0Data(accepted: bool)

  datatype Step1Data = Step1Data(accepted: bool, missionReflection: string)

  datatype FormData = FormData(
    step0: Step0Data,
    step1: Step1Data,
    outcomes: Outcomes,
    competencies: Competencies,
    step4: Step4Data,
    currentStep: int)

  const BlankPersonalInfo := PersonalInfo("", "", "", "", "")

  const BlankContact := ContactInfo("", "")

  /** `initialFormData.step4`: no `socialMedia` and no `photo` key. */
  const InitialStep4 := Step4Data(BlankPersonalInfo, BlankContact, "", "", [], None, NoPhoto)

  /** `initialFormData`: nothing accepted, every text empty, no competencies, step 0. */
  const InitialFormData :=
    FormData(Step0Data(false), Step1Data(false, ""), BlankOutcomes, [], InitialStep4, 0)

  /** The social-media list as the components read it, `data.socialMedia || []`:
      empty while it was never edited. */
  function SocialList(f: FormData): seq<SocialLink> {
    f.step4.socialMedia.GetOr([])
  }
}
