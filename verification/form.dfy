/** The wizard controller of `useApplicationForm`: the step counter, the
    scoped update operations, and the draft kept in browser storage.

    Browser storage is a map from keys to strings. `JSON.stringify` and
    `JSON.parse` are parameters (`serialize`, `parse`), related only by the
    round-trip law the lemmas assume of them. */
module ApplicationForm {
  import opened Wrappers
  import opened Application

  const StorageKey := "ativos_application_form"

  /** Number of wizard steps; `currentStep == TotalSteps` is the success screen. */
  const TotalSteps := 5

  predicate InRange(f: FormData) {
    0 <= f.currentStep <= TotalSteps
  }

  /* ---------- step counter ---------- */

  /** `nextStep`: one step forward, never past `TotalSteps`; nothing else changes. */
  function NextStep(f: FormData): (r: FormData)
    ensures r.currentStep <= TotalSteps
    ensures f.currentStep < TotalSteps ==> r.currentStep == f.currentStep + 1
    ensures f.currentStep >= TotalSteps ==> r.currentStep == TotalSteps
    ensures r.(currentStep := f.currentStep) == f
  {
    f.(currentStep := if f.currentStep + 1 < TotalSteps then f.currentStep + 1 else TotalSteps)
  }

  /** `previousStep`: one step back, never below 0; nothing else changes. */
  function PreviousStep(f: FormData): (r: FormData)
    ensures r.currentStep >= 0
    ensures f.currentStep > 0 ==> r.currentStep == f.currentStep - 1
    ensures f.currentStep <= 0 ==> r.currentStep == 0
    ensures r.(currentStep := f.currentStep) == f
  {
    f.(currentStep := if f.currentStep - 1 > 0 then f.currentStep - 1 else 0)
  }

  /** Forward and back undo each other away from the clamps, and both keep the
      counter in range. */
  lemma StepRoundTrips(f: FormData)
    ensures 0 <= f.currentStep < TotalSteps ==> PreviousStep(NextStep(f)) == f
    ensures 0 < f.currentStep <= TotalSteps ==> NextStep(PreviousStep(f)) == f
    ensures InRange(f) ==> InRange(NextStep(f)) && InRange(PreviousStep(f))
    ensures f.currentStep == TotalSteps ==> NextStep(f) == f
    ensures f.currentStep == 0 ==> PreviousStep(f) == f
  {
  }

  /** `n` presses of "next". */
  function Forward(f: FormData, n: nat): FormData {
    if n == 0 then f else NextStep(Forward(f, n - 1))
  }

  /** From any step in range, `n` presses of "next" land on `min(step + n, 5)`:
      the success screen is reached after at most five and never overshot. */
  lemma {:induction false} ForwardClamps(f: FormData, n: nat)
    requires f.currentStep <= TotalSteps
    ensures Forward(f, n).currentStep ==
              (if f.currentStep + n < TotalSteps then f.currentStep + n else TotalSteps)
    ensures Forward(f, n).(currentStep := f.currentStep) == f
  {
    if n > 0 {
      ForwardClamps(f, n - 1);
    }
  }

  /* ---------- scoped updates ---------- */

  /** `updateStep0(accepted)`. */
  function UpdateStep0(f: FormData, accepted: bool): (r: FormData)
    ensures r.step0.accepted == accepted
    ensures r.(step0 := f.step0) == f
  {
    f.(step0 := Step0Data(accepted))
  }

  /** The argument of `updateStep1`: each key present or absent. */
  datatype Step1Patch = Step1Patch(accepted: Option<bool>, missionReflection: Option<string>)

  /** `updateStep1(data)`: `{ ...prev.step1, ...data }`. */
  function UpdateStep1(f: FormData, data: Step1Patch): (r: FormData)
    ensures r.step1.accepted == data.accepted.GetOr(f.step1.accepted)
    ensures r.step1.missionReflection == data.missionReflection.GetOr(f.step1.missionReflection)
    ensures r.(step1 := f.step1) == f
  {
    f.(step1 := Step1Data(data.accepted.GetOr(f.step1.accepted),
                          data.missionReflection.GetOr(f.step1.missionReflection)))
  }

  /** A `Partial<OutcomeResponse>`. */
  datatype OutcomePatch = OutcomePatch(accepted: Option<bool>, comment: Option<string>) {
    /** `{ ...o, ...this }`. */
    function Over(o: OutcomeResponse): OutcomeResponse {
      OutcomeResponse(accepted.GetOr(o.accepted), comment.GetOr(o.comment))
    }
  }

  /** `updateOutcome(k, data)`: merges `data` into outcome `k`; the seven other
      outcomes and everything outside step 2 stay as they were. */
  function UpdateOutcome(f: FormData, k: OutcomeKey, data: OutcomePatch): (r: FormData)
    ensures r.outcomes.Get(k).accepted == data.accepted.GetOr(f.outcomes.Get(k).accepted)
    ensures r.outcomes.Get(k).comment == data.comment.GetOr(f.outcomes.Get(k).comment)
    ensures forall k' :: k' != k ==> r.outcomes.Get(k') == f.outcomes.Get(k')
    ensures r.(outcomes := f.outcomes) == f
  {
    f.(outcomes := f.outcomes.Set(k, data.Over(f.outcomes.Get(k))))
  }

  /** Updates of two different outcomes do not interfere: either order gives the
      same aggregate. */
  lemma UpdateOutcomesCommute(f: FormData, k1: OutcomeKey, d1: OutcomePatch, k2: OutcomeKey, d2: OutcomePatch)
    requires k1 != k2
    ensures UpdateOutcome(UpdateOutcome(f, k1, d1), k2, d2) == UpdateOutcome(UpdateOutcome(f, k2, d2), k1, d1)
  {
    var a := UpdateOutcome(UpdateOutcome(f, k1, d1), k2, d2);
    var b := UpdateOutcome(UpdateOutcome(f, k2, d2), k1, d1);
    forall k ensures a.outcomes.Get(k) == b.outcomes.Get(k) {
    }
    OutcomesExtensional(a.outcomes, b.outcomes);
  }

  /** A `Partial<CompetencyResponse>`. */
  datatype CompetencyPatch = CompetencyPatch(name: Option<string>, rating: Option<string>, example: Option<string>) {
    /** `{ ...c, ...this }`. */
    function Over(c: CompetencyResponse): CompetencyResponse {
      CompetencyResponse(name.GetOr(c.name), rating.GetOr(c.rating), example.GetOr(c.example))
    }
  }

  const BlankCompetency := CompetencyResponse("", "", "")

  /** `n` unwritten array slots. */
  function Holes(n: nat): (r: Competencies)
    ensures |r| == n && forall j :: 0 <= j < n ==> r[j].None?
  {
    seq(n, _ => None)
  }

  /** `updateCompetency(index, data)`: an existing entry at `index` is merged
      with `data`; otherwise a blank entry overlaid with `data` is written there.
      Writing past the end grows the array and leaves holes in between; every
      other index keeps its entry. */
  function UpdateCompetency(f: FormData, index: nat, data: CompetencyPatch): (r: FormData)
    ensures var c := f.competencies;
            && |r.competencies| == (if index < |c| then |c| else index + 1)
            && r.competencies[index] ==
                 Some(data.Over(if index < |c| && c[index].Some? then c[index].value else BlankCompetency))
            && (forall j :: 0 <= j < |c| && j != index ==> r.competencies[j] == c[j])
            && (forall j :: |c| <= j < index ==> r.competencies[j].None?)
    ensures r.(competencies := f.competencies) == f
  {
    var c := f.competencies;
    var base := if index < |c| && c[index].Some? then c[index].value else BlankCompetency;
    var grown := if index < |c| then c else c + Holes(index + 1 - |c|);
    f.(competencies := grown[index := Some(data.Over(base))])
  }

  /** A `Partial<PersonalInfo>`. */
  datatype PersonalInfoPatch = PersonalInfoPatch(
    fullName: Option<string>, cpf: Option<string>, birthDate: Option<string>,
    city: Option<string>, state: Option<string>)
  {
    function Over(p: PersonalInfo): PersonalInfo {
      PersonalInfo(fullName.GetOr(p.fullName), cpf.GetOr(p.cpf), birthDate.GetOr(p.birthDate),
                   city.GetOr(p.city), state.GetOr(p.state))
    }
  }

  /** A `Partial<ContactInfo>`. */
  datatype ContactPatch = ContactPatch(email: Option<string>, whatsapp: Option<string>) {
    function Over(c: ContactInfo): ContactInfo {
      ContactInfo(email.GetOr(c.email), whatsapp.GetOr(c.whatsapp))
    }
  }

  /** The argument of `updateStep4`. For `photo`, `Some(NoPhoto)` is an explicit `null`. */
  datatype Step4Patch = Step4Patch(
    personalInfo: Option<PersonalInfoPatch>,
    contact: Option<ContactPatch>,
    salaryExpectation: Option<string>,
    finalNotes: Option<string>,
    files: Option<seq<FileRef>>,
    socialMedia: Option<seq<SocialLink>>,
    photo: Option<PhotoSlot>)

  const EmptyStep4Patch := Step4Patch(None, None, None, None, None, None, None)

  /** `updateStep4(data)`: personal and contact information are merged field by
      field when present, the other keys of `data` overwrite, absent keys keep
      their value, and steps 0–3 and the counter are untouched. */
  function UpdateStep4(f: FormData, data: Step4Patch): (r: FormData)
    ensures data.personalInfo.None? ==> r.step4.personalInfo == f.step4.personalInfo
    ensures data.personalInfo.Some? ==>
              var p := data.personalInfo.value;
              r.step4.personalInfo.fullName == p.fullName.GetOr(f.step4.personalInfo.fullName)
              && r.step4.personalInfo.cpf == p.cpf.GetOr(f.step4.personalInfo.cpf)
              && r.step4.personalInfo.birthDate == p.birthDate.GetOr(f.step4.personalInfo.birthDate)
              && r.step4.personalInfo.city == p.city.GetOr(f.step4.personalInfo.city)
              && r.step4.personalInfo.state == p.state.GetOr(f.step4.personalInfo.state)
    ensures data.contact.None? ==> r.step4.contact == f.step4.contact
    ensures data.contact.Some? ==>
              r.step4.contact.email == data.contact.value.email.GetOr(f.step4.contact.email)
              && r.step4.contact.whatsapp == data.contact.value.whatsapp.GetOr(f.step4.contact.whatsapp)
    ensures r.step4.salaryExpectation == data.salaryExpectation.GetOr(f.step4.salaryExpectation)
    ensures r.step4.finalNotes == data.finalNotes.GetOr(f.step4.finalNotes)
    ensures r.step4.files == data.files.GetOr(f.step4.files)
    ensures r.step4.socialMedia == (if data.socialMedia.Some? then data.socialMedia else f.step4.socialMedia)
    ensures r.step4.photo == data.photo.GetOr(f.step4.photo)
    ensures r.(step4 := f.step4) == f
  {
    var s := f.step4;
    f.(step4 := Step4Data(
      if data.personalInfo.Some? then data.personalInfo.value.Over(s.personalInfo) else s.personalInfo,
      if data.contact.Some? then data.contact.value.Over(s.contact) else s.contact,
      data.salaryExpectation.GetOr(s.salaryExpectation),
      data.finalNotes.GetOr(s.finalNotes),
      data.files.GetOr(s.files),
      if data.socialMedia.Some? then data.socialMedia else s.socialMedia,
      data.photo.GetOr(s.photo)))
  }

  /** An update with no keys changes nothing, and every scoped update keeps the
      counter where it was. */
  lemma UpdatesKeepStep(f: FormData, b: bool, p1: Step1Patch, k: OutcomeKey, po: OutcomePatch,
                        i: nat, pc: CompetencyPatch, p4: Step4Patch)
    ensures UpdateStep4(f, EmptyStep4Patch) == f
    ensures UpdateStep1(f, Step1Patch(None, None)) == f
    ensures UpdateOutcome(f, k, OutcomePatch(None, None)) == f
    ensures UpdateStep0(f, b).currentStep == f.currentStep
    ensures UpdateStep1(f, p1).currentStep == f.currentStep
    ensures UpdateOutcome(f, k, po).currentStep == f.currentStep
    ensures UpdateCompetency(f, i, pc).currentStep == f.currentStep
    ensures UpdateStep4(f, p4).currentStep == f.currentStep
  {
    var o := f.outcomes.Get(k);
    assert OutcomePatch(None, None).Over(o) == o;
    OutcomesExtensional(UpdateOutcome(f, k, OutcomePatch(None, None)).outcomes, f.outcomes);
  }

  /* ---------- the draft ---------- */

  /** What `JSON.stringify` keeps of `step4.photo`: `null`, or the `{}` a `File` becomes. */
  datatype PhotoJson = PhotoNull | PhotoObject

  /** The stored `step4`, as `JSON.parse` gives it back: a key may be missing. */
  datatype DraftStep4 = DraftStep4(
    personalInfo: Option<PersonalInfo>,
    contact: Option<ContactInfo>,
    salaryExpectation: Option<string>,
    finalNotes: Option<string>,
    files: Option<seq<string>>,
    socialMedia: Option<seq<SocialLink>>,
    photo: Option<PhotoJson>)

  /** The stored aggregate as `JSON.parse` gives it back: a key may be missing.
      A JSON value that is not an object spreads no keys, so it reads as the
      draft with every key missing. */
  datatype Draft = Draft(
    step0: Option<Step0Data>,
    step1: Option<Step1Data>,
    outcomes: Option<Outcomes>,
    competencies: Option<Competencies>,
    step4: Option<DraftStep4>,
    currentStep: Option<int>)

  function FileNames(files: seq<FileRef>): (names: seq<string>)
    ensures |names| == |files| && forall j :: 0 <= j < |files| ==> names[j] == files[j].name
  {
    seq(|files|, j requires 0 <= j < |files| => files[j].name)
  }

  /** What the save effect serialises: the whole aggregate with `step4.files`
      replaced by the files' names. An absent `socialMedia` or `photo` key is
      dropped by `JSON.stringify`; a photo becomes `{}`. A removed photo is
      stored as `null`, which loads like an absent key, so both are `None`. */
  function SaveDraft(f: FormData): (d: Draft)
    ensures d.step4.Some? && d.step4.value.files == Some(FileNames(f.step4.files))
    ensures d.step4.value.photo.Some? <==> f.step4.photo != NoPhoto
  {
    var s := f.step4;
    Draft(Some(f.step0), Some(f.step1), Some(f.outcomes), Some(f.competencies),
          Some(DraftStep4(Some(s.personalInfo), Some(s.contact), Some(s.salaryExpectation),
                          Some(s.finalNotes), Some(FileNames(s.files)), s.socialMedia,
                          if s.photo == NoPhoto then None else Some(PhotoObject))),
          Some(f.currentStep))
  }

  /** The step-4 merge of the load as written:
      `{ ...initialFormData.step4, ...parsed.step4, files: [] }`. A stored photo
      comes back as the empty object. */
  function LoadStep4AsWritten(d: Option<DraftStep4>): Step4Data {
    var i := InitialStep4;
    match d
    case None => i
    case Some(s) =>
      Step4Data(s.personalInfo.GetOr(i.personalInfo), s.contact.GetOr(i.contact),
                s.salaryExpectation.GetOr(i.salaryExpectation), s.finalNotes.GetOr(i.finalNotes),
                [], s.socialMedia,
                match s.photo
                case Some(PhotoObject) => Placeholder
                case _ => NoPhoto)
  }

  /** The load merge as written: `{ ...initialFormData, ...parsed, step4: … }`.
      Only the top level and `step4` fall back to the defaults key by key. */
  function LoadMergeAsWritten(d: Draft): (f: FormData)
    ensures f.step4.files == []
    ensures f.step4.photo == Placeholder <==> d.step4.Some? && d.step4.value.photo == Some(PhotoObject)
    ensures d.currentStep.Some? ==> f.currentStep == d.currentStep.value
  {
    var i := InitialFormData;
    FormData(d.step0.GetOr(i.step0), d.step1.GetOr(i.step1), d.outcomes.GetOr(i.outcomes),
             d.competencies.GetOr(i.competencies), LoadStep4AsWritten(d.step4),
             d.currentStep.GetOr(i.currentStep))
  }

  /** After a save and a load as written, a form that had a photo holds the
      empty placeholder object instead of a file. */
  lemma PhotoSurvivesAsPlaceholder(f: FormData)
    requires f.step4.photo.PhotoFile?
    ensures LoadMergeAsWritten(SaveDraft(f)).step4.photo == Placeholder
  {
  }

  /** The load merge the model uses: as written, except that the photo is reset
      too, because no file survives serialisation. */
  function LoadMerge(d: Draft): (f: FormData)
    ensures f.step4.files == [] && f.step4.photo == NoPhoto
    ensures d.currentStep.Some? ==> f.currentStep == d.currentStep.value
    ensures d.step4.None? ==> f.step4 == InitialStep4
  {
    var f := LoadMergeAsWritten(d);
    f.(step4 := f.step4.(photo := NoPhoto))
  }

  /** Save then load gives back the aggregate with no files and no photo:
      every text, every answer and the step counter survive the round trip. */
  lemma DraftRoundTrip(f: FormData)
    ensures LoadMerge(SaveDraft(f)) == f.(step4 := f.step4.(files := [], photo := NoPhoto))
  {
  }

  /** Browser storage. */
  type Store = map<string, string>

  /** The hook after its mount effect: `isLoading` is always false by then. */
  datatype Session = Session(form: FormData, isLoading: bool)

  /** The mount effect as written: a non-empty stored string that parses is
      merged over the defaults by `LoadMergeAsWritten`, so a stored photo
      comes back as the placeholder; a missing, empty or malformed one leaves
      the defaults. */
  function MountAsWritten(store: Store, parse: string -> Option<Draft>): (s: Session)
    ensures !s.isLoading
    ensures s.form.step4.files == []
    ensures StorageKey !in store || store[StorageKey] == [] || parse(store[StorageKey]).None? ==>
              s.form == InitialFormData
    ensures StorageKey in store && store[StorageKey] != [] && parse(store[StorageKey]).Some? ==>
              s.form == LoadMergeAsWritten(parse(store[StorageKey]).value)
  {
    if StorageKey in store && store[StorageKey] != "" then
      match parse(store[StorageKey])
      case Some(d) => Session(LoadMergeAsWritten(d), false)
      case None => Session(InitialFormData, false)
    else Session(InitialFormData, false)
  }

  /** The mount effect the model uses: as written, but merged by the corrected
      `LoadMerge`, which also drops the photo. */
  function Mount(store: Store, parse: string -> Option<Draft>): (s: Session)
    ensures !s.isLoading
    ensures s.form.step4.files == [] && s.form.step4.photo == NoPhoto
    ensures StorageKey !in store || store[StorageKey] == [] || parse(store[StorageKey]).None? ==>
              s.form == InitialFormData
    ensures StorageKey in store && store[StorageKey] != [] && parse(store[StorageKey]).Some? ==>
              s.form == LoadMerge(parse(store[StorageKey]).value)
  {
    if StorageKey in store && store[StorageKey] != "" then
      match parse(store[StorageKey])
      case Some(d) => Session(LoadMerge(d), false)
      case None => Session(InitialFormData, false)
    else Session(InitialFormData, false)
  }

  /** The save effect: nothing while loading, otherwise the draft of the
      current aggregate under `StorageKey`; other keys are untouched. */
  function Persist(store: Store, s: Session, serialize: Draft -> string): (r: Store)
    ensures s.isLoading ==> r == store
    ensures !s.isLoading ==> StorageKey in r && r[StorageKey] == serialize(SaveDraft(s.form))
    ensures forall key :: key in store && key != StorageKey ==> key in r && r[key] == store[key]
    ensures r.Keys == store.Keys + (if s.isLoading then {} else {StorageKey})
  {
    if s.isLoading then store else store[StorageKey := serialize(SaveDraft(s.form))]
  }

  /** A reload restores what was saved, minus the attachments, provided the
      serialiser and parser agree on this draft and the text is not empty. */
  lemma ReloadRestoresDraft(store: Store, f: FormData, serialize: Draft -> string, parse: string -> Option<Draft>)
    requires serialize(SaveDraft(f)) != []
    requires parse(serialize(SaveDraft(f))) == Some(SaveDraft(f))
    ensures Mount(Persist(store, Session(f, false), serialize), parse).form ==
              f.(step4 := f.step4.(files := [], photo := NoPhoto))
  {
    DraftRoundTrip(f);
  }

  /** The two mounts differ in the photo only: the corrected one has none
      where the one as written may hold the placeholder. */
  lemma MountsDifferInPhotoOnly(store: Store, parse: string -> Option<Draft>)
    ensures Mount(store, parse).form ==
              MountAsWritten(store, parse).form.(step4 := MountAsWritten(store, parse).form.step4.(photo := NoPhoto))
    ensures MountAsWritten(store, parse).form.step4.photo in {NoPhoto, Placeholder}
  {
    var w := MountAsWritten(store, parse).form;
    assert w.step4.photo != NoPhoto ==> w.step4.photo == Placeholder;
  }

  /** A reload as written, with a faithful serialiser and parser, restores
      what was saved less the files, but a saved photo comes back as the
      placeholder rather than a file. */
  lemma ReloadAsWrittenKeepsPlaceholder(store: Store, f: FormData, serialize: Draft -> string, parse: string -> Option<Draft>)
    requires serialize(SaveDraft(f)) != []
    requires parse(serialize(SaveDraft(f))) == Some(SaveDraft(f))
    ensures var g := MountAsWritten(Persist(store, Session(f, false), serialize), parse).form;
            g.(step4 := g.step4.(photo := NoPhoto)) == f.(step4 := f.step4.(files := [], photo := NoPhoto))
            && (g.step4.photo == Placeholder <==> f.step4.photo != NoPhoto)
  {
    var d := SaveDraft(f);
    DraftRoundTrip(f);
    assert LoadMerge(d) == LoadMergeAsWritten(d).(step4 := LoadMergeAsWritten(d).step4.(photo := NoPhoto));
  }

  /** `clearForm()`: the stored draft is removed and the aggregate is reset,
      counter included. */
  function ClearForm(store: Store): (r: (Store, FormData))
    ensures StorageKey !in r.0
    ensures forall key :: key in store && key != StorageKey ==> key in r.0 && r.0[key] == store[key]
    ensures r.0.Keys == store.Keys - {StorageKey}
    ensures r.1 == InitialFormData && r.1.currentStep == 0
  {
    (store - {StorageKey}, InitialFormData)
  }

  /** Once the aggregate has been updated since mount, the reset aggregate is
      a new value, so the save effect runs again and the key is written back at
      once with the draft of the initial data; a reload then starts from the
      initial data. (While no draft was loaded and nothing was edited, the
      aggregate is still the initial object itself: React skips the unchanged
      state, no effect runs, and the key stays removed. A draft merged at mount
      is already a new object, so after a load the key is written back even
      without an edit.) */
  lemma ClearedFormIsSavedAgain(store: Store, serialize: Draft -> string, parse: string -> Option<Draft>)
    requires serialize(SaveDraft(InitialFormData)) != []
    requires parse(serialize(SaveDraft(InitialFormData))) == Some(SaveDraft(InitialFormData))
    ensures var (cleared, f) := ClearForm(store);
            var after := Persist(cleared, Session(f, false), serialize);
            StorageKey in after && Mount(after, parse).form == InitialFormData
  {
    var (cleared, f) := ClearForm(store);
    ReloadRestoresDraft(cleared, f, serialize, parse);
  }

  /** What the hook's `submitApplication` stub returns. */
  datatype StubResult = StubResult(success: bool, data: FormData)

  /** The hook's `submitApplication`: it only logs, so it always reports success
      with the aggregate as data. */
  function SubmitStub(f: FormData): (r: StubResult)
    ensures r.success && r.data == f
  {
    StubResult(true, f)
  }
}
