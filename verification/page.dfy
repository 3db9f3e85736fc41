/** The application page: which screen the session shows, what "next", "back"
    and "submit" do on each step, and where the modal comes from. The steps'
    gates decide "next" on steps 0 to 3; on step 4 the submit chain decides,
    and a passing form goes to the controller's `submitApplication`. */
module ApplicationPage {
  import opened Wrappers
  import opened Application
  import opened ApplicationForm
  import opened Modal
  import StepGates
  import Step4Form

  datatype Screen = LoadingScreen | SuccessScreen | StepScreen(index: nat) | EmptyScreen

  /** The loading view while the draft is read, the success screen from step
      `TotalSteps` on, otherwise the step whose number is the counter (none for
      a negative counter). */
  function Render(s: Session): (v: Screen)
    ensures s.isLoading <==> v == LoadingScreen
    ensures v == SuccessScreen <==> !s.isLoading && s.form.currentStep >= TotalSteps
    ensures v.StepScreen? <==> !s.isLoading && 0 <= s.form.currentStep < TotalSteps
    ensures v.StepScreen? ==> v.index == s.form.currentStep
  {
    if s.isLoading then LoadingScreen
    else if s.form.currentStep >= TotalSteps then SuccessScreen
    else if s.form.currentStep >= 0 then StepScreen(s.form.currentStep)
    else EmptyScreen
  }

  /** The progress bar is drawn above every screen but the success screen. */
  predicate ShowsProgressBar(s: Session) {
    !s.isLoading && s.form.currentStep < TotalSteps
  }

  /** The progress bar and the success screen exclude each other once loaded,
      and every step screen has the bar. */
  lemma ProgressBarHiddenOnSuccess(s: Session)
    requires !s.isLoading
    ensures ShowsProgressBar(s) <==> Render(s) != SuccessScreen
    ensures Render(s).StepScreen? ==> ShowsProgressBar(s)
  {
  }

  /** Every step but the first is given `previousStep` as its "back" action. */
  predicate HasBack(v: Screen) {
    v.StepScreen? && 1 <= v.index < TotalSteps
  }

  /** The page: the controller's session and the modal. */
  datatype PageState = PageState(session: Session, modal: ModalState)

  /** The error the page shows when the submission reports failure. */
  const SubmitErrorMessage := "Erro ao enviar aplicação. Por favor, tente novamente."

  /** `handleSubmit` once the submission answered: success moves to the next
      step (the success screen), failure keeps the step and shows the error. */
  function AfterSubmit(p: PageState, success: bool): (r: PageState)
    ensures r.session.isLoading == p.session.isLoading
    ensures success ==> r == p.(session := p.session.(form := NextStep(p.session.form)))
    ensures !success ==> r.session == p.session
    ensures !success ==> r.modal.isOpen && r.modal.title == "Erro" && r.modal.kind == Error
                         && r.modal.message == SubmitErrorMessage
  {
    if success then p.(session := p.session.(form := NextStep(p.session.form)))
    else p.(modal := ShowModal(SubmitErrorMessage, Some("Erro"), Some(Error)))
  }

  /** The gate of steps 0 to 3. */
  function GateOf(f: FormData): StepGates.Gate
    requires 0 <= f.currentStep < 4
  {
    if f.currentStep == 0 then StepGates.Step0Gate(f.step0.accepted)
    else if f.currentStep == 1 then StepGates.Step1Gate(f.step1)
    else if f.currentStep == 2 then StepGates.Step2Gate(f.outcomes)
    else StepGates.Step3Gate(f.competencies)
  }

  /** The warning a blocked gate shows. */
  function GateWarning(r: StepGates.Reason): ModalState {
    ShowModal(StepGates.Message(r), Some(StepGates.Title(r)), Some(Warning))
  }

  /** "Next" on steps 0 to 3: the step's gate either advances the counter or
      keeps the step and shows its warning. */
  function PressGate(p: PageState): (r: PageState)
    requires 0 <= p.session.form.currentStep < 4
    ensures r.session.isLoading == p.session.isLoading
    ensures GateOf(p.session.form).Advance? ==>
              r == p.(session := p.session.(form := NextStep(p.session.form)))
    ensures GateOf(p.session.form).Blocked? ==>
              r.session == p.session && r.modal == GateWarning(GateOf(p.session.form).reason)
  {
    match GateOf(p.session.form)
    case Advance => p.(session := p.session.(form := NextStep(p.session.form)))
    case Blocked(reason) => p.(modal := GateWarning(reason))
  }

  /** "Submit" on step 4: the submit chain either blocks with its warning or
      hands the form to the controller's submission, which with the stub
      always succeeds and so always reaches the success screen. */
  function PressSubmit(p: PageState, currentYear: int): (r: PageState)
    requires p.session.form.currentStep == 4
    ensures r.session.isLoading == p.session.isLoading
    ensures var o := Step4Form.HandleSubmit(p.session.form.step4, currentYear, p.modal);
            && (o.submitted ==> r.session.form == p.session.form.(currentStep := TotalSteps) && r.modal == p.modal)
            && (!o.submitted ==> r.session == p.session && r.modal == o.modal)
  {
    var f := p.session.form;
    var o := Step4Form.HandleSubmit(f.step4, currentYear, p.modal);
    if o.submitted then AfterSubmit(p.(modal := o.modal), SubmitStub(f).success)
    else p.(modal := o.modal)
  }

  /** Pressing "next" (on step 4, "submit") on whatever screen is shown; the
      loading and success screens have no such button. `currentYear` is the
      clock the birth-date check reads. */
  function PressNext(p: PageState, currentYear: int): (r: PageState)
    ensures r.session.isLoading == p.session.isLoading
    ensures r.session.form.(currentStep := p.session.form.currentStep) == p.session.form
    ensures !Render(p.session).StepScreen? ==> r == p
    ensures Render(p.session).StepScreen? ==> InRange(r.session.form)
  {
    match Render(p.session)
    case StepScreen(i) => if i < 4 then PressGate(p) else PressSubmit(p, currentYear)
    case _ => p
  }

  /** Pressing "back", offered on steps 1 to 4 only. */
  function PressBack(p: PageState): (r: PageState)
    ensures HasBack(Render(p.session)) ==>
              r.session.form == p.session.form.(currentStep := p.session.form.currentStep - 1)
    ensures !HasBack(Render(p.session)) ==> r == p
    ensures r.modal == p.modal
  {
    if HasBack(Render(p.session)) then p.(session := p.session.(form := PreviousStep(p.session.form)))
    else p
  }

  datatype Action = Next(currentYear: int) | Back | Dismiss

  function Step(p: PageState, a: Action): PageState {
    match a
    case Next(year) => PressNext(p, year)
    case Back => PressBack(p)
    case Dismiss => p.(modal := CloseModal(p.modal))
  }

  function RunPage(p: PageState, acts: seq<Action>): PageState
    decreases |acts|
  {
    if acts == [] then p else RunPage(Step(p, acts[0]), acts[1..])
  }

  /** However the candidate clicks, the counter stays between the first step
      and the success screen and the answers are only changed by the steps'
      own editors, never by navigation. */
  lemma {:induction false} NavigationKeepsRange(p: PageState, acts: seq<Action>)
    requires InRange(p.session.form)
    ensures InRange(RunPage(p, acts).session.form)
    ensures RunPage(p, acts).session.form.(currentStep := p.session.form.currentStep) == p.session.form
    ensures RunPage(p, acts).session.isLoading == p.session.isLoading
    decreases |acts|
  {
    if acts != [] {
      var q := Step(p, acts[0]);
      assert InRange(q.session.form);
      assert q.session.form.(currentStep := p.session.form.currentStep) == p.session.form;
      NavigationKeepsRange(q, acts[1..]);
    }
  }

  /** The success screen is final: it has no buttons, so no action leaves it. */
  lemma {:induction false} SuccessScreenIsFinal(p: PageState, acts: seq<Action>)
    requires Render(p.session) == SuccessScreen
    ensures RunPage(p, acts).session == p.session
    decreases |acts|
  {
    if acts != [] {
      var q := Step(p, acts[0]);
      assert q.session == p.session;
      SuccessScreenIsFinal(q, acts[1..]);
    }
  }
}
