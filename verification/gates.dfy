/** The "next" gates of wizard steps 0 to 3. Each is a pure function of its
    step's slice that either lets the wizard advance or blocks on the first
    failing field, in a fixed order, with the data its warning reports. */
module StepGates {
  import opened Wrappers
  import opened Text
  import opened Seqs
  import opened Application
  import opened ApplicationForm

  /** Minimum lengths of the free-text answers. */
  const ReflectionMinLength := 300
  const CommentMinLength := 150
  const ExampleMinLength := 200

  datatype CompetencyDefinition = CompetencyDefinition(name: string, title: string)

  /** Why a gate blocks, with the data its warning shows. */
  datatype Reason =
    | IntroductionUnconfirmed
    | MissionUnconfirmed
    | ReflectionTooShort(length: nat)
    | OutcomeUnconfirmed(key: OutcomeKey)
    | CommentTooShort(key: OutcomeKey, length: nat)
    | CompetencyUnrated(definition: CompetencyDefinition)
    | ExampleTooShort(definition: CompetencyDefinition, length: nat)

  datatype Gate = Advance | Blocked(reason: Reason)

  /* ---------- the warning shown for each reason ---------- */

  function OutcomeLabel(k: OutcomeKey): string {
    match k
    case Playbook => "Outcome 2.1 — Playbook"
    case TeamRestructure => "Outcome 2.2 — Diagnóstico e Reestruturação do Time"
    case OperationalDiscipline => "Outcome 2.3 — Disciplina Operacional"
    case HighPerformance => "Outcome 2.4 — Time em Alta Performance"
    case BarRaiser => "Outcome 2.4.1 — Bar Raiser"
    case Accountability => "Outcome 2.4.2 — Accountability"
    case Conversion => "Outcome 2.6 — Conversão"
    case Ai => "Outcome 2.7 — IA e Eficiência"
  }

  /** The element id of an outcome's confirmation box. */
  function OutcomeId(k: OutcomeKey): string {
    match k
    case Playbook => "outcome21"
    case TeamRestructure => "outcome22"
    case OperationalDiscipline => "outcome23"
    case HighPerformance => "outcome24"
    case BarRaiser => "outcome241"
    case Accountability => "outcome242"
    case Conversion => "outcome26"
    case Ai => "outcome27"
  }

  /** The label and id maps name each of the eight keys differently, so every
      warning and scroll target points at one outcome. */
  lemma OutcomeNamesDistinct(k1: OutcomeKey, k2: OutcomeKey)
    requires k1 != k2
    ensures OutcomeLabel(k1) != OutcomeLabel(k2)
    ensures OutcomeId(k1) != OutcomeId(k2)
    ensures OutcomeId(k1) + "-comment" != OutcomeId(k2) + "-comment"
  {
    OutcomeLabelsDistinct(k1, k2);
    OutcomeIdsDistinct(k1, k2);
    var a, b := OutcomeId(k1) + "-comment", OutcomeId(k2) + "-comment";
    assert a[..|a| - 8] == OutcomeId(k1) && b[..|b| - 8] == OutcomeId(k2);
  }

  lemma OutcomeLabelsDistinct(k1: OutcomeKey, k2: OutcomeKey)
    requires k1 != k2
    ensures OutcomeLabel(k1) != OutcomeLabel(k2)
  {
  }

  lemma OutcomeIdsDistinct(k1: OutcomeKey, k2: OutcomeKey)
    requires k1 != k2
    ensures OutcomeId(k1) != OutcomeId(k2)
  {
  }

  /** The modal title: a missing confirmation or rating is "not filled in", a
      short text is "incomplete". */
  function Title(r: Reason): string {
    match r
    case ReflectionTooShort(_) => "Campo obrigatório incompleto"
    case CommentTooShort(_, _) => "Campo obrigatório incompleto"
    case ExampleTooShort(_, _) => "Campo obrigatório incompleto"
    case _ => "Campo obrigatório não preenchido"
  }

  function Message(r: Reason): string {
    match r
    case IntroductionUnconfirmed =>
      "Por favor, marque a caixa de confirmação no final da página para confirmar que você leu e entendeu o contexto geral da vaga."
    case MissionUnconfirmed =>
      "Por favor, marque a caixa \"Li e compreendi a missão e o nível de responsabilidade da função\" antes de continuar."
    case ReflectionTooShort(n) =>
      "Campo \"O que, especificamente, neste desafio faz sentido para você?\": sua reflexão tem "
      + DecimalString(n) + " caracteres. São necessários pelo menos 300 caracteres."
    case OutcomeUnconfirmed(k) =>
      "Por favor, marque a caixa de confirmação no \"" + OutcomeLabel(k)
      + "\" para confirmar que você compreendeu este resultado esperado."
    case CommentTooShort(k, n) =>
      "Campo de reflexão do \"" + OutcomeLabel(k) + "\": sua resposta tem " + DecimalString(n)
      + " caracteres. São necessários pelo menos 150 caracteres."
    case CompetencyUnrated(d) =>
      "Por favor, selecione uma autoavaliação (de 1 a 5) para a competência \"" + d.title + "\" antes de continuar."
    case ExampleTooShort(d, n) =>
      "Campo de exemplo da competência \"" + d.title + "\": sua resposta tem " + DecimalString(n)
      + " caracteres. São necessários pelo menos 200 caracteres."
  }

  /** The id of the element scrolled into view. */
  function Target(r: Reason): string {
    match r
    case IntroductionUnconfirmed => "check0"
    case MissionUnconfirmed => "check1"
    case ReflectionTooShort(_) => "mission-text"
    case OutcomeUnconfirmed(k) => OutcomeId(k)
    case CommentTooShort(k, _) => OutcomeId(k) + "-comment"
    case CompetencyUnrated(d) => "rating-" + d.title
    case ExampleTooShort(d, _) => "example-" + d.title
  }

  /* ---------- step 0 ---------- */

  /** Step 0 advances exactly when its box is confirmed. */
  function Step0Gate(accepted: bool): (g: Gate)
    ensures g.Advance? <==> accepted
    ensures g.Blocked? ==> g.reason == IntroductionUnconfirmed
  {
    if accepted then Advance else Blocked(IntroductionUnconfirmed)
  }

  /* ---------- step 1 ---------- */

  /** Step 1: confirmation first, then a reflection of at least 300 characters. */
  function Step1Gate(s: Step1Data): (g: Gate)
    ensures g.Advance? <==> s.accepted && |s.missionReflection| >= ReflectionMinLength
    ensures !s.accepted ==> g == Blocked(MissionUnconfirmed)
    ensures s.accepted && |s.missionReflection| < ReflectionMinLength ==>
              g == Blocked(ReflectionTooShort(|s.missionReflection|))
  {
    if !s.accepted then Blocked(MissionUnconfirmed)
    else if |s.missionReflection| < 300 then Blocked(ReflectionTooShort(|s.missionReflection|))
    else Advance
  }

  /** The red border under the reflection field. */
  function ReflectionFlagged(reflection: string): bool {
    0 < |reflection| && |reflection| < 300
  }

  /** Once the box is confirmed, the field is flagged exactly when the gate
      blocks on its length, except that an empty reflection blocks unflagged. */
  lemma ReflectionFlagMatchesGate(s: Step1Data)
    requires s.accepted
    ensures ReflectionFlagged(s.missionReflection) <==>
              Step1Gate(s).Blocked? && s.missionReflection != []
    ensures s.missionReflection == [] ==>
              !ReflectionFlagged(s.missionReflection) && Step1Gate(s) == Blocked(ReflectionTooShort(0))
  {
  }

  /* ---------- step 2 ---------- */

  /** The first outcome, in key order, satisfying `p`: what `find` over
      `Object.entries(outcomes)` returns. */
  function FirstKey(p: OutcomeKey -> bool): (r: Option<OutcomeKey>)
    ensures r.None? <==> forall k :: !p(k)
    ensures r.Some? ==> p(r.value)
    ensures r.Some? ==> forall k :: KeyIndex(k) < KeyIndex(r.value) ==> !p(k)
  {
    var i := FindIndex(OutcomeKeys, p);
    FindIndexEnumerated(OutcomeKeys, KeyIndex, p);
    if i.Some? then KeyIndexOfPosition(i.value); Some(OutcomeKeys[i.value]) else None
  }

  /** The first outcome, in key order, that is not confirmed. */
  function FirstUnconfirmed(o: Outcomes): (r: Option<OutcomeKey>)
    ensures r.None? <==> forall k :: o.Get(k).accepted
    ensures r.Some? ==> !o.Get(r.value).accepted
    ensures r.Some? ==> forall k :: KeyIndex(k) < KeyIndex(r.value) ==> o.Get(k).accepted
  {
    var p := (k: OutcomeKey) => !o.Get(k).accepted;
    assert forall k :: p(k) == !o.Get(k).accepted;
    FirstKey(p)
  }

  /** The first outcome, in key order, whose comment is under 150 characters. */
  function FirstShortComment(o: Outcomes): (r: Option<OutcomeKey>)
    ensures r.None? <==> forall k :: |o.Get(k).comment| >= CommentMinLength
    ensures r.Some? ==> |o.Get(r.value).comment| < CommentMinLength
    ensures r.Some? ==> forall k :: KeyIndex(k) < KeyIndex(r.value) ==> |o.Get(k).comment| >= CommentMinLength
  {
    var p := (k: OutcomeKey) => |o.Get(k).comment| < CommentMinLength;
    assert forall k :: p(k) == (|o.Get(k).comment| < CommentMinLength);
    FirstKey(p)
  }

  /** Step 2: the first unconfirmed outcome in key order blocks; only when all
      eight are confirmed does the first comment shorter than 150 characters
      block, with its length. */
  function Step2Gate(o: Outcomes): (g: Gate)
    ensures g.Advance? <==>
              forall k :: o.Get(k).accepted && |o.Get(k).comment| >= CommentMinLength
    ensures (exists k :: !o.Get(k).accepted) ==> g.Blocked? && g.reason.OutcomeUnconfirmed?
    ensures g.Blocked? ==> g.reason.OutcomeUnconfirmed? || g.reason.CommentTooShort?
    ensures g.Blocked? && g.reason.OutcomeUnconfirmed? ==>
              !o.Get(g.reason.key).accepted
              && forall k :: KeyIndex(k) < KeyIndex(g.reason.key) ==> o.Get(k).accepted
    ensures g.Blocked? && g.reason.CommentTooShort? ==>
              (forall k :: o.Get(k).accepted)
              && g.reason.length == |o.Get(g.reason.key).comment| < CommentMinLength
              && forall k :: KeyIndex(k) < KeyIndex(g.reason.key) ==> |o.Get(k).comment| >= CommentMinLength
  {
    match FirstUnconfirmed(o)
    case Some(k) => Blocked(OutcomeUnconfirmed(k))
    case None =>
      match FirstShortComment(o)
      case Some(k) => Blocked(CommentTooShort(k, |o.Get(k).comment|))
      case None => Advance
  }

  /* ---------- step 3 ---------- */

  /** The nine competencies, in the order they are shown and checked. */
  const CompetencyDefinitions: seq<CompetencyDefinition> := [
    CompetencyDefinition("comp31", "3.1 Ownership Radical"),
    CompetencyDefinition("comp32", "3.2 Liderança por Execução"),
    CompetencyDefinition("comp33", "3.3 Persuasão Comercial Responsável"),
    CompetencyDefinition("comp34", "3.4 Rigor Analítico"),
    CompetencyDefinition("comp35", "3.5 Disciplina Operacional"),
    CompetencyDefinition("comp36", "3.6 Resiliência e Consistência"),
    CompetencyDefinition("comp37", "3.7 Desenvolvimento de Pessoas"),
    CompetencyDefinition("comp38", "3.8 Uso Inteligente de Tecnologia"),
    CompetencyDefinition("comp39", "3.9 Integridade Inquestionável")
  ]

  /** Definition `i` is named `comp3` followed by the digit `i + 1`, so the
      nine names are pairwise different. */
  lemma DefinitionNames(i: nat, j: nat)
    requires i < |CompetencyDefinitions| && j < |CompetencyDefinitions|
    ensures |CompetencyDefinitions| == 9
    ensures CompetencyDefinitions[i].name == "comp3" + [DigitChar(i + 1)]
    ensures i != j ==> CompetencyDefinitions[i].name != CompetencyDefinitions[j].name
  {
    var ni := CompetencyDefinitions[i].name;
    var nj := CompetencyDefinitions[j].name;
    assert ni == "comp3" + [DigitChar(i + 1)];
    assert nj == "comp3" + [DigitChar(j + 1)];
    if i != j {
      assert ni[5] != nj[5];
    }
  }

  /** `getCompetency(name)` as written: `find(c => c.name === name)` visits
      holes as `undefined` and dereferencing one throws. `Err(j)` is the
      TypeError at hole `j`. */
  function GetCompetencyAsWritten(c: Competencies, name: string): (r: Result<CompetencyResponse, nat>)
    ensures r.Err? <==>
              exists j :: 0 <= j < |c| && c[j].None?
                && forall i :: 0 <= i < j ==> c[i].Some? && c[i].value.name != name
    ensures r.Err? ==> r.error < |c| && c[r.error].None?
  {
    match FindIndex(c, (e: Option<CompetencyResponse>) => e.None? || e.value.name == name)
    case Some(j) => if c[j].None? then Err(j) else Ok(c[j].value)
    case None => Ok(CompetencyResponse(name, "", ""))
  }

  /** Rating the second competency before the first leaves a hole at index 0,
      and the lookup of the first then throws. */
  lemma RatingOutOfOrderBreaksLookup()
    ensures var f := UpdateCompetency(InitialFormData, 1, CompetencyPatch(Some("comp32"), Some("4"), None));
            f.competencies[0].None?
            && GetCompetencyAsWritten(f.competencies, "comp31") == Err(0)
  {
    var f := UpdateCompetency(InitialFormData, 1, CompetencyPatch(Some("comp32"), Some("4"), None));
    assert f.competencies[0].None?;
  }

  /** `getCompetency(name)` with holes skipped: the first entry named `name`,
      or a blank answer under that name. */
  function GetCompetency(c: Competencies, name: string): (r: CompetencyResponse)
    ensures r.name == name
  {
    match FindIndex(c, (e: Option<CompetencyResponse>) => e.Some? && e.value.name == name)
    case Some(j) => c[j].value
    case None => CompetencyResponse(name, "", "")
  }

  /** The lookup returns the first entry named `name`, and a blank answer when
      there is none. */
  lemma LookupFindsFirst(c: Competencies, name: string)
    ensures forall j :: 0 <= j < |c| && c[j].Some? && c[j].value.name == name ==>
              (forall i :: 0 <= i < j ==> c[i].None? || c[i].value.name != name) ==>
              GetCompetency(c, name) == c[j].value
    ensures (forall j :: 0 <= j < |c| ==> c[j].None? || c[j].value.name != name) ==>
              GetCompetency(c, name) == CompetencyResponse(name, "", "")
  {
  }

  /** Where there are no holes, the lookup as written and the corrected one agree. */
  lemma LookupsAgreeWithoutHoles(c: Competencies, name: string)
    requires forall j :: 0 <= j < |c| ==> c[j].Some?
    ensures GetCompetencyAsWritten(c, name) == Ok(GetCompetency(c, name))
  {
  }

  /** The answer recorded for definition `i`. */
  function Answer(c: Competencies, i: nat): CompetencyResponse
    requires i < |CompetencyDefinitions|
  {
    GetCompetency(c, CompetencyDefinitions[i].name)
  }

  /** The first definition, in display order, whose answer fails `test`. */
  function FirstFailing(c: Competencies, test: CompetencyResponse -> bool): (r: Option<nat>)
    ensures r.None? <==> forall i :: 0 <= i < |CompetencyDefinitions| ==> test(Answer(c, i))
    ensures r.Some? ==> r.value < |CompetencyDefinitions| && !test(Answer(c, r.value))
    ensures r.Some? ==> forall j :: 0 <= j < r.value ==> test(Answer(c, j))
  {
    var fails := (d: CompetencyDefinition) => !test(GetCompetency(c, d.name));
    var r := FindIndex(CompetencyDefinitions, fails);
    FirstFailingCorrect(c, test, fails, r);
    r
  }

  lemma FirstFailingCorrect(c: Competencies, test: CompetencyResponse -> bool,
                            fails: CompetencyDefinition -> bool, r: Option<nat>)
    requires forall d :: fails(d) == !test(GetCompetency(c, d.name))
    requires r == FindIndex(CompetencyDefinitions, fails)
    ensures r.None? <==> forall i :: 0 <= i < |CompetencyDefinitions| ==> test(Answer(c, i))
    ensures r.Some? ==> r.value < |CompetencyDefinitions| && !test(Answer(c, r.value))
    ensures r.Some? ==> forall j :: 0 <= j < r.value ==> test(Answer(c, j))
  {
    if r.None? {
      forall i | 0 <= i < |CompetencyDefinitions|
        ensures test(Answer(c, i))
      {
        assert !fails(CompetencyDefinitions[i]);
      }
    } else {
      var i := r.value;
      assert fails(CompetencyDefinitions[i]);
      assert !test(Answer(c, i));
      forall j | 0 <= j < i
        ensures test(Answer(c, j))
      {
        assert !fails(CompetencyDefinitions[j]);
      }
    }
  }

  /** The first definition, in display order, whose answer has no rating. */
  function FirstUnrated(c: Competencies): (r: Option<nat>)
    ensures r.None? <==> forall i :: 0 <= i < |CompetencyDefinitions| ==> Answer(c, i).rating != []
    ensures r.Some? ==> r.value < |CompetencyDefinitions| && Answer(c, r.value).rating == []
    ensures r.Some? ==> forall j :: 0 <= j < r.value ==> Answer(c, j).rating != []
  {
    FirstFailing(c, (a: CompetencyResponse) => a.rating != [])
  }

  /** The first definition, in display order, whose example is under 200 characters. */
  function FirstShortExample(c: Competencies): (r: Option<nat>)
    ensures r.None? <==> forall i :: 0 <= i < |CompetencyDefinitions| ==> |Answer(c, i).example| >= ExampleMinLength
    ensures r.Some? ==> r.value < |CompetencyDefinitions| && |Answer(c, r.value).example| < ExampleMinLength
    ensures r.Some? ==> forall j :: 0 <= j < r.value ==> |Answer(c, j).example| >= ExampleMinLength
  {
    FirstFailing(c, (a: CompetencyResponse) => |a.example| >= ExampleMinLength)
  }

  /** Step 3: the first unrated competency blocks; only when all nine are rated
      does the first example shorter than 200 characters block, with its length.
      Answers are read through the corrected lookup `GetCompetency`; where the
      lookup as written would throw, the step never renders
      (`RenderThrowsIffHole`), and without holes the two agree
      (`AnswersAsWrittenWithoutHoles`). */
  function Step3Gate(c: Competencies): (g: Gate)
    ensures g.Advance? <==>
              forall i :: 0 <= i < |CompetencyDefinitions| ==>
                Answer(c, i).rating != [] && |Answer(c, i).example| >= ExampleMinLength
    ensures (exists i :: 0 <= i < |CompetencyDefinitions| && Answer(c, i).rating == []) ==>
              g.Blocked? && g.reason.CompetencyUnrated?
    ensures g.Blocked? ==> g.reason.CompetencyUnrated? || g.reason.ExampleTooShort?
  {
    match FirstUnrated(c)
    case Some(i) => Blocked(CompetencyUnrated(CompetencyDefinitions[i]))
    case None =>
      match FirstShortExample(c)
      case Some(i) => Blocked(ExampleTooShort(CompetencyDefinitions[i], |Answer(c, i).example|))
      case None => Advance
  }

  /** Which competency a blocked step 3 names: the first unrated one in
      display order, or, once all are rated, the first with a short example
      and that example's length. */
  lemma Step3GateNamesFirst(c: Competencies)
    ensures var g := Step3Gate(c);
            g.Blocked? && g.reason.CompetencyUnrated? ==>
              exists i :: 0 <= i < |CompetencyDefinitions| && g.reason.definition == CompetencyDefinitions[i]
                && Answer(c, i).rating == [] && forall j :: 0 <= j < i ==> Answer(c, j).rating != []
    ensures var g := Step3Gate(c);
            g.Blocked? && g.reason.ExampleTooShort? ==>
              (forall j :: 0 <= j < |CompetencyDefinitions| ==> Answer(c, j).rating != [])
              && exists i :: 0 <= i < |CompetencyDefinitions| && g.reason.definition == CompetencyDefinitions[i]
                   && g.reason.length == |Answer(c, i).example| < ExampleMinLength
                   && forall j :: 0 <= j < i ==> |Answer(c, j).example| >= ExampleMinLength
  {
    var g := Step3Gate(c);
    match FirstUnrated(c)
    case Some(i) =>
      assert g.reason.definition == CompetencyDefinitions[i];
    case None =>
      match FirstShortExample(c)
      case Some(i) =>
        assert g.reason.definition == CompetencyDefinitions[i] && g.reason.length == |Answer(c, i).example|;
      case None =>
  }

  /** Every entry present sits at the index of the definition it names — what
      step 3's edits maintain. */
  predicate Indexed(c: Competencies) {
    forall j :: 0 <= j < |c| && c[j].Some? ==>
      j < |CompetencyDefinitions| && c[j].value.name == CompetencyDefinitions[j].name
  }

  /** In an indexed list the answer to definition `i` is the entry at `i`. */
  lemma AnswerOfIndexed(c: Competencies, i: nat)
    requires Indexed(c) && i < |CompetencyDefinitions|
    ensures Answer(c, i) ==
              if i < |c| && c[i].Some? then c[i].value
              else CompetencyResponse(CompetencyDefinitions[i].name, "", "")
  {
    var name := CompetencyDefinitions[i].name;
    forall j | 0 <= j < |c| && j != i && c[j].Some?
      ensures c[j].value.name != name
    {
      DefinitionNames(i, j);
    }
    LookupFindsFirst(c, name);
  }

  /** Step 3's render looks every definition up with the lookup as written. In
      an indexed list some lookup throws exactly when the list has a hole among
      the nine definition slots, so such a list never reaches the gate. */
  lemma RenderThrowsIffHole(c: Competencies)
    requires Indexed(c)
    ensures (exists i :: 0 <= i < |CompetencyDefinitions|
               && GetCompetencyAsWritten(c, CompetencyDefinitions[i].name).Err?)
            <==> exists j :: 0 <= j < |c| && j < |CompetencyDefinitions| && c[j].None?
  {
    if exists j :: 0 <= j < |c| && j < |CompetencyDefinitions| && c[j].None? {
      var j :| 0 <= j < |c| && j < |CompetencyDefinitions| && c[j].None?;
      var k := FindIndex(c, (e: Option<CompetencyResponse>) => e.None?).value;
      assert k <= j;
      FirstHoleThrows(c, k);
    }
    if exists i :: 0 <= i < |CompetencyDefinitions|
         && GetCompetencyAsWritten(c, CompetencyDefinitions[i].name).Err? {
      var i :| 0 <= i < |CompetencyDefinitions|
               && GetCompetencyAsWritten(c, CompetencyDefinitions[i].name).Err?;
      ThrowingLookupHasSlotHole(c, i);
    }
  }

  /** The lookup of the definition whose slot is the first hole throws there. */
  lemma FirstHoleThrows(c: Competencies, k: nat)
    requires Indexed(c)
    requires k < |c| && k < |CompetencyDefinitions| && c[k].None?
    requires forall i :: 0 <= i < k ==> c[i].Some?
    ensures GetCompetencyAsWritten(c, CompetencyDefinitions[k].name).Err?
  {
    var name := CompetencyDefinitions[k].name;
    forall i | 0 <= i < k
      ensures c[i].value.name != name
    {
      DefinitionNames(i, k);
    }
  }

  /** A throwing lookup of definition `i` stops at a hole no later than slot `i`. */
  lemma ThrowingLookupHasSlotHole(c: Competencies, i: nat)
    requires Indexed(c) && i < |CompetencyDefinitions|
    requires GetCompetencyAsWritten(c, CompetencyDefinitions[i].name).Err?
    ensures exists j :: 0 <= j < |c| && j < |CompetencyDefinitions| && c[j].None?
  {
    var name := CompetencyDefinitions[i].name;
    var j :| 0 <= j < |c| && c[j].None?
             && forall i' :: 0 <= i' < j ==> c[i'].Some? && c[i'].value.name != name;
    assert i < |c| && c[i].Some? ==> c[i].value.name == name;
    assert j <= i;
  }

  /** Without holes every answer the gate reads is the one the lookup as
      written returns, so there `Step3Gate` is the code's gate. */
  lemma AnswersAsWrittenWithoutHoles(c: Competencies)
    requires forall j :: 0 <= j < |c| ==> c[j].Some?
    ensures forall i :: 0 <= i < |CompetencyDefinitions| ==>
              GetCompetencyAsWritten(c, CompetencyDefinitions[i].name) == Ok(Answer(c, i))
  {
    forall i | 0 <= i < |CompetencyDefinitions|
      ensures GetCompetencyAsWritten(c, CompetencyDefinitions[i].name) == Ok(Answer(c, i))
    {
      LookupsAgreeWithoutHoles(c, CompetencyDefinitions[i].name);
    }
  }

  /** A rating or example typed into definition `i`: written at index `i` under
      that definition's name. */
  function EditCompetency(f: FormData, i: nat, rating: Option<string>, example: Option<string>): (r: FormData)
    requires i < |CompetencyDefinitions|
    ensures i < |r.competencies| && r.competencies[i].Some?
    ensures r.competencies[i].value.name == CompetencyDefinitions[i].name
    ensures r.(competencies := f.competencies) == f
  {
    UpdateCompetency(f, i, CompetencyPatch(Some(CompetencyDefinitions[i].name), rating, example))
  }

  /** Edits keep the list indexed; the edited definition's answer shows the new
      rating or example, and every other definition's answer is unchanged. */
  lemma EditIsVisible(f: FormData, i: nat, rating: Option<string>, example: Option<string>)
    requires i < |CompetencyDefinitions| && Indexed(f.competencies)
    ensures var r := EditCompetency(f, i, rating, example);
            && Indexed(r.competencies)
            && Answer(r.competencies, i).rating == rating.GetOr(Answer(f.competencies, i).rating)
            && Answer(r.competencies, i).example == example.GetOr(Answer(f.competencies, i).example)
            && forall j :: 0 <= j < |CompetencyDefinitions| && j != i ==>
                 Answer(r.competencies, j) == Answer(f.competencies, j)
  {
    var r := EditCompetency(f, i, rating, example);
    assert Indexed(r.competencies);
    AnswerOfIndexed(f.competencies, i);
    AnswerOfIndexed(r.competencies, i);
    forall j | 0 <= j < |CompetencyDefinitions| && j != i
      ensures Answer(r.competencies, j) == Answer(f.competencies, j)
    {
      AnswerOfIndexed(f.competencies, j);
      AnswerOfIndexed(r.competencies, j);
    }
  }
}
