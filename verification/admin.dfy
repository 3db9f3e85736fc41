/** The answer sheets of the two evaluator pages (interview and screening):
    a map from question keys to free-text answers, the set of keys marked in
    error, and the success flag. Both pages validate, edit, submit and keep a
    draft the same way; they differ only in which keys are checked, what
    counts as blank, and the names of their drafts. */
module AnswerSheet {
  import opened Wrappers
  import opened ApplicationForm

  /** What distinguishes one page from the other. */
  datatype Rules<!K> = Rules(
    checked: K -> bool,
    blank: string -> bool,
    draftPrefix: string,
    failureAlert: string)

  /** `formData` (the keys present and their answers), `errors` (the keys
      marked in error) and `showSuccessModal`. */
  datatype Sheet<K(==)> = Sheet(answers: map<K, string>, errors: set<K>, showSuccess: bool)

  /** The keys that fail validation: present, checked, and blank. */
  function Failing<K(==)>(answers: map<K, string>, rules: Rules<K>): set<K> {
    set k | k in answers && rules.checked(k) && rules.blank(answers[k])
  }

  /** `validateForm`: visits every key of the form once (`Object.keys`),
      rebuilds the error marks from scratch and reports whether none was set. */
  method Validate<K(==)>(answers: map<K, string>, rules: Rules<K>) returns (valid: bool, errors: set<K>)
    ensures forall k :: k in errors <==> k in answers && rules.checked(k) && rules.blank(answers[k])
    ensures valid <==> errors == {}
  {
    errors := {};
    valid := true;
    var remaining := answers.Keys;
    while remaining != {}
      invariant remaining <= answers.Keys
      invariant forall k :: k in errors <==>
                  k in answers && k !in remaining && rules.checked(k) && rules.blank(answers[k])
      invariant valid <==> errors == {}
      decreases |remaining|
    {
      var k :| k in remaining;
      if rules.checked(k) && rules.blank(answers[k]) {
        errors := errors + {k};
        valid := false;
      }
      remaining := remaining - {k};
    }
  }

  /** The method computes the reference set. */
  lemma ValidateComputesFailing<K>(answers: map<K, string>, rules: Rules<K>, errors: set<K>)
    requires forall k :: k in errors <==> k in answers && rules.checked(k) && rules.blank(answers[k])
    ensures errors == Failing(answers, rules)
  {
  }

  /** `handleFieldChange`: one answer is replaced and only that key's mark is
      cleared. */
  function ChangeField<K(==)>(s: Sheet<K>, k: K, v: string): (r: Sheet<K>)
    ensures k in r.answers && r.answers[k] == v
    ensures r.answers.Keys == s.answers.Keys + {k}
    ensures forall j :: j in s.answers && j != k ==> r.answers[j] == s.answers[j]
    ensures r.errors == s.errors - {k}
    ensures r.showSuccess == s.showSuccess
  {
    Sheet(s.answers[k := v], s.errors - {k}, s.showSuccess)
  }

  /** Editing one answer changes the next validation's verdict on that key
      alone, and on that key it is decided by the new answer. */
  lemma ChangeThenValidate<K>(s: Sheet<K>, k: K, v: string, rules: Rules<K>)
    ensures var after := Failing(ChangeField(s, k, v).answers, rules);
            && (k in after <==> rules.checked(k) && rules.blank(v))
            && (forall j :: j != k ==> (j in after <==> j in Failing(s.answers, rules)))
  {
    var a := ChangeField(s, k, v).answers;
    forall j | j != k
      ensures j in Failing(a, rules) <==> j in Failing(s.answers, rules)
    {
      if j in a {
        assert a[j] == s.answers[j];
      }
    }
  }

  /** The storage key of a draft. */
  function DraftKey(rules: Rules, id: string): string {
    rules.draftPrefix + id
  }

  /** What a press of "finish" leaves behind: the sheet, browser storage, the
      alert shown (if any), and whether the answers were sent. */
  datatype Outcome<K(==)> = Outcome(sheet: Sheet<K>, store: Store, alert: Option<string>, sent: bool)

  const IncompleteAlert := "Por favor, preencha todas as respostas antes de finalizar."
  const MissingIdAlert := "ID da candidatura não encontrado."

  /** `handleSubmit`: validation first, then the id (an empty one counts as
      missing), then the send. `sendOk` means the awaited send did not throw;
      whatever it returns is ignored. Only a send that did not throw removes
      the draft and shows the success modal; a thrown one alerts. */
  function Submit<K(==)>(s: Sheet<K>, rules: Rules<K>, id: string, store: Store, sendOk: bool): (r: Outcome<K>)
    ensures r.sheet.errors == Failing(s.answers, rules)
    ensures r.sheet.answers == s.answers
    ensures r.sent <==> Failing(s.answers, rules) == {} && id != ""
    ensures Failing(s.answers, rules) != {} ==> r.alert == Some(IncompleteAlert)
    ensures Failing(s.answers, rules) == {} && id == "" ==> r.alert == Some(MissingIdAlert)
    ensures r.sent && sendOk ==> r.store == store - {DraftKey(rules, id)} && r.sheet.showSuccess && r.alert.None?
    ensures !(r.sent && sendOk) ==> r.store == store && r.sheet.showSuccess == s.showSuccess
    ensures r.sent && !sendOk ==> r.alert == Some(rules.failureAlert)
  {
    var errors := Failing(s.answers, rules);
    var marked := s.(errors := errors);
    if errors != {} then Outcome(marked, store, Some(IncompleteAlert), false)
    else if id == "" then Outcome(marked, store, Some(MissingIdAlert), false)
    else if sendOk then Outcome(marked.(showSuccess := true), store - {DraftKey(rules, id)}, None, true)
    else Outcome(marked, store, Some(rules.failureAlert), true)
  }

  /** The save effect: the serialized answers are written under the draft key
      only with an id, after initialisation, and before success. */
  function SaveEffect<K(==)>(store: Store, s: Sheet<K>, rules: Rules<K>, id: string, initialized: bool, serialized: string): (r: Store)
    ensures id != "" && !s.showSuccess && initialized ==> r == store[DraftKey(rules, id) := serialized]
    ensures !(id != "" && !s.showSuccess && initialized) ==> r == store
  {
    if id != "" && !s.showSuccess && initialized then store[DraftKey(rules, id) := serialized] else store
  }

  /** Once the answers are sent, the draft is gone and the save effect, which
      runs again on the changed flag, does not bring it back. */
  lemma SentDraftStaysRemoved<K>(s: Sheet<K>, rules: Rules<K>, id: string, store: Store,
                                      initialized: bool, serialized: string)
    requires Failing(s.answers, rules) == {} && id != ""
    ensures var r := Submit(s, rules, id, store, true);
            DraftKey(rules, id) !in SaveEffect(r.store, r.sheet, rules, id, initialized, serialized)
  {
  }

  /** A refused attempt or a send that threw removes nothing, so a draft saved earlier is
      still stored. It also leaves the answers, the id and the success flag as
      they were, so the save effect, which runs only when one of those
      changes, has nothing new to write: its result is the one before the
      attempt. */
  lemma FailedAttemptKeepsDraft<K>(s: Sheet<K>, rules: Rules<K>, id: string, store: Store,
                                        sendOk: bool, serialized: string)
    requires !(Submit(s, rules, id, store, sendOk).sent && sendOk)
    ensures var r := Submit(s, rules, id, store, sendOk);
            && (DraftKey(rules, id) in store ==>
                  DraftKey(rules, id) in r.store && r.store[DraftKey(rules, id)] == store[DraftKey(rules, id)])
            && r.sheet.answers == s.answers && r.sheet.showSuccess == s.showSuccess
            && SaveEffect(r.store, r.sheet, rules, id, true, serialized)
               == SaveEffect(store, s, rules, id, true, serialized)
  {
  }
}

/** The interview sheet: fifteen free-text questions and whether the candidate
    is currently employed. */
module InterviewSheet {
  import opened Wrappers
  import opened AnswerSheet

  datatype Question =
    | Q1_1 | Q1_2 | Q1_3 | Q1_4 | Q1_5
    | Q2_1 | Q2_2
    | Q3_1 | Q3_2 | Q3_3 | Q3_4
    | Q4_1 | Q4_2 | Q4_3
    | Q6_1

  const Questions: seq<Question> :=
    [Q1_1, Q1_2, Q1_3, Q1_4, Q1_5, Q2_1, Q2_2, Q3_1, Q3_2, Q3_3, Q3_4, Q4_1, Q4_2, Q4_3, Q6_1]

  /** Position of a question in the declared order: every question is listed. */
  function QuestionIndex(q: Question): (i: nat)
    ensures i < |Questions| && Questions[i] == q
  {
    match q
    case Q1_1 => 0 case Q1_2 => 1 case Q1_3 => 2 case Q1_4 => 3 case Q1_5 => 4
    case Q2_1 => 5 case Q2_2 => 6
    case Q3_1 => 7 case Q3_2 => 8 case Q3_3 => 9 case Q3_4 => 10
    case Q4_1 => 11 case Q4_2 => 12 case Q4_3 => 13
    case Q6_1 => 14
  }

  /** The question about why the candidate left applies only to someone not
      currently employed; the employment flag itself is never validated. */
  function Checked(currentlyEmployed: bool): Question -> bool {
    q => !(q == Q1_5 && currentlyEmployed)
  }

  /** `!value`: only the empty string is blank; white space is an answer. */
  function InterviewRules(currentlyEmployed: bool): Rules<Question> {
    Rules(Checked(currentlyEmployed), (s: string) => s == "", "interview-draft-",
          "Erro ao salvar a entrevista. Tente novamente.")
  }

  datatype Interview = Interview(currentlyEmployed: bool, sheet: Sheet<Question>)

  /** The page's initial state: employed, every answer empty, nothing marked. */
  function InitialInterview(): (iv: Interview)
    ensures iv.currentlyEmployed && iv.sheet.errors == {} && !iv.sheet.showSuccess
    ensures forall q :: q in iv.sheet.answers && iv.sheet.answers[q] == ""
  {
    var answers := map q | q in Questions :: "";
    assert forall q :: Questions[QuestionIndex(q)] == q && q in answers;
    Interview(true, Sheet(answers, {}, false))
  }

  function InterviewFailing(iv: Interview): set<Question> {
    Failing(iv.sheet.answers, InterviewRules(iv.currentlyEmployed))
  }

  /** The interview validates exactly when every present question, except the
      leaving question for an employed candidate, has a non-empty answer. */
  lemma InterviewValidIff(iv: Interview)
    ensures InterviewFailing(iv) == {} <==>
              forall q :: q in iv.sheet.answers && (q != Q1_5 || !iv.currentlyEmployed) ==>
                iv.sheet.answers[q] != ""
  {
    if InterviewFailing(iv) == {} {
      forall q | q in iv.sheet.answers && (q != Q1_5 || !iv.currentlyEmployed)
        ensures iv.sheet.answers[q] != ""
      {
        assert q !in InterviewFailing(iv);
      }
    }
  }

  /** Freshly opened, every question but the leaving one is marked on
      "finish"; switching the flag off makes the leaving question count too. */
  lemma InitialInterviewMarks()
    ensures var iv := InitialInterview();
            && (forall q :: q in InterviewFailing(iv) <==> q != Q1_5)
            && (forall q :: q in InterviewFailing(ChangeEmployment(iv, false)))
  {
    var iv := InitialInterview();
    assert forall q :: q in InterviewFailing(iv) <==> q != Q1_5;
  }

  /** A white-space answer is accepted. */
  lemma WhitespaceAnswerAccepted(iv: Interview, q: Question)
    requires q in iv.sheet.answers && iv.sheet.answers[q] == " "
    ensures q !in InterviewFailing(iv)
  {
  }

  /** Toggling the employment flag changes no answer and no mark. */
  function ChangeEmployment(iv: Interview, employed: bool): (r: Interview)
    ensures r.sheet == iv.sheet && r.currentlyEmployed == employed
  {
    iv.(currentlyEmployed := employed)
  }
}

/** The screening sheet: five free-text questions, every one required, blank
    after trimming counted as missing. */
module ScreeningSheet {
  import opened Text
  import opened AnswerSheet

  datatype Question = Question1 | Question2 | Question3 | Question4 | Question5

  /** `!value.trim()`. */
  function ScreeningRules(): Rules<Question> {
    Rules((q: Question) => true, (s: string) => Trim(s) == "", "screening-draft-",
          "Erro ao salvar a triagem. Tente novamente.")
  }

  function ScreeningFailing(s: Sheet<Question>): set<Question> {
    Failing(s.answers, ScreeningRules())
  }

  /** The screening validates exactly when every present answer has a
      character that is not white space. */
  lemma ScreeningValidIff(s: Sheet<Question>)
    ensures ScreeningFailing(s) == {} <==>
              forall q :: q in s.answers ==> exists i :: 0 <= i < |s.answers[q]| && !IsWhitespace(s.answers[q][i])
  {
    forall q | q in s.answers
      ensures q in ScreeningFailing(s) <==> forall i :: 0 <= i < |s.answers[q]| ==> IsWhitespace(s.answers[q][i])
    {
      TrimEmptyIffBlank(s.answers[q]);
    }
    if ScreeningFailing(s) == {} {
      forall q | q in s.answers
        ensures exists i :: 0 <= i < |s.answers[q]| && !IsWhitespace(s.answers[q][i])
      {
        assert q !in ScreeningFailing(s);
      }
    }
  }

  /** Unlike the interview, a white-space answer is missing. */
  lemma WhitespaceAnswerRejected(s: Sheet<Question>, q: Question)
    requires q in s.answers && s.answers[q] == " "
    ensures q in ScreeningFailing(s)
  {
    TrimEmptyIffBlank(" ");
  }
}
