/** The proposal form: who gets it, which exams it offers, the required-field
    check and the proposal it sends, and the room pre-check it runs while the
    form is filled in. The form's state (its fields, the error text, the
    pre-check message and the busy flag) is a class whose handlers update it. */
module ProposeTermForm {
  import opened Wrappers
  import opened Models
  import Crud
  import Strings
  import RoomsRouter
  import ExamList

  /** A form value as JavaScript holds it: text typed into a field, the
      initial number, or `undefined`. */
  datatype JsValue = JsStr(s: string) | JsNum(n: int) | JsUndefined

  predicate Truthy(v: JsValue) {
    match v
    case JsStr(s) => s != ""
    case JsNum(n) => n != 0
    case JsUndefined => false
  }

  /** `parseInt` of a form value (`None` is `NaN`). */
  function ParseIntValue(v: JsValue): Option<int> {
    match v
    case JsStr(s) => Strings.ParseIntJs(s)
    case JsNum(n) => Strings.ParseIntJs(Strings.IntToDecimal(n))
    case JsUndefined => None
  }

  datatype FormData = FormData(exam_id: string, data: string, godzina: string, sala: string, liczba_osob: JsValue)

  /** The named inputs of the form. */
  datatype Field = ExamIdField | DataField | GodzinaField | SalaField | LiczbaOsobField

  /** The form as it starts: empty fields and a headcount of 30. */
  function InitialFormData(): FormData {
    FormData("", "", "", "", JsNum(30))
  }

  /** The form after `field` is given the text `value`. */
  function ChangeField(f: FormData, field: Field, value: string): FormData {
    match field
    case ExamIdField => f.(exam_id := value)
    case DataField => f.(data := value)
    case GodzinaField => f.(godzina := value)
    case SalaField => f.(sala := value)
    case LiczbaOsobField => f.(liczba_osob := JsStr(value))
  }

  /** Only instructors and student representatives get the form. */
  function FormShown(user: Option<DemoUser>): (shown: bool)
    ensures shown ==> user.Some?
    ensures user.Some? ==> (shown <==> user.value.role in {Prowadzacy, Starosta})
  {
    user.Some? && (user.value.role == Prowadzacy || user.value.role == Starosta)
  }

  /** Whoever may propose needs somebody else to decide: the proposer's own
      role may not, and besides the admin exactly one other role may. */
  lemma ProposalsNeedOtherSide(user: DemoUser)
    requires FormShown(Some(user))
    ensures !ExamList.CanApprove(user.role, user.role)
    ensures ExamList.CanApprove(Admin, user.role)
    ensures exists other :: other != Admin && other != user.role && ExamList.CanApprove(other, user.role)
  {
    if user.role == Prowadzacy {
      assert ExamList.CanApprove(Starosta, user.role);
    } else {
      assert ExamList.CanApprove(Prowadzacy, user.role);
    }
  }

  /** The exam listing the form requests: an instructor filters by the
      instructor name (taken from the user's `przedmiot`), a representative by
      the cohort, anyone else sends no filter. */
  function ExamQueryFor(user: DemoUser): (q: Crud.ExamQuery)
    ensures user.role == Prowadzacy ==> q == Crud.ExamQuery(None, None, None, user.przedmiot)
    ensures user.role == Starosta ==> q == Crud.ExamQuery(user.kierunek, user.typ_studiow, user.rok, None)
    ensures user.role !in {Prowadzacy, Starosta} ==> q == Crud.ExamQuery(None, None, None, None)
  {
    if user.role == Prowadzacy then Crud.ExamQuery(None, None, None, user.przedmiot)
    else if user.role == Starosta then Crud.ExamQuery(user.kierunek, user.typ_studiow, user.rok, None)
    else Crud.ExamQuery(None, None, None, None)
  }

  /** The exams the form offers: a representative with a full cohort gets
      exactly the exams of that cohort, an instructor with a `przedmiot`
      exactly the exams under that instructor name, anyone else every exam
      that has a subject. */
  lemma ExamsOffered(user: DemoUser, exams: seq<Exam>, subjects: seq<Subject>, e: Exam)
    requires e in exams
    ensures var offered := Crud.GetExams(exams, subjects, ExamQueryFor(user));
            var s := Crud.FindSubject(subjects, e.subject_id);
            && (user.role == Starosta && Crud.StrGiven(user.kierunek) && user.typ_studiow.Some? && Crud.IntGiven(user.rok)
                ==> (e in offered <==> && s.Some?
                                       && s.value.kierunek == user.kierunek.value
                                       && s.value.typ_studiow == user.typ_studiow.value
                                       && s.value.rok == user.rok.value))
            && (user.role == Prowadzacy && Crud.StrGiven(user.przedmiot)
                ==> (e in offered <==> s.Some? && e.prowadzacy_name == user.przedmiot.value))
            && (user.role !in {Prowadzacy, Starosta} ==> (e in offered <==> s.Some?))
  {
    var offered := Crud.GetExams(exams, subjects, ExamQueryFor(user));
    assert e in offered <==> multiset(offered)[e] > 0;
    assert multiset(exams)[e] > 0;
  }

  /** Submission is refused when any of exam, date, hour or room is empty. */
  predicate MissingRequired(f: FormData) {
    f.exam_id == "" || f.data == "" || f.godzina == "" || f.sala == ""
  }

  /** The body of a new proposal: the form's fields, the exam id as a number
      (`None` for `NaN`) and the user as proposer. */
  datatype ProposalPayload = ProposalPayload(
    exam_id: Option<int>,
    data: string,
    godzina: string,
    sala: string,
    liczba_osob: JsValue,
    proposed_by_role: UserRole,
    proposed_by_name: string)

  function ProposalFor(f: FormData, user: DemoUser): (p: ProposalPayload)
    ensures p.exam_id == Strings.ParseIntJs(f.exam_id)
    ensures p.data == f.data && p.godzina == f.godzina && p.sala == f.sala && p.liczba_osob == f.liczba_osob
    ensures p.proposed_by_role == user.role && p.proposed_by_name == user.name
  {
    ProposalPayload(Strings.ParseIntJs(f.exam_id), f.data, f.godzina, f.sala, f.liczba_osob, user.role, user.name)
  }

  /** The exam chosen in the select (whose option value is the exam's id as
      text) arrives as that exam's id. */
  lemma ChosenExamArrives(f: FormData, user: DemoUser, e: Exam)
    requires f.exam_id == Strings.IntToDecimal(e.id)
    ensures ProposalFor(f, user).exam_id == Some(e.id)
  {
    Strings.ParseIntOfDecimal(e.id);
  }

  /** The form after exam, date, hour and room are typed in, in that order. */
  function FillRequired(f: FormData, exam_id: string, data: string, godzina: string, sala: string): FormData {
    ChangeField(ChangeField(ChangeField(ChangeField(f, ExamIdField, exam_id), DataField, data), GodzinaField, godzina), SalaField, sala)
  }

  /** Submission is allowed exactly when the four required fields were given
      non-empty text, whatever the headcount; both the initial form and the
      form after a reset are refused. */
  lemma RequiredFieldsGate(f: FormData, exam_id: string, data: string, godzina: string, sala: string)
    ensures !MissingRequired(FillRequired(f, exam_id, data, godzina, sala))
            <==> exam_id != "" && data != "" && godzina != "" && sala != ""
    ensures FillRequired(f, exam_id, data, godzina, sala).liczba_osob == f.liczba_osob
    ensures MissingRequired(InitialFormData()) && MissingRequired(ResetAsWritten())
  {
  }

  /** The room pre-check runs only once room, date, hour and headcount are
      all filled in. */
  predicate PreCheckEnabled(f: FormData) {
    f.sala != "" && f.data != "" && f.godzina != "" && Truthy(f.liczba_osob)
  }

  /** An undefined headcount keeps the pre-check off; typing any non-empty
      headcount text (even "0", which is a non-empty string) turns it on once
      room, date and hour are filled. */
  lemma PreCheckGate(f: FormData, v: string)
    ensures f.liczba_osob == JsUndefined ==> !PreCheckEnabled(f)
    ensures PreCheckEnabled(ChangeField(f, LiczbaOsobField, v))
            <==> f.sala != "" && f.data != "" && f.godzina != "" && v != ""
  {
  }

  /** The pre-check request: the form's room, date, hour and parsed headcount. */
  datatype PreCheck = PreCheck(sala: string, data: string, godzina: string, liczba_osob: Option<int>)

  /** The server's answer to a submission: created, or an error with an
      optional detail text. */
  datatype SubmitOutcome = Created | Failed(detail: Option<string>)

  function FailureText(detail: Option<string>): (r: string)
    ensures r != ""
    ensures detail.Some? && detail.value != "" ==> r == detail.value
    ensures !(detail.Some? && detail.value != "") ==> r == "Błąd dodawania propozycji"
  {
    if detail.Some? && detail.value != "" then detail.value else "Błąd dodawania propozycji"
  }

  // ------------------------------------------------------ the reset on success

  /** The reset written after a successful submission: it lists four fields
      and drops the headcount, which becomes `undefined`. */
  function ResetAsWritten(): FormData {
    FormData("", "", "", "", JsUndefined)
  }

  /** After that reset, filling in room, date and hour again never re-enables
      the pre-check while the headcount input is left as displayed. */
  lemma ResetAsWrittenSilencesPreCheck(sala: string, data: string, godzina: string)
    requires sala != "" && data != "" && godzina != ""
    ensures var f := ChangeField(ChangeField(ChangeField(ResetAsWritten(), SalaField, sala), DataField, data), GodzinaField, godzina);
            !PreCheckEnabled(f) && f.liczba_osob == JsUndefined
  {
  }

  /** The corrected reset returns to the initial form, so the same steps
      re-enable the pre-check with the default headcount. */
  lemma ResetToInitialKeepsPreCheck(sala: string, data: string, godzina: string)
    requires sala != "" && data != "" && godzina != ""
    ensures var f := ChangeField(ChangeField(ChangeField(InitialFormData(), SalaField, sala), DataField, data), GodzinaField, godzina);
            PreCheckEnabled(f) && ParseIntValue(f.liczba_osob) == Some(30)
  {
    Strings.ParseIntOfDecimal(30);
  }

  /** The form's state and its event handlers. */
  class Form {
    var formData: FormData
    var error: string
    var validationMessage: string
    var loading: bool

    constructor()
      ensures formData == InitialFormData() && error == "" && validationMessage == "" && !loading
    {
      formData := InitialFormData();
      error := "";
      validationMessage := "";
      loading := false;
    }

    /** A keystroke or selection: only the named field changes. */
    method HandleChange(field: Field, value: string)
      modifies this
      ensures formData == ChangeField(old(formData), field, value)
      ensures error == old(error) && validationMessage == old(validationMessage) && loading == old(loading)
    {
      formData := ChangeField(formData, field, value);
    }

    /** Submits the form for `user`; `outcome` is the server's answer. An
        incomplete form sends nothing and reports an error; a created
        proposal clears the four text fields and, as written, drops the
        headcount (see `ResetAsWritten`). */
    method HandleSubmit(user: DemoUser, outcome: SubmitOutcome) returns (sent: Option<ProposalPayload>)
      requires FormShown(Some(user))
      modifies this
      ensures sent.None? <==> MissingRequired(old(formData))
      ensures sent.None? ==> error == "Wszystkie pola są wymagane" && formData == old(formData)
      ensures sent.Some? ==> sent.value == ProposalFor(old(formData), user)
      ensures sent.Some? && outcome.Created? ==> formData == ResetAsWritten() && error == ""
      ensures sent.Some? && outcome.Failed? ==> formData == old(formData) && error == FailureText(outcome.detail)
      ensures !loading && validationMessage == old(validationMessage)
    {
      error := "";
      loading := true;
      if MissingRequired(formData) {
        error := "Wszystkie pola są wymagane";
        loading := false;
        sent := None;
        return;
      }
      sent := Some(ProposalFor(formData, user));
      match outcome {
        case Created =>
          formData := ResetAsWritten();
        case Failed(detail) =>
          error := FailureText(detail);
      }
      loading := false;
    }

    /** The room pre-check; `response` is the server's answer, `None` when the
        request failed. An incomplete form sends nothing. */
    method ValidateRoomAvailability(response: Option<RoomsRouter.AvailabilityResponse>) returns (sent: Option<PreCheck>)
      modifies this
      ensures sent.None? <==> !PreCheckEnabled(old(formData))
      ensures sent.Some? ==> sent.value == PreCheck(formData.sala, formData.data, formData.godzina, ParseIntValue(formData.liczba_osob))
      ensures formData == old(formData) && loading == old(loading)
      ensures sent.None? || response.None? ==> error == old(error) && validationMessage == old(validationMessage)
      ensures sent.Some? && response.Some? && response.value.available
              ==> validationMessage == "✓ " + response.value.message && error == ""
      ensures sent.Some? && response.Some? && !response.value.available
              ==> validationMessage == "" && error == response.value.message
    {
      if !PreCheckEnabled(formData) {
        return None;
      }
      sent := Some(PreCheck(formData.sala, formData.data, formData.godzina, ParseIntValue(formData.liczba_osob)));
      if response.Some? {
        if response.value.available {
          validationMessage := "✓ " + response.value.message;
          error := "";
        } else {
          validationMessage := "";
          error := response.value.message;
        }
      }
    }
  }
}
