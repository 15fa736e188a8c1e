/** The closed enumerations and the record shapes of the exam-scheduling
    store: subjects, exams, exam terms, rooms and the demo users that stand for
    the logged-in person. Enumerations travel as their string values; each
    `Parse...` accepts exactly those strings. */
module Models {
  import opened Wrappers

  datatype UserRole = Student | Starosta | Prowadzacy | Admin

  datatype TypStudiow = StacjonarneI | StacjonarneII | NiestacjonarneI | NiestacjonarneII

  datatype TermStatus = Proposed | Approved | Rejected

  function RoleName(r: UserRole): string {
    match r
    case Student => "student"
    case Starosta => "starosta"
    case Prowadzacy => "prowadzacy"
    case Admin => "admin"
  }

  /** Reading a role from its stored or transmitted value: exactly the four
      role names are accepted, each giving back the role it names. */
  function ParseRole(s: string): (r: Option<UserRole>)
    ensures r.None? <==> s !in {"student", "starosta", "prowadzacy", "admin"}
    ensures r.Some? ==> RoleName(r.value) == s
  {
    if s == "student" then Some(Student)
    else if s == "starosta" then Some(Starosta)
    else if s == "prowadzacy" then Some(Prowadzacy)
    else if s == "admin" then Some(Admin)
    else None
  }

  function TypName(t: TypStudiow): string {
    match t
    case StacjonarneI => "stacjonarne_I"
    case StacjonarneII => "stacjonarne_II"
    case NiestacjonarneI => "niestacjonarne_I"
    case NiestacjonarneII => "niestacjonarne_II"
  }

  function ParseTyp(s: string): (r: Option<TypStudiow>)
    ensures r.None? <==> s !in {"stacjonarne_I", "stacjonarne_II", "niestacjonarne_I", "niestacjonarne_II"}
    ensures r.Some? ==> TypName(r.value) == s
  {
    if s == "stacjonarne_I" then Some(StacjonarneI)
    else if s == "stacjonarne_II" then Some(StacjonarneII)
    else if s == "niestacjonarne_I" then Some(NiestacjonarneI)
    else if s == "niestacjonarne_II" then Some(NiestacjonarneII)
    else None
  }

  function StatusName(s: TermStatus): string {
    match s
    case Proposed => "proposed"
    case Approved => "approved"
    case Rejected => "rejected"
  }

  function ParseStatus(s: string): (r: Option<TermStatus>)
    ensures r.None? <==> s !in {"proposed", "approved", "rejected"}
    ensures r.Some? ==> StatusName(r.value) == s
  {
    if s == "proposed" then Some(Proposed)
    else if s == "approved" then Some(Approved)
    else if s == "rejected" then Some(Rejected)
    else None
  }

  /** Every enumeration value survives being written as its string and read
      back, so distinct values have distinct names. */
  lemma EnumNamesRoundTrip(r: UserRole, t: TypStudiow, s: TermStatus)
    ensures ParseRole(RoleName(r)) == Some(r)
    ensures ParseTyp(TypName(t)) == Some(t)
    ensures ParseStatus(StatusName(s)) == Some(s)
  {
  }

  /** A person of the demo user list; the cohort fields and the subject are
      optional (`nullable=True`). */
  datatype DemoUser = DemoUser(
    id: int,
    name: string,
    role: UserRole,
    kierunek: Option<string>,
    typ_studiow: Option<TypStudiow>,
    rok: Option<int>,
    przedmiot: Option<string>)

  datatype Subject = Subject(id: int, nazwa: string, kierunek: string, typ_studiow: TypStudiow, rok: int)

  datatype Exam = Exam(id: int, subject_id: int, prowadzacy_name: string)

  /** A proposed, approved or rejected placement of an exam. The proposer is
      required; the approver is absent until a decision is recorded. */
  datatype ExamTerm = ExamTerm(
    id: int,
    exam_id: int,
    data: string,
    godzina: string,
    sala: string,
    proposed_by_role: UserRole,
    proposed_by_name: string,
    approved_by_role: Option<UserRole>,
    approved_by_name: Option<string>,
    status: TermStatus)

  /** The fields a caller supplies when creating a term. */
  datatype ExamTermCreate = ExamTermCreate(
    exam_id: int,
    data: string,
    godzina: string,
    sala: string,
    proposed_by_role: UserRole,
    proposed_by_name: string)

  /** The fields of a decision on a term. */
  datatype ExamTermApprove = ExamTermApprove(approved_by_role: UserRole, approved_by_name: string, status: TermStatus)

  datatype Room = Room(id: int, nazwa: string, budynek: string, pojemnosc: int, typ: Option<string>)

  datatype RoomCreate = RoomCreate(nazwa: string, budynek: string, pojemnosc: int, typ: Option<string>)

  /** The row a new term becomes: the caller's fields, status `proposed` by
      default and no approver yet. */
  function NewExamTerm(id: int, c: ExamTermCreate): (t: ExamTerm)
    ensures t.status == Proposed
    ensures t.approved_by_role.None? && t.approved_by_name.None?
    ensures t.proposed_by_role == c.proposed_by_role && t.proposed_by_name == c.proposed_by_name
  {
    ExamTerm(id, c.exam_id, c.data, c.godzina, c.sala, c.proposed_by_role, c.proposed_by_name, None, None, Proposed)
  }

  function NewRoom(id: int, c: RoomCreate): Room {
    Room(id, c.nazwa, c.budynek, c.pojemnosc, c.typ)
  }

  /** The `unique=True` constraint on room names. */
  predicate RoomNamesUnique(rooms: seq<Room>) {
    forall i, j :: 0 <= i < j < |rooms| ==> rooms[i].nazwa != rooms[j].nazwa
  }
}
