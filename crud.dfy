/** The backend's store operations: filtered listings, the room-slot and
    cohort-day conflict checks, the combined room/capacity/slot decision, and
    the inserts and the approval update that change the tables in place.

    Tables are sequences in row order. Every id is a primary key, so a join
    from a term to its exam and from an exam to its subject finds at most one
    row. Optional filter arguments follow Python truthiness: a string filter
    applies only when present and non-empty, an integer filter only when
    present and non-zero, an enumeration filter whenever present. */
module Crud {
  import opened Wrappers
  import opened Models
  import Strings
  import Sorting

  predicate StrGiven(o: Option<string>) {
    o.Some? && o.value != ""
  }

  predicate IntGiven(o: Option<int>) {
    o.Some? && o.value != 0
  }

  /** The rows of `xs` that satisfy `p`, in row order. */
  function Where<T(==,!new)>(xs: seq<T>, p: T -> bool): (r: seq<T>)
    ensures forall x :: multiset(r)[x] == if p(x) then multiset(xs)[x] else 0
  {
    if |xs| == 0 then []
    else
      assert xs == [xs[0]] + xs[1..];
      var rest := Where(xs[1..], p);
      if p(xs[0]) then [xs[0]] + rest else rest
  }

  // ------------------------------------------------------------------ joins

  function FindSubject(subjects: seq<Subject>, id: int): (r: Option<Subject>)
    ensures r.None? <==> forall s :: s in subjects ==> s.id != id
    ensures r.Some? ==> r.value in subjects && r.value.id == id
  {
    if |subjects| == 0 then None
    else if subjects[0].id == id then Some(subjects[0])
    else FindSubject(subjects[1..], id)
  }

  function FindExam(exams: seq<Exam>, id: int): (r: Option<Exam>)
    ensures r.None? <==> forall e :: e in exams ==> e.id != id
    ensures r.Some? ==> r.value in exams && r.value.id == id
  {
    if |exams| == 0 then None
    else if exams[0].id == id then Some(exams[0])
    else FindExam(exams[1..], id)
  }

  /** The subject a term belongs to through its exam, if both rows exist. */
  function TermSubject(t: ExamTerm, exams: seq<Exam>, subjects: seq<Subject>): Option<Subject> {
    match FindExam(exams, t.exam_id)
    case None => None
    case Some(e) => FindSubject(subjects, e.subject_id)
  }

  predicate CohortMatches(s: Subject, kierunek: Option<string>, typ_studiow: Option<TypStudiow>, rok: Option<int>) {
    && (StrGiven(kierunek) ==> s.kierunek == kierunek.value)
    && (typ_studiow.Some? ==> s.typ_studiow == typ_studiow.value)
    && (IntGiven(rok) ==> s.rok == rok.value)
  }

  // ---------------------------------------------------------------- queries

  datatype SubjectQuery = SubjectQuery(kierunek: Option<string>, typ_studiow: Option<TypStudiow>, rok: Option<int>)

  datatype ExamQuery = ExamQuery(
    kierunek: Option<string>,
    typ_studiow: Option<TypStudiow>,
    rok: Option<int>,
    prowadzacy_name: Option<string>)

  datatype TermQuery = TermQuery(
    kierunek: Option<string>,
    typ_studiow: Option<TypStudiow>,
    rok: Option<int>,
    status: Option<TermStatus>)

  predicate SubjectSelected(s: Subject, q: SubjectQuery) {
    CohortMatches(s, q.kierunek, q.typ_studiow, q.rok)
  }

  /** The subjects passing every supplied filter, each as often as stored. */
  function GetSubjects(subjects: seq<Subject>, q: SubjectQuery): (r: seq<Subject>)
    ensures forall s :: multiset(r)[s] == if SubjectSelected(s, q) then multiset(subjects)[s] else 0
  {
    Where(subjects, s => SubjectSelected(s, q))
  }

  predicate ExamSelected(e: Exam, subjects: seq<Subject>, q: ExamQuery) {
    && FindSubject(subjects, e.subject_id).Some?
    && CohortMatches(FindSubject(subjects, e.subject_id).value, q.kierunek, q.typ_studiow, q.rok)
    && (StrGiven(q.prowadzacy_name) ==> e.prowadzacy_name == q.prowadzacy_name.value)
  }

  /** The exams that have a subject and pass every supplied filter. */
  function GetExams(exams: seq<Exam>, subjects: seq<Subject>, q: ExamQuery): (r: seq<Exam>)
    ensures forall e :: multiset(r)[e] == if ExamSelected(e, subjects, q) then multiset(exams)[e] else 0
  {
    Where(exams, e => ExamSelected(e, subjects, q))
  }

  predicate TermSelected(t: ExamTerm, exams: seq<Exam>, subjects: seq<Subject>, q: TermQuery) {
    && TermSubject(t, exams, subjects).Some?
    && CohortMatches(TermSubject(t, exams, subjects).value, q.kierunek, q.typ_studiow, q.rok)
    && (q.status.Some? ==> t.status == q.status.value)
  }

  /** The ORDER BY key of the term listing: date, then hour. */
  function SlotKey(t: ExamTerm): seq<string> {
    [t.data, t.godzina]
  }

  /** The terms whose exam and subject exist and that pass every supplied
      filter, each as often as stored, ordered by date and then hour (the
      order among equal keys is not fixed by the query). */
  function GetExamTerms(terms: seq<ExamTerm>, exams: seq<Exam>, subjects: seq<Subject>, q: TermQuery): (r: seq<ExamTerm>)
    ensures forall t :: multiset(r)[t] == if TermSelected(t, exams, subjects, q) then multiset(terms)[t] else 0
    ensures Sorting.SortedBy(r, SlotKey)
  {
    Sorting.SortBy(Where(terms, t => TermSelected(t, exams, subjects, q)), SlotKey)
  }

  /** Dropping a filter (passing None, or a falsy value) never hides a term. */
  lemma {:induction false} FalsyFiltersIgnored(terms: seq<ExamTerm>, exams: seq<Exam>, subjects: seq<Subject>, q: TermQuery)
    requires !StrGiven(q.kierunek) && !IntGiven(q.rok)
    ensures GetExamTerms(terms, exams, subjects, q)
         == GetExamTerms(terms, exams, subjects, q.(kierunek := None, rok := None))
  {
    var q' := q.(kierunek := None, rok := None);
    assert forall t :: TermSelected(t, exams, subjects, q) == TermSelected(t, exams, subjects, q');
    WhereCongruent(terms, t => TermSelected(t, exams, subjects, q), t => TermSelected(t, exams, subjects, q'));
  }

  lemma {:induction false} WhereCongruent<T(!new)>(xs: seq<T>, p: T -> bool, p': T -> bool)
    requires forall x :: p(x) == p'(x)
    ensures Where(xs, p) == Where(xs, p')
  {
    if |xs| > 0 {
      WhereCongruent(xs[1..], p, p');
    }
  }

  // ------------------------------------------------------- conflict checks

  /** The term with id `exclude` is skipped, unless the id is missing or 0. */
  predicate Excluded(t: ExamTerm, exclude: Option<int>) {
    IntGiven(exclude) && t.id == exclude.value
  }

  /** `t` holds room `sala` at exactly this date and hour. */
  predicate OccupiesSlot(t: ExamTerm, data: string, godzina: string, sala: string, exclude: Option<int>) {
    t.data == data && t.godzina == godzina && t.sala == sala && t.status != Rejected && !Excluded(t, exclude)
  }

  /** The room is free at the slot iff no stored, not rejected and not
      excluded term has exactly that date, hour and room. */
  function RoomSlotFree(terms: seq<ExamTerm>, data: string, godzina: string, sala: string, exclude: Option<int>): (free: bool)
    ensures free <==> forall t :: t in terms ==> !OccupiesSlot(t, data, godzina, sala, exclude)
  {
    if |terms| == 0 then true
    else !OccupiesSlot(terms[0], data, godzina, sala, exclude) && RoomSlotFree(terms[1..], data, godzina, sala, exclude)
  }

  /** `t` is an exam of the cohort on that date. Unlike the listing filters,
      every cohort field is compared, whatever its value. */
  predicate BlocksCohortDay(
    t: ExamTerm, exams: seq<Exam>, subjects: seq<Subject>,
    data: string, kierunek: string, typ_studiow: TypStudiow, rok: int, exclude: Option<int>)
  {
    && t.data == data
    && TermSubject(t, exams, subjects).Some?
    && TermSubject(t, exams, subjects).value.kierunek == kierunek
    && TermSubject(t, exams, subjects).value.typ_studiow == typ_studiow
    && TermSubject(t, exams, subjects).value.rok == rok
    && t.status != Rejected
    && !Excluded(t, exclude)
  }

  /** The cohort has no other exam that day iff no stored term blocks it. */
  function CohortDayFree(
    terms: seq<ExamTerm>, exams: seq<Exam>, subjects: seq<Subject>,
    data: string, kierunek: string, typ_studiow: TypStudiow, rok: int, exclude: Option<int>): (free: bool)
    ensures free <==> forall t :: t in terms ==> !BlocksCohortDay(t, exams, subjects, data, kierunek, typ_studiow, rok, exclude)
  {
    if |terms| == 0 then true
    else
      && !BlocksCohortDay(terms[0], exams, subjects, data, kierunek, typ_studiow, rok, exclude)
      && CohortDayFree(terms[1..], exams, subjects, data, kierunek, typ_studiow, rok, exclude)
  }

  /** A rejected term, wherever it stands in the table, makes neither a room
      slot nor a cohort day unavailable. */
  lemma RejectedNeverBlocks(
    before: seq<ExamTerm>, t: ExamTerm, after: seq<ExamTerm>, exams: seq<Exam>, subjects: seq<Subject>,
    data: string, godzina: string, sala: string, kierunek: string, typ_studiow: TypStudiow, rok: int, exclude: Option<int>)
    requires t.status == Rejected
    ensures RoomSlotFree(before + [t] + after, data, godzina, sala, exclude)
         == RoomSlotFree(before + after, data, godzina, sala, exclude)
    ensures CohortDayFree(before + [t] + after, exams, subjects, data, kierunek, typ_studiow, rok, exclude)
         == CohortDayFree(before + after, exams, subjects, data, kierunek, typ_studiow, rok, exclude)
  {
    assert forall u :: u in before + [t] + after <==> u == t || u in before + after;
  }

  /** An exclusion id of 0 is falsy and excludes nothing; any other id
      removes exactly the terms with that id from both checks. */
  lemma ExclusionById(
    terms: seq<ExamTerm>, exams: seq<Exam>, subjects: seq<Subject>,
    data: string, godzina: string, sala: string, kierunek: string, typ_studiow: TypStudiow, rok: int, id: int)
    ensures id == 0 ==> RoomSlotFree(terms, data, godzina, sala, Some(id)) == RoomSlotFree(terms, data, godzina, sala, None)
    ensures id == 0 ==> CohortDayFree(terms, exams, subjects, data, kierunek, typ_studiow, rok, Some(id))
                        == CohortDayFree(terms, exams, subjects, data, kierunek, typ_studiow, rok, None)
    ensures id != 0 ==> (RoomSlotFree(terms, data, godzina, sala, Some(id))
                         <==> forall t :: t in terms && t.id != id ==> !OccupiesSlot(t, data, godzina, sala, None))
    ensures id != 0 ==> (CohortDayFree(terms, exams, subjects, data, kierunek, typ_studiow, rok, Some(id))
                         <==> forall t :: t in terms && t.id != id ==> !BlocksCohortDay(t, exams, subjects, data, kierunek, typ_studiow, rok, None))
  {
  }

  // ------------------------------------------------------------------ rooms

  /** The first room with exactly this name. */
  function FindRoomByName(rooms: seq<Room>, nazwa: string): (r: Option<Room>)
    ensures r.None? <==> forall x :: x in rooms ==> x.nazwa != nazwa
    ensures r.Some? ==> r.value in rooms && r.value.nazwa == nazwa
  {
    if |rooms| == 0 then None
    else if rooms[0].nazwa == nazwa then Some(rooms[0])
    else FindRoomByName(rooms[1..], nazwa)
  }

  function RoomKey(r: Room): seq<string> {
    [r.nazwa]
  }

  /** All rooms, ordered by name. */
  function GetRooms(rooms: seq<Room>): (r: seq<Room>)
    ensures multiset(r) == multiset(rooms)
    ensures Sorting.SortedBy(r, RoomKey)
  {
    Sorting.SortBy(rooms, RoomKey)
  }

  /** The outcome of the combined check: a verdict, a message in Polish and
      the room that was found, if any. */
  datatype Availability = Availability(available: bool, message: string, room: Option<Room>)

  /** First the room must exist, then hold `liczba_osob` people (a full room
      is enough), then be free at the slot. */
  function CheckRoomCapacityAndAvailability(
    rooms: seq<Room>, terms: seq<ExamTerm>, sala: string, data: string, godzina: string, liczba_osob: int): (a: Availability)
    ensures a.room.None? <==> forall x :: x in rooms ==> x.nazwa != sala
    ensures a.room.Some? ==> a.room.value in rooms && a.room.value.nazwa == sala
    ensures a.available <==> && a.room.Some?
                             && a.room.value.pojemnosc >= liczba_osob
                             && forall t :: t in terms ==> !OccupiesSlot(t, data, godzina, sala, None)
    ensures a.room.None? ==> a.message == "Sala '" + sala + "' nie istnieje w systemie"
    ensures a.room.Some? && a.room.value.pojemnosc < liczba_osob
            ==> a.message == "Sala '" + sala + "' ma pojemność " + Strings.IntToDecimal(a.room.value.pojemnosc)
                             + " miejsc, a potrzeba " + Strings.IntToDecimal(liczba_osob) + " miejsc"
    ensures a.room.Some? && a.room.value.pojemnosc >= liczba_osob && !a.available
            ==> a.message == "Sala '" + sala + "' jest już zajęta w dniu " + data + " o godzinie " + godzina
    ensures a.available
            ==> a.message == "Sala '" + sala + "' jest dostępna (pojemność: " + Strings.IntToDecimal(a.room.value.pojemnosc) + " miejsc)"
  {
    var room := FindRoomByName(rooms, sala);
    if room.None? then
      Availability(false, "Sala '" + sala + "' nie istnieje w systemie", None)
    else if room.value.pojemnosc < liczba_osob then
      Availability(false, "Sala '" + sala + "' ma pojemność " + Strings.IntToDecimal(room.value.pojemnosc)
                          + " miejsc, a potrzeba " + Strings.IntToDecimal(liczba_osob) + " miejsc", room)
    else if !RoomSlotFree(terms, data, godzina, sala, None) then
      Availability(false, "Sala '" + sala + "' jest już zajęta w dniu " + data + " o godzinie " + godzina, room)
    else
      Availability(true, "Sala '" + sala + "' jest dostępna (pojemność: " + Strings.IntToDecimal(room.value.pojemnosc)
                         + " miejsc)", room)
  }

  // --------------------------------------------------- single booking of rooms

  /** No two terms that are not rejected hold the same room at the same date
      and hour. */
  predicate SingleBooked(terms: seq<ExamTerm>) {
    forall i, j :: 0 <= i < j < |terms| && terms[i].status != Rejected && terms[j].status != Rejected
      ==> (terms[i].sala, terms[i].data, terms[i].godzina) != (terms[j].sala, terms[j].data, terms[j].godzina)
  }

  /** Inserting a new proposal after the slot check said free keeps rooms
      single-booked. Inserting itself checks nothing; this is the guarantee
      a caller gets by checking first (with nothing in between). */
  lemma CheckedInsertKeepsSingleBooked(terms: seq<ExamTerm>, id: int, c: ExamTermCreate)
    requires SingleBooked(terms)
    requires RoomSlotFree(terms, c.data, c.godzina, c.sala, None)
    ensures SingleBooked(terms + [NewExamTerm(id, c)])
  {
    var t := NewExamTerm(id, c);
    var ts := terms + [t];
    forall i, j | 0 <= i < j < |ts| && ts[i].status != Rejected && ts[j].status != Rejected
      ensures (ts[i].sala, ts[i].data, ts[i].godzina) != (ts[j].sala, ts[j].data, ts[j].godzina)
    {
      if j == |terms| {
        assert ts[i] in terms;
        assert !OccupiesSlot(ts[i], c.data, c.godzina, c.sala, None);
      }
    }
  }

  // ------------------------------------------------------------- decisions

  /** Writes a decision into a term: approver role and name and the new
      status; nothing else changes. */
  function ApplyApproval(t: ExamTerm, a: ExamTermApprove): ExamTerm {
    t.(approved_by_role := Some(a.approved_by_role), approved_by_name := Some(a.approved_by_name), status := a.status)
  }

  /** The position of the first term with this id. */
  function TermIndex(terms: seq<ExamTerm>, id: int): (r: Option<nat>)
    ensures r.None? <==> forall t :: t in terms ==> t.id != id
    ensures r.Some? ==> r.value < |terms| && terms[r.value].id == id
    ensures r.Some? ==> forall k :: 0 <= k < r.value ==> terms[k].id != id
  {
    if |terms| == 0 then None
    else if terms[0].id == id then Some(0)
    else match TermIndex(terms[1..], id)
      case None => None
      case Some(k) => Some(k + 1)
  }

  /** A decision that rejects, or that decides on a term which is not
      rejected, keeps rooms single-booked. */
  lemma DecisionKeepsSingleBooked(terms: seq<ExamTerm>, i: nat, a: ExamTermApprove)
    requires SingleBooked(terms) && i < |terms|
    requires a.status == Rejected || terms[i].status != Rejected
    ensures SingleBooked(terms[i := ApplyApproval(terms[i], a)])
  {
  }

  /** The update overwrites blindly: re-approving a rejected term whose slot
      was taken since then double-books the room. */
  lemma ReopeningRejectedCanDoubleBook()
    ensures var t1 := ExamTerm(1, 1, "2024-06-10", "10:00", "A101", Starosta, "Anna", None, None, Rejected);
            var t2 := ExamTerm(2, 1, "2024-06-10", "10:00", "A101", Prowadzacy, "Jan", None, None, Proposed);
            var a := ExamTermApprove(Admin, "Admin", Approved);
            && SingleBooked([t1, t2])
            && TermIndex([t1, t2], 1) == Some(0)
            && !SingleBooked([t1, t2][0 := ApplyApproval(t1, a)])
  {
    var t1 := ExamTerm(1, 1, "2024-06-10", "10:00", "A101", Starosta, "Anna", None, None, Rejected);
    var t2 := ExamTerm(2, 1, "2024-06-10", "10:00", "A101", Prowadzacy, "Jan", None, None, Proposed);
    var a := ExamTermApprove(Admin, "Admin", Approved);
    var after := [t1, t2][0 := ApplyApproval(t1, a)];
    assert after[0].status != Rejected && after[1].status != Rejected;
    assert (after[0].sala, after[0].data, after[0].godzina) == (after[1].sala, after[1].data, after[1].godzina);
  }

  /** The database error a duplicate room name runs into. */
  datatype DbError = IntegrityError

  // ------------------------------------------------------------ the store

  /** The tables, changed in place by inserts and by the approval update.
      New rows take the next id (SQLite's largest id plus one). */
  class Store {
    var subjects: seq<Subject>
    var exams: seq<Exam>
    var terms: seq<ExamTerm>
    var rooms: seq<Room>
    var nextTermId: int
    var nextRoomId: int

    ghost predicate Valid()
      reads this
    {
      && nextTermId >= 1 && nextRoomId >= 1
      && (forall i :: 0 <= i < |terms| ==> 0 < terms[i].id < nextTermId)
      && (forall i, j :: 0 <= i < j < |terms| ==> terms[i].id < terms[j].id)
      && (forall i :: 0 <= i < |rooms| ==> 0 < rooms[i].id < nextRoomId)
      && (forall i, j :: 0 <= i < j < |rooms| ==> rooms[i].id < rooms[j].id)
      && RoomNamesUnique(rooms)
    }

    /** A store seeded with subjects and exams, without terms or rooms. */
    constructor(subjects0: seq<Subject>, exams0: seq<Exam>)
      ensures Valid()
      ensures subjects == subjects0 && exams == exams0 && terms == [] && rooms == []
    {
      subjects, exams, terms, rooms := subjects0, exams0, [], [];
      nextTermId, nextRoomId := 1, 1;
    }

    /** Appends a proposal without any check. */
    method CreateExamTerm(c: ExamTermCreate) returns (t: ExamTerm)
      requires Valid()
      modifies this
      ensures Valid()
      ensures t == NewExamTerm(old(nextTermId), c) && t.status == Proposed
      ensures terms == old(terms) + [t]
      ensures subjects == old(subjects) && exams == old(exams) && rooms == old(rooms) && nextRoomId == old(nextRoomId)
    {
      t := NewExamTerm(nextTermId, c);
      terms := terms + [t];
      nextTermId := nextTermId + 1;
    }

    /** Records a decision on the term with this id, if there is one,
        whatever its status and whoever decides. */
    method UpdateExamTerm(id: int, a: ExamTermApprove) returns (r: Option<ExamTerm>)
      requires Valid()
      modifies this
      ensures Valid()
      ensures r.None? <==> forall t :: t in old(terms) ==> t.id != id
      ensures r.None? ==> terms == old(terms)
      ensures r.Some? ==> exists i :: 0 <= i < |old(terms)| && old(terms)[i].id == id
                            && terms == old(terms)[i := ApplyApproval(old(terms)[i], a)] && r.value == terms[i]
      ensures r.Some? ==> r.value.status == a.status && r.value.approved_by_role == Some(a.approved_by_role)
                          && r.value.approved_by_name == Some(a.approved_by_name)
      ensures subjects == old(subjects) && exams == old(exams) && rooms == old(rooms)
      ensures nextTermId == old(nextTermId) && nextRoomId == old(nextRoomId)
    {
      var k := TermIndex(terms, id);
      if k.None? {
        r := None;
      } else {
        var i := k.value;
        var updated := ApplyApproval(terms[i], a);
        terms := terms[i := updated];
        r := Some(updated);
      }
    }

    /** Appends a room; a second room with the same name violates the
        uniqueness constraint and nothing is stored. */
    method CreateRoom(c: RoomCreate) returns (r: Result<Room, DbError>)
      requires Valid()
      modifies this
      ensures Valid()
      ensures r.Failure? <==> exists x :: x in old(rooms) && x.nazwa == c.nazwa
      ensures r.Failure? ==> rooms == old(rooms) && nextRoomId == old(nextRoomId)
      ensures r.Success? ==> r.value == NewRoom(old(nextRoomId), c) && rooms == old(rooms) + [r.value]
      ensures r.Success? ==> nextRoomId == old(nextRoomId) + 1
      ensures subjects == old(subjects) && exams == old(exams) && terms == old(terms) && nextTermId == old(nextTermId)
    {
      if FindRoomByName(rooms, c.nazwa).Some? {
        r := Failure(IntegrityError);
      } else {
        var room := NewRoom(nextRoomId, c);
        rooms := rooms + [room];
        nextRoomId := nextRoomId + 1;
        r := Success(room);
      }
    }
  }
}
