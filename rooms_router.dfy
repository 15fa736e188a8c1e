/** The room endpoints: create with a duplicate-name check, list, look up by
    name, and the availability check that hands back the store's decision. */
module RoomsRouter {
  import opened Wrappers
  import opened Models
  import Crud
  import Sorting
  import Strings

  /** An HTTP error response: status code and detail text. */
  datatype HttpError = HttpError(status_code: int, detail: string)

  /** POST /rooms: a name already in use is refused with 400 and nothing is
      stored; otherwise the room is added, so names stay unique. */
  method CreateRoom(store: Crud.Store, c: RoomCreate) returns (r: Result<Room, HttpError>)
    requires store.Valid()
    modifies store
    ensures store.Valid() && RoomNamesUnique(store.rooms)
    ensures r.Failure? <==> exists x :: x in old(store.rooms) && x.nazwa == c.nazwa
    ensures r.Failure? ==> r.error == HttpError(400, "Sala '" + c.nazwa + "' już istnieje")
    ensures r.Failure? ==> store.rooms == old(store.rooms)
    ensures r.Success? ==> store.rooms == old(store.rooms) + [r.value]
    ensures r.Success? ==> r.value.nazwa == c.nazwa && r.value.budynek == c.budynek
                           && r.value.pojemnosc == c.pojemnosc && r.value.typ == c.typ
    ensures store.terms == old(store.terms) && store.exams == old(store.exams) && store.subjects == old(store.subjects)
  {
    var existing := Crud.FindRoomByName(store.rooms, c.nazwa);
    if existing.Some? {
      r := Failure(HttpError(400, "Sala '" + c.nazwa + "' już istnieje"));
      return;
    }
    var created := store.CreateRoom(c);
    r := Success(created.value);
  }

  /** GET /rooms: every room exactly once, in strictly increasing name order
      (names are unique, so no two compare equal). */
  function ListRooms(rooms: seq<Room>): (r: seq<Room>)
    requires RoomNamesUnique(rooms)
    ensures multiset(r) == multiset(rooms)
    ensures forall i, j :: 0 <= i < j < |r| ==> Strings.StrLt(r[i].nazwa, r[j].nazwa)
  {
    var r := Crud.GetRooms(rooms);
    assert Sorting.NoDup(rooms);
    Sorting.NoDupPermutation(rooms, r);
    Strings.StrLtStrictTotal();
    forall i, j | 0 <= i < j < |r| ensures Strings.StrLt(r[i].nazwa, r[j].nazwa) {
      assert r[i] in multiset(rooms) && r[j] in multiset(rooms);
      var a :| 0 <= a < |rooms| && rooms[a] == r[i];
      var b :| 0 <= b < |rooms| && rooms[b] == r[j];
      assert a != b;
      Sorting.SingleKeyLt(r[j].nazwa, r[i].nazwa);
    }
    r
  }

  /** GET /rooms/{nazwa}: 404 iff no room has this name, else that room. */
  function GetRoom(rooms: seq<Room>, nazwa: string): (r: Result<Room, HttpError>)
    ensures r.Failure? <==> forall x :: x in rooms ==> x.nazwa != nazwa
    ensures r.Failure? ==> r.error == HttpError(404, "Sala '" + nazwa + "' nie została znaleziona")
    ensures r.Success? ==> r.value in rooms && r.value.nazwa == nazwa
  {
    match Crud.FindRoomByName(rooms, nazwa)
    case None => Failure(HttpError(404, "Sala '" + nazwa + "' nie została znaleziona"))
    case Some(room) => Success(room)
  }

  datatype AvailabilityRequest = AvailabilityRequest(sala: string, data: string, godzina: string, liczba_osob: int)

  /** The response body; its `sala` field carries the room record. */
  datatype AvailabilityResponse = AvailabilityResponse(available: bool, message: string, sala: Option<Room>)

  /** POST /rooms/check-availability: the store's decision, field for field. */
  function CheckRoomAvailability(rooms: seq<Room>, terms: seq<ExamTerm>, req: AvailabilityRequest): (r: AvailabilityResponse)
    ensures var d := Crud.CheckRoomCapacityAndAvailability(rooms, terms, req.sala, req.data, req.godzina, req.liczba_osob);
            r.available == d.available && r.message == d.message && r.sala == d.room
    ensures r.available <==> && r.sala.Some? && r.sala.value in rooms && r.sala.value.nazwa == req.sala
                             && r.sala.value.pojemnosc >= req.liczba_osob
                             && Crud.RoomSlotFree(terms, req.data, req.godzina, req.sala, None)
  {
    var d := Crud.CheckRoomCapacityAndAvailability(rooms, terms, req.sala, req.data, req.godzina, req.liczba_osob);
    AvailabilityResponse(d.available, d.message, d.room)
  }
}
