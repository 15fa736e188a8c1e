# Exam-term scheduling rules, modelled in Dafny

This project models the scheduling core of an exam-term planner. Instructors
(`prowadzacy`) and student representatives (`starosta`) propose a date, hour
and room for an exam. The other side, or an admin, approves or rejects the
proposal. The backend keeps subjects, exams, exam terms and rooms. It answers
filtered, ordered listings and decides whether a room exists, is large enough
and is free in a slot. The frontend decides who sees which terms, who may
decide on a proposal, and what a proposal carries. It also lays the terms out
on a date-by-hour chart.

Modules:

- `Wrappers` (wrappers.dfy): `Option` and `Result`.
- `Order` (order.dfy): lexicographic order on sequences and its strict-total-order lemmas.
- `Strings` (strings.dfy): code-point string order, decimal rendering, JavaScript `parseInt`, and `split`/`join` with their round trips.
- `Sorting` (sorting.dfy): sorting by a key, duplicate removal, and the sorted duplicate-free axes.
- `Models` (models.dfy): the enumerations (role, study type, term status) with their stored names, the records, and a new term's defaults.
- `Crud` (crud.dfy): the filter-and-order queries, the room-slot and cohort-day conflict checks, and the room decision chain. It also holds the `Store` class, whose tables the create and update operations change in place.
- `RoomsRouter` (rooms_router.dfy): the room endpoints (duplicate name gives 400, unknown name gives 404, the availability decision passed through).
- `ExamList` (exam_list.dfy): the listing request per role, the approval table, the decision buttons, the decision payload and the status labels.
- `ProposeTermForm` (propose_term_form.dfy): who gets the form, which exams it offers, the required fields, the proposal payload, and the room pre-check. The form's state is the class `Form`.
- `GanttChart` (gantt_chart.dfy): the listing request, the date and hour axes, the cell lookup, colours and labels, and date formatting. The chart's state is the class `Chart`.

Conventions taken from the code:

- **Query filters follow Python truthiness.** A text filter applies only when it is given and non-empty. A number filter (`rok`, `exclude_term_id`) applies only when it is given and non-zero. An enumeration filter applies whenever it is given.
- **Joins are lookups by primary key.**
- **`ORDER BY` is a lexicographic order on the key columns.** It compares text by code point, as SQLite's default collation does. Rows with equal keys may come back in any order, so the contracts promise sortedness and the same rows, nothing more.

Network answers (server responses, success or failure of a request) are
parameters of the methods that receive them.

## Model

| member | source | states |
|---|---|---|
| Models.ParseRole | backend/app/models.py:10-14 | a stored role name is recognised iff it is one of the four roles, and a recognised role has exactly that name |
| Models.ParseTyp | backend/app/models.py:17-21 | a study-type name is recognised iff it is one of the four study types, and a recognised type has exactly that name |
| Models.ParseStatus | backend/app/models.py:24-27 | a status name is recognised iff it is proposed, approved or rejected, and a recognised status has exactly that name |
| Models.EnumNamesRoundTrip | backend/app/models.py:10-27 | every role, study type and status is recognised back from its stored name |
| Models.NewExamTerm | backend/app/models.py:68-81 | a new term is proposed, has no approver role or name, and carries the given proposer role and name |
| Crud.GetSubjects | backend/app/crud.py:20-33 | the listing holds each subject matching every given filter, as often as it is stored, and no other subject |
| Crud.GetExams | backend/app/crud.py:45-63 | the listing holds each exam whose subject matches every given cohort filter and whose instructor matches, as often as stored, and no other |
| Crud.GetExamTerms | backend/app/crud.py:79-97 | the listing holds exactly the terms (with multiplicity) whose subject matches every given filter and whose status matches, sorted by date then hour |
| Crud.FalsyFiltersIgnored | backend/app/crud.py:88-93 | an empty kierunek and a zero rok give the same listing as omitting them |
| Crud.RoomSlotFree | backend/app/crud.py:133-145 | a room slot is free iff no term that is not rejected and not excluded has exactly that date, hour and room |
| Crud.CohortDayFree | backend/app/crud.py:148-168 | a cohort's day is free iff no term that is not rejected and not excluded is on that date for an exam whose subject matches study field, type and year at once |
| Crud.RejectedNeverBlocks | backend/app/crud.py:139 | adding a rejected term anywhere in the table keeps every free room slot and every free cohort day free |
| Crud.ExclusionById | backend/app/crud.py:142-143 | an exclusion id of 0 excludes nothing; any other id makes both checks ignore the terms with that id |
| Crud.FindRoomByName | backend/app/crud.py:186-188 | the lookup finds nothing iff no room has that name, and otherwise finds a stored room of that name |
| Crud.GetRooms | backend/app/crud.py:181-183 | the listing holds exactly the stored rooms, sorted by name |
| Crud.CheckRoomCapacityAndAvailability | backend/app/crud.py:191-234 | the room is absent iff no room has that name; the result is available iff the room exists, its capacity is at least the headcount, and the slot is free; the message follows the order of the checks: "nie istnieje w systemie" for a missing room, the capacity message for a too-small room even when the slot is also taken, "jest już zajęta" for a large-enough room in a taken slot, "jest dostępna" otherwise |
| Crud.CheckedInsertKeepsSingleBooked | backend/app/crud.py:133-145 | inserting a new term into a slot found free keeps every room slot held by at most one non-rejected term |
| Crud.TermIndex | backend/app/crud.py:100-101 | the lookup by id finds nothing iff no term has that id, and otherwise finds the first term with that id |
| Crud.DecisionKeepsSingleBooked | backend/app/crud.py:104-116 | a decision that rejects, or that is applied to a term that is not rejected, keeps rooms single-booked |
| Crud.ReopeningRejectedCanDoubleBook | backend/app/crud.py:104-116 | since the update checks neither status nor conflicts, approving a rejected term whose slot was reused books that room twice |
| Crud.Store.CreateExamTerm | backend/app/crud.py:71-76 | appends a new proposed term with the next id and changes no other table |
| Crud.Store.UpdateExamTerm | backend/app/crud.py:104-116 | returns nothing and changes nothing iff the id is absent; otherwise it overwrites only approver role, approver name and status of the first term with that id |
| Crud.Store.CreateRoom | backend/app/crud.py:172-178 | appends the room with the next id, or fails and changes nothing when the name is taken; room names stay unique |
| RoomsRouter.CreateRoom | backend/app/routers/rooms.py:10-18 | fails with 400 and "Sala '…' już istnieje" iff the name exists, leaving the rooms unchanged; otherwise the room is appended; names stay unique |
| RoomsRouter.ListRooms | backend/app/routers/rooms.py:21-24 | returns every room, in strictly increasing name order |
| RoomsRouter.GetRoom | backend/app/routers/rooms.py:27-33 | fails with 404 and "Sala '…' nie została znaleziona" iff no room has that name, otherwise returns that room |
| RoomsRouter.CheckRoomAvailability | backend/app/routers/rooms.py:36-61 | the response carries the decision's availability, message and room; it is available iff the room exists, is large enough, and the slot is free |
| ExamList.TermListQuery | frontend/src/components/ExamList.js:18-29 | cohort fields are sent iff the role is neither admin nor prowadzacy; a status is sent iff the filter is not "all" |
| ExamList.CohortScopedListing | frontend/src/components/ExamList.js:18-29 | for a user outside the staff with a full cohort, a term is listed iff its subject is of that cohort and it has the chosen status |
| ExamList.StaffSeeEveryCohort | frontend/src/components/ExamList.js:21-25 | admin and prowadzacy are listed every term that has an exam and a subject |
| ExamList.CanApprove | frontend/src/components/ExamList.js:53-58 | admin may always decide; starosta only on proposals by prowadzacy; prowadzacy only on proposals by starosta; student never |
| ExamList.ApprovalNeedsOtherSide | frontend/src/components/ExamList.js:53-58 | no non-admin decides on its own role's proposals; for each proposer role, exactly which roles may decide |
| ExamList.DecisionOffered | frontend/src/components/ExamList.js:120 | buttons appear only on proposed terms and never for a student; no non-admin gets them on its own role's proposal; the admin gets them on every proposed term |
| ExamList.DecisionPayload | frontend/src/components/ExamList.js:42-46 | a decision sends the current user's role and name as approver and the chosen status |
| ExamList.GatedDecision | frontend/src/components/ExamList.js:40-46 | a decision offered on a proposed term records the user as approver and the chosen status, leaves the rest of the term unchanged, and afterwards nothing more is offered |
| ExamList.TerminalTermsOfferNothing | frontend/src/components/ExamList.js:120-135 | approved and rejected terms offer no decision to anyone |
| ExamList.StatusText | frontend/src/components/ExamList.js:146-153 | the three statuses get their Polish labels; any other text is shown unchanged |
| ProposeTermForm.FormShown | frontend/src/components/ProposeTermForm.js:129-132 | the form is shown iff there is a user whose role is prowadzacy or starosta |
| ProposeTermForm.ProposalsNeedOtherSide | frontend/src/components/ProposeTermForm.js:129-132 | whoever may propose cannot decide on its own proposal, while the admin and one other role can |
| ProposeTermForm.ExamQueryFor | frontend/src/components/ProposeTermForm.js:27-38 | prowadzacy filters exams by instructor name from przedmiot, starosta by the cohort triple, anyone else sends no filter |
| ProposeTermForm.ExamsOffered | frontend/src/components/ProposeTermForm.js:23-45 | a starosta with a full cohort is offered exactly the exams of that cohort, a prowadzacy with a przedmiot exactly the exams under that instructor name, anyone else every exam that has a subject |
| ProposeTermForm.RequiredFieldsGate | frontend/src/components/ProposeTermForm.js:88-92 | after typing exam, date, hour and room, `MissingRequired` lets the form through iff all four texts are non-empty, whatever the headcount; the initial form and the reset form are both refused |
| ProposeTermForm.PreCheckGate | frontend/src/components/ProposeTermForm.js:57-59 | `PreCheckEnabled` (also the guard at line 121) is false while the headcount is undefined; after typing a headcount it holds iff room, date, hour and the typed text are all non-empty |
| ProposeTermForm.ProposalFor | frontend/src/components/ProposeTermForm.js:94-99 | the proposal carries the form's date, hour, room and headcount, the exam id parsed as an integer, and the user as proposer |
| ProposeTermForm.ChosenExamArrives | frontend/src/components/ProposeTermForm.js:96 | an exam chosen in the select (value = its id as text) arrives as exactly that exam's id |
| ProposeTermForm.FailureText | frontend/src/components/ProposeTermForm.js:105 | a failed submission shows the server's non-empty detail, otherwise "Błąd dodawania propozycji" |
| ProposeTermForm.ResetAsWrittenSilencesPreCheck | frontend/src/components/ProposeTermForm.js:102 | after the reset as written, filling room, date and hour again leaves the pre-check off and the headcount undefined |
| ProposeTermForm.ResetToInitialKeepsPreCheck | frontend/src/components/ProposeTermForm.js:7-13 | after a reset to the initial form, filling room, date and hour turns the pre-check on with a headcount of 30 |
| ProposeTermForm.Form.constructor | frontend/src/components/ProposeTermForm.js:7-16 | the form starts empty with a headcount of 30, no error, no message, not busy |
| ProposeTermForm.Form.HandleChange | frontend/src/components/ProposeTermForm.js:111-117 | only the named field takes the new value; nothing else changes |
| ProposeTermForm.Form.HandleSubmit | frontend/src/components/ProposeTermForm.js:81-109 | sends nothing and reports "Wszystkie pola są wymagane" iff a required field is empty; otherwise sends the proposal, then on success clears the four text fields and leaves the headcount undefined (the reset as written), or on failure keeps the form and shows the failure text |
| ProposeTermForm.Form.ValidateRoomAvailability | frontend/src/components/ProposeTermForm.js:56-79 | sends a check iff room, date, hour and headcount are filled; a positive answer shows "✓ " and the message and clears the error, a negative one shows the message as error; a failed request changes nothing |
| GanttChart.GanttQuery | frontend/src/components/GanttChart.js:19-26 | cohort fields are sent iff the role is neither admin nor prowadzacy; no status is sent |
| GanttChart.ChartMatchesAllTermsList | frontend/src/components/GanttChart.js:19-26 | the chart requests the same listing as the exam list with its "all" filter |
| GanttChart.DateAxis | frontend/src/components/GanttChart.js:33 | the date axis is strictly increasing and holds exactly the terms' dates |
| GanttChart.HourAxis | frontend/src/components/GanttChart.js:34 | the hour axis is strictly increasing and holds exactly the terms' hours |
| GanttChart.AxesFromTerms | frontend/src/components/GanttChart.js:33-34 | a date (hour) is on its axis iff some fetched term has it |
| GanttChart.CellTerm | frontend/src/components/GanttChart.js:45-47 | a cell is empty iff no term has that date and hour, whatever the room; otherwise it holds such a term |
| GanttChart.CellShowsEarliest | frontend/src/components/GanttChart.js:45-47 | the cell holds the first listed term with that date and hour |
| GanttChart.EveryTermHasACell | frontend/src/components/GanttChart.js:33-47 | every fetched term's date and hour are on the axes and its cell is filled |
| GanttChart.CellsLieOnAxes | frontend/src/components/GanttChart.js:33-47 | every filled cell lies on both axes |
| GanttChart.SharedSlotShowsFirst | frontend/src/components/GanttChart.js:45-47 | of two terms in the same date and hour (in different rooms), the later-listed one is not drawn |
| GanttChart.StatusColor | frontend/src/components/GanttChart.js:49-53 | approved is green, rejected red, proposed yellow, and the three colours differ |
| GanttChart.LabelsAgree | frontend/src/components/GanttChart.js:150-151 | each status's detail label is paired with its colour in the legend and equals the exam list's label |
| GanttChart.FormatIsoDate | frontend/src/components/GanttChart.js:55-58 | a date YYYY-MM-DD is shown as DD.MM |
| GanttChart.FormatDate | frontend/src/components/GanttChart.js:55-58 | a date text without a dash is shown as "undefined.undefined" (the ISO case is `FormatIsoDate`) |
| GanttChart.Chart.constructor | frontend/src/components/GanttChart.js:5-8 | the chart starts loading, with no terms and empty axes |
| GanttChart.Chart.FetchTerms | frontend/src/components/GanttChart.js:14-43 | without a user nothing is requested or changed; otherwise the role's listing is requested, fetched terms replace the shown ones, the axes stay those of the shown terms, and loading ends |

## Left out

- Demo users, session periods, and subject and exam creation (backend/app/crud.py:7-17, 37-42 and 119-129) carry no rules. The `Store` constructor takes the subjects and exams as given.
- The `created_at` timestamp of a term comes from the clock and is not modelled.
- Persistence, sessions, HTTP transport, request validation and the axios client are not modelled. Neither is concurrency: a check followed by an insert is not atomic, and the model claims no atomicity.
- The terms router and the request schemas are not part of this model. The proposal's headcount has no column in the term table. The model assumes the backend ignores it.
- ExamList.CohortScopedListing, ExamList.StaffSeeEveryCohort, ExamList.GatedDecision and GanttChart.ChartMatchesAllTermsList assume that the terms endpoints pass the frontend's query parameters to `get_exam_terms` unchanged, and its decision payload to `update_exam_term` unchanged. The terms router that would do so is not part of this model. The exams listing is passed through as shown in backend/app/routers/exams.py:16-25, which ProposeTermForm.ExamsOffered relies on.
- Integers are unbounded. Ids, capacity and year have no width limit in the model.
- Crud.GetExamTerms: the order among terms with the same date and hour is left open, because the database does not fix it.
- Crud.GetRooms: the order among rooms with the same name is left open, for the same reason.
- Sorting in the browser compares UTF-16 code units, while the model compares code points. The two differ only for characters outside the Basic Multilingual Plane.
- Strings.ParseIntJs: hexadecimal `0x` prefixes, other radices and the precision loss of numbers above 2^53 are not modelled.
- ExamList.StatusText: keys inherited by every JavaScript object (such as `constructor`) are not modelled.
- ProposeTermForm.FailureText: a structured (non-text) error detail is treated as absent.
- These parts of the user interface are not modelled:
  - React rendering and styles.
  - `alert` calls and the `onSuccess` callback.
  - The 500 ms debounce before the pre-check.
  - Loading the room and exam lists into the form.
  - The exam list's own state (its fetched terms, filter and loading flag).
  - The error alert after a failed decision.
- The chart's tile contents (subject name, room, instructor) are rendering and are not modelled.

## Findings

| source | as written | input that shows it | evidently intended | confidence | as-written member | corrected member |
|---|---|---|---|---|---|---|
| frontend/src/components/ProposeTermForm.js:102 | after a successful proposal the form is reset with only four fields, so the headcount becomes undefined while its input still shows the old number | submit one proposal successfully, then fill in room, date and hour for a second one without touching the headcount: the room pre-check never runs and the proposal carries no headcount | reset to the initial form, headcount 30 | medium, not executed | ProposeTermForm.ResetAsWrittenSilencesPreCheck | ProposeTermForm.ResetToInitialKeepsPreCheck |
