/** The schedule chart: the listing it requests, its date and hour axes, the
    term shown in each cell, status colours and labels, and date formatting.
    The chart's state (the fetched terms, the two axes and the loading flag)
    is a class updated by its fetch. */
module GanttChart {
  import opened Wrappers
  import opened Models
  import Crud
  import Strings
  import Sorting
  import ExamList

  /** The listing request: admin and prowadzacy ask for every cohort, anyone
      else for their own cohort; no status filter. */
  function GanttQuery(user: DemoUser): (q: Crud.TermQuery)
    ensures q.status.None?
    ensures user.role in {Admin, Prowadzacy} ==> q.kierunek.None? && q.typ_studiow.None? && q.rok.None?
    ensures user.role !in {Admin, Prowadzacy}
            ==> q.kierunek == user.kierunek && q.typ_studiow == user.typ_studiow && q.rok == user.rok
  {
    if user.role != Admin && user.role != Prowadzacy then
      Crud.TermQuery(user.kierunek, user.typ_studiow, user.rok, None)
    else
      Crud.TermQuery(None, None, None, None)
  }

  /** The chart asks for the same terms as the exam list with its "all"
      filter, so both screens show a user the same set of terms. */
  lemma ChartMatchesAllTermsList(user: DemoUser)
    ensures GanttQuery(user) == ExamList.TermListQuery(user, ExamList.AllTerms)
  {
  }

  function Dates(terms: seq<ExamTerm>): (ds: seq<string>)
    ensures |ds| == |terms|
    ensures forall i :: 0 <= i < |terms| ==> ds[i] == terms[i].data
  {
    if |terms| == 0 then [] else [terms[0].data] + Dates(terms[1..])
  }

  function Hours(terms: seq<ExamTerm>): (hs: seq<string>)
    ensures |hs| == |terms|
    ensures forall i :: 0 <= i < |terms| ==> hs[i] == terms[i].godzina
  {
    if |terms| == 0 then [] else [terms[0].godzina] + Hours(terms[1..])
  }

  /** The column headers: each date that occurs, once, in increasing order. */
  function DateAxis(terms: seq<ExamTerm>): (axis: seq<string>)
    ensures Sorting.StrictlyIncreasing(axis)
    ensures forall d :: d in axis <==> d in Dates(terms)
  {
    Sorting.UniqueSorted(Dates(terms))
  }

  /** The row headers: each hour that occurs, once, in increasing order. */
  function HourAxis(terms: seq<ExamTerm>): (axis: seq<string>)
    ensures Sorting.StrictlyIncreasing(axis)
    ensures forall h :: h in axis <==> h in Hours(terms)
  {
    Sorting.UniqueSorted(Hours(terms))
  }

  /** The axes hold exactly the dates and hours of the fetched terms. */
  lemma AxesFromTerms(terms: seq<ExamTerm>, d: string, h: string)
    ensures d in DateAxis(terms) <==> exists t :: t in terms && t.data == d
    ensures h in HourAxis(terms) <==> exists t :: t in terms && t.godzina == h
  {
    var ds, hs := Dates(terms), Hours(terms);
    if d in ds {
      var i :| 0 <= i < |ds| && ds[i] == d;
      assert terms[i] in terms;
    }
    if exists t :: t in terms && t.data == d {
      var t :| t in terms && t.data == d;
      var i :| 0 <= i < |terms| && terms[i] == t;
      assert ds[i] == d;
    }
    if h in hs {
      var i :| 0 <= i < |hs| && hs[i] == h;
      assert terms[i] in terms;
    }
    if exists t :: t in terms && t.godzina == h {
      var t :| t in terms && t.godzina == h;
      var i :| 0 <= i < |terms| && terms[i] == t;
      assert hs[i] == h;
    }
  }

  predicate InSlot(t: ExamTerm, date: string, time: string) {
    t.data == date && t.godzina == time
  }

  /** The term drawn in the cell of `date` and `time`: the first listed term
      with that date and hour, whatever its room. */
  function CellTerm(terms: seq<ExamTerm>, date: string, time: string): (r: Option<ExamTerm>)
    ensures r.None? <==> forall t :: t in terms ==> !InSlot(t, date, time)
    ensures r.Some? ==> r.value in terms && InSlot(r.value, date, time)
  {
    if |terms| == 0 then None
    else if InSlot(terms[0], date, time) then Some(terms[0])
    else
      assert forall t :: t in terms ==> t == terms[0] || t in terms[1..];
      CellTerm(terms[1..], date, time)
  }

  /** The cell shows the earliest listed term of its slot. */
  lemma {:induction false} CellShowsEarliest(terms: seq<ExamTerm>, date: string, time: string, i: nat)
    requires i < |terms| && InSlot(terms[i], date, time)
    ensures exists k :: (0 <= k <= i && CellTerm(terms, date, time) == Some(terms[k])
                         && forall m :: 0 <= m < k ==> !InSlot(terms[m], date, time))
  {
    if !InSlot(terms[0], date, time) {
      CellShowsEarliest(terms[1..], date, time, i - 1);
      var k :| 0 <= k <= i - 1 && CellTerm(terms[1..], date, time) == Some(terms[1..][k])
               && forall m :: 0 <= m < k ==> !InSlot(terms[1..][m], date, time);
      assert CellTerm(terms, date, time) == Some(terms[k + 1]);
      forall m | 0 <= m < k + 1
        ensures !InSlot(terms[m], date, time)
      {
        if m > 0 { assert terms[m] == terms[1..][m - 1]; }
      }
    }
  }

  /** Every fetched term has a column and a row, and its cell is not empty. */
  lemma EveryTermHasACell(terms: seq<ExamTerm>, t: ExamTerm)
    requires t in terms
    ensures t.data in DateAxis(terms) && t.godzina in HourAxis(terms)
    ensures CellTerm(terms, t.data, t.godzina).Some?
  {
    AxesFromTerms(terms, t.data, t.godzina);
    assert InSlot(t, t.data, t.godzina);
  }

  /** Every cell with a term lies on both axes: the grid shows no term it
      was not given. */
  lemma CellsLieOnAxes(terms: seq<ExamTerm>, date: string, time: string)
    requires CellTerm(terms, date, time).Some?
    ensures date in DateAxis(terms) && time in HourAxis(terms)
  {
    var t := CellTerm(terms, date, time).value;
    assert t in terms && t.data == date && t.godzina == time;
    AxesFromTerms(terms, date, time);
  }

  /** Two terms in the same slot (in different rooms) share one cell, which
      shows only the earlier-listed one. */
  lemma SharedSlotShowsFirst(terms: seq<ExamTerm>, i: nat, j: nat)
    requires i < j < |terms|
    requires InSlot(terms[i], terms[j].data, terms[j].godzina)
    requires terms[j] !in terms[..j]
    ensures CellTerm(terms, terms[j].data, terms[j].godzina) != Some(terms[j])
  {
    CellShowsEarliest(terms, terms[j].data, terms[j].godzina, i);
    var k :| 0 <= k <= i && CellTerm(terms, terms[j].data, terms[j].godzina) == Some(terms[k])
             && forall m :: 0 <= m < k ==> !InSlot(terms[m], terms[j].data, terms[j].godzina);
    assert terms[k] in terms[..j];
  }

  /** Tile colour: green for approved, red for rejected, yellow otherwise. */
  function StatusColor(s: TermStatus): (c: string)
    ensures s == Approved <==> c == "#28a745"
    ensures s == Rejected <==> c == "#dc3545"
    ensures s == Proposed <==> c == "#ffc107"
  {
    assert "#28a745"[1] == '2' && "#dc3545"[1] == 'd' && "#ffc107"[1] == 'f';
    match s
    case Approved => "#28a745"
    case Rejected => "#dc3545"
    case Proposed => "#ffc107"
  }

  /** The status words in the details list under the chart. */
  function DetailStatusLabel(s: TermStatus): string {
    if s == Approved then "Zatwierdzone"
    else if s == Rejected then "Odrzucone"
    else "Oczekujące"
  }

  /** The legend: each colour with its label. */
  const Legend: seq<(string, string)> := [("#28a745", "Zatwierdzone"), ("#ffc107", "Oczekujące"), ("#dc3545", "Odrzucone")]

  /** The details list, the legend and the exam list all name a status the
      same way: the legend pairs each tile colour with the status's label,
      and that label is the one the exam list shows. */
  lemma LabelsAgree(s: TermStatus)
    ensures (StatusColor(s), DetailStatusLabel(s)) in Legend
    ensures DetailStatusLabel(s) == ExamList.StatusText(StatusName(s))
  {
    match s
    case Proposed => assert Legend[1] == (StatusColor(s), DetailStatusLabel(s));
    case Approved => assert Legend[0] == (StatusColor(s), DetailStatusLabel(s));
    case Rejected => assert Legend[2] == (StatusColor(s), DetailStatusLabel(s));
  }

  /** Field `i` of a destructured array, `"undefined"` when absent, as a
      template literal renders it. */
  function FieldOrUndefined(parts: seq<string>, i: nat): string {
    if i < |parts| then parts[i] else "undefined"
  }

  /** Column header for a date: day and month of `year-month-day`. */
  function FormatDate(dateStr: string): (r: string)
    ensures '-' !in dateStr ==> r == "undefined.undefined"
  {
    var parts := Strings.Split(dateStr, '-');
    assert '-' !in dateStr ==> parts == [dateStr] by {
      if '-' !in dateStr {
        assert Strings.Join([dateStr], '-') == dateStr;
        Strings.SplitJoin([dateStr], '-');
      }
    }
    FieldOrUndefined(parts, 2) + "." + FieldOrUndefined(parts, 1)
  }

  /** An ISO date `YYYY-MM-DD` is shown as `DD.MM`. */
  lemma FormatIsoDate(year: string, month: string, day: string)
    requires '-' !in year && '-' !in month && '-' !in day
    ensures FormatDate(year + "-" + month + "-" + day) == day + "." + month
  {
    var parts := [year, month, day];
    assert Strings.Join(parts[2..], '-') == day;
    assert Strings.Join(parts[1..], '-') == month + "-" + day;
    assert Strings.Join(parts, '-') == year + "-" + month + "-" + day;
    Strings.SplitJoin(parts, '-');
  }

  /** The chart's state: the fetched terms, the axes derived from them, and
      whether a fetch is in progress. */
  class Chart {
    var terms: seq<ExamTerm>
    var dates: seq<string>
    var timeSlots: seq<string>
    var loading: bool

    /** The axes always belong to the terms shown. */
    predicate Valid()
      reads this
    {
      dates == DateAxis(terms) && timeSlots == HourAxis(terms)
    }

    constructor()
      ensures Valid()
      ensures terms == [] && dates == [] && timeSlots == [] && loading
    {
      terms := [];
      dates := [];
      timeSlots := [];
      loading := true;
    }

    /** Shows `fetched`: the terms and both axes are replaced. */
    method Show(fetched: seq<ExamTerm>)
      modifies this
      ensures Valid() && terms == fetched && loading == old(loading)
    {
      terms, dates, timeSlots := fetched, DateAxis(fetched), HourAxis(fetched);
    }

    /** Fetches the terms for `user`; `response` is the server's listing for
        the query sent, `None` when the request failed. Without a user nothing
        is requested and nothing changes, not even the loading flag. */
    method FetchTerms(user: Option<DemoUser>, response: Option<seq<ExamTerm>>) returns (sent: Option<Crud.TermQuery>)
      requires Valid()
      modifies this
      ensures Valid()
      ensures user.None? ==> sent.None? && terms == old(terms) && loading == old(loading)
      ensures user.Some? ==> sent == Some(GanttQuery(user.value)) && !loading
      ensures user.Some? && response.Some? ==> terms == response.value
      ensures response.None? ==> terms == old(terms)
    {
      if user.None? {
        return None;
      }
      loading := true;
      sent := Some(GanttQuery(user.value));
      if response.Some? {
        Show(response.value);
      }
      loading := false;
    }
  }
}
