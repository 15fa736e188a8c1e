/** The exam list screen: which listing it requests for the current user,
    who is offered approve/reject on which term, what a decision sends, and
    the status labels it shows. */
module ExamList {
  import opened Wrappers
  import opened Models
  import Crud

  /** The list's three filter buttons. */
  datatype StatusFilter = AllTerms | ProposedOnly | ApprovedOnly

  /** The listing request: staff (admin, prowadzacy) ask for every cohort,
      anyone else sends their own cohort fields (absent ones are not sent);
      a status is sent unless the filter is "all". */
  function TermListQuery(user: DemoUser, filter: StatusFilter): (q: Crud.TermQuery)
    ensures user.role == Admin || user.role == Prowadzacy ==> q.kierunek.None? && q.typ_studiow.None? && q.rok.None?
    ensures user.role != Admin && user.role != Prowadzacy
            ==> q.kierunek == user.kierunek && q.typ_studiow == user.typ_studiow && q.rok == user.rok
    ensures q.status.None? <==> filter == AllTerms
    ensures filter == ProposedOnly ==> q.status == Some(Proposed)
    ensures filter == ApprovedOnly ==> q.status == Some(Approved)
  {
    var cohort := user.role != Admin && user.role != Prowadzacy;
    Crud.TermQuery(
      if cohort then user.kierunek else None,
      if cohort then user.typ_studiow else None,
      if cohort then user.rok else None,
      match filter
      case AllTerms => None
      case ProposedOnly => Some(Proposed)
      case ApprovedOnly => Some(Approved))
  }

  /** A user outside the staff whose cohort fields are all set sees exactly
      the terms of their own cohort (with the chosen status), no others. */
  lemma CohortScopedListing(
    user: DemoUser, filter: StatusFilter, terms: seq<ExamTerm>, exams: seq<Exam>, subjects: seq<Subject>, t: ExamTerm)
    requires user.role != Admin && user.role != Prowadzacy
    requires Crud.StrGiven(user.kierunek) && user.typ_studiow.Some? && Crud.IntGiven(user.rok)
    requires t in terms
    ensures var listed := Crud.GetExamTerms(terms, exams, subjects, TermListQuery(user, filter));
            var s := Crud.TermSubject(t, exams, subjects);
            t in listed <==> && s.Some?
                             && s.value.kierunek == user.kierunek.value
                             && s.value.typ_studiow == user.typ_studiow.value
                             && s.value.rok == user.rok.value
                             && (filter == ProposedOnly ==> t.status == Proposed)
                             && (filter == ApprovedOnly ==> t.status == Approved)
  {
    var q := TermListQuery(user, filter);
    var listed := Crud.GetExamTerms(terms, exams, subjects, q);
    assert t in listed <==> multiset(listed)[t] > 0;
    assert multiset(terms)[t] > 0;
  }

  /** Staff with the "all" filter see every term whose exam and subject exist. */
  lemma StaffSeeEveryCohort(user: DemoUser, terms: seq<ExamTerm>, exams: seq<Exam>, subjects: seq<Subject>, t: ExamTerm)
    requires user.role == Admin || user.role == Prowadzacy
    requires t in terms && Crud.TermSubject(t, exams, subjects).Some?
    ensures t in Crud.GetExamTerms(terms, exams, subjects, TermListQuery(user, AllTerms))
  {
    var listed := Crud.GetExamTerms(terms, exams, subjects, TermListQuery(user, AllTerms));
    assert multiset(terms)[t] > 0;
    assert multiset(listed)[t] > 0;
  }

  /** Who may decide on a term, given the role that proposed it. */
  function CanApprove(actor: UserRole, proposer: UserRole): (ok: bool)
    ensures actor == Admin ==> ok
    ensures actor == Student ==> !ok
    ensures actor == Starosta ==> (ok <==> proposer == Prowadzacy)
    ensures actor == Prowadzacy ==> (ok <==> proposer == Starosta)
  {
    if actor == Admin then true
    else if actor == Starosta && proposer == Prowadzacy then true
    else if actor == Prowadzacy && proposer == Starosta then true
    else false
  }

  /** A decision needs a different stakeholder than the proposer: apart from
      the admin, nobody may decide on a term proposed by their own role, and
      the deciders of a staff or representative proposal are exactly the
      admin and the other side. */
  lemma ApprovalNeedsOtherSide(actor: UserRole, proposer: UserRole)
    ensures actor != Admin && actor == proposer ==> !CanApprove(actor, proposer)
    ensures proposer == Starosta ==> (CanApprove(actor, proposer) <==> actor in {Admin, Prowadzacy})
    ensures proposer == Prowadzacy ==> (CanApprove(actor, proposer) <==> actor in {Admin, Starosta})
    ensures proposer in {Student, Admin} ==> (CanApprove(actor, proposer) <==> actor == Admin)
  {
  }

  /** The approve and reject buttons are shown for this term. */
  predicate DecisionOffered(actor: UserRole, t: ExamTerm)
    ensures DecisionOffered(actor, t) ==> t.status == Proposed && actor != Student
    ensures DecisionOffered(actor, t) && actor != Admin ==> actor != t.proposed_by_role
    ensures actor == Admin ==> (DecisionOffered(actor, t) <==> t.status == Proposed)
  {
    t.status == Proposed && CanApprove(actor, t.proposed_by_role)
  }

  /** What a click on approve (`Approved`) or reject (`Rejected`) sends. */
  function DecisionPayload(user: DemoUser, decision: TermStatus): (p: ExamTermApprove)
    ensures p.approved_by_role == user.role && p.approved_by_name == user.name && p.status == decision
  {
    ExamTermApprove(user.role, user.name, decision)
  }

  /** A decision taken through the buttons moves a proposed term to the
      chosen terminal status, records the decider, changes nothing else, and
      leaves no further decision on offer to anyone. */
  lemma GatedDecision(user: DemoUser, t: ExamTerm, decision: TermStatus)
    requires DecisionOffered(user.role, t)
    requires decision == Approved || decision == Rejected
    ensures var t' := Crud.ApplyApproval(t, DecisionPayload(user, decision));
            && t.status == Proposed && t'.status == decision
            && t'.approved_by_role == Some(user.role) && t'.approved_by_name == Some(user.name)
            && t'.(approved_by_role := t.approved_by_role, approved_by_name := t.approved_by_name, status := t.status) == t
            && forall actor :: !DecisionOffered(actor, t')
  {
  }

  /** Approved and rejected terms never offer a decision. */
  lemma TerminalTermsOfferNothing(actor: UserRole, t: ExamTerm)
    requires t.status != Proposed
    ensures !DecisionOffered(actor, t)
  {
  }

  /** The label of a status; any other value is shown as it is. */
  function StatusText(s: string): (r: string)
    ensures ParseStatus(s).None? ==> r == s
    ensures ParseStatus(s) == Some(Proposed) ==> r == "Oczekujące"
    ensures ParseStatus(s) == Some(Approved) ==> r == "Zatwierdzone"
    ensures ParseStatus(s) == Some(Rejected) ==> r == "Odrzucone"
  {
    var labels := map["proposed" := "Oczekujące", "approved" := "Zatwierdzone", "rejected" := "Odrzucone"];
    if s in labels && labels[s] != "" then labels[s] else s
  }
}
