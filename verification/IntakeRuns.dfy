/** The invariants over whole runs of triage steps, and exactly when withdrawing a case breaks one. */
module IntakeRuns {
  import opened Common
  import opened Text
  import opened Statuses
  import opened IntakeTables
  import opened IntakeSteps
  import opened IntakeMerge
  import opened IntakeInvariants

  /** Everything the projection of one intake reads is the same in both tables. */
  ghost predicate SameWork(t: Tables, u: Tables, i: int) {
    && i in t.intakes && i in u.intakes && |t.intakes[i].revisions| == |u.intakes[i].revisions|
    && (forall l: Link | l.intake == i :: l in t.links <==> l in u.links)
    && (forall l | l in t.links && l.intake == i :: Effective(t, l) == Effective(u, l))
    && (forall c: nat :: Newest(t.resolutions, c, i) == Newest(u.resolutions, c, i))
  }

  lemma SameWorkSameReview(t: Tables, u: Tables, i: int)
    requires SameWork(t, u, i)
    requires OneLinkPerCase(t.links) && ResolvedByLink(t) && OneLinkPerCase(u.links) && ResolvedByLink(u)
    ensures Stale(t, i) == Stale(u, i)
    ensures NeedsReview(t, i) == NeedsReview(u, i)
  {
    NeedsReviewMeansStale(t, i);
    NeedsReviewMeansStale(u, i);
  }

  // -------- adding a link --------

  lemma LinkAdded(t: Tables, u: Tables, link: Link)
    requires OneLinkPerCase(t.links) && OnePrimary(t) && ResolvedByLink(t) && References(t)
    requires u.links == t.links + [link] && u.resolutions == t.resolutions
    requires FindLink(t.links, link.intake, link.caseId) == |t.links|
    requires forall l | l in t.links :: Effective(u, l) == Effective(t, l)
    requires link.relationship == Primary ==> !HasEffectiveLink(t, link.intake)
    ensures OneLinkPerCase(u.links) && OnePrimary(u) && ResolvedByLink(u)
  {
    assert forall k | 0 <= k < |t.links| :: u.links[k] == t.links[k] && t.links[k] in t.links;
    assert u.links[|t.links|] == link;
  }

  lemma NotLinked(rows: seq<Link>, intake: int, caseId: nat)
    requires forall l | l in rows :: !(l.intake == intake && l.caseId == caseId)
    ensures FindLink(rows, intake, caseId) == |rows|
  {
  }

  lemma OthersUnaffected(t: Tables, u: Tables, intake: int)
    requires References(t) && OneLinkPerCase(t.links) && ResolvedByLink(t) && OneLinkPerCase(u.links)
      && ResolvedByLink(u)
    requires forall i | i in t.intakes && i != intake && t.intakes[i].state == Linked :: !NeedsReview(t, i)
    requires forall i | i in t.intakes && i != intake :: SameWork(t, u, i) && u.intakes[i].state == t.intakes[i].state
    requires forall i | i in u.intakes && i != intake :: i in t.intakes
    ensures forall i | i in u.intakes && i != intake && u.intakes[i].state == Linked :: !NeedsReview(u, i)
  {
    forall i | i in t.intakes && i != intake && u.intakes[i].state == Linked ensures !NeedsReview(u, i) {
      SameWorkSameReview(t, u, i);
    }
  }

  lemma OpenCaseReady(t: Tables, q: CreateRequest)
    requires Inv(t) && CheckCreate(t, q).None?
    ensures InvBut(OpenCase(t, q), q.intake, |t.cases|)
  {
    var u := OpenCase(t, q);
    var link := u.links[|t.links|];
    assert u.links == t.links + [link];
    NotLinked(t.links, q.intake, |t.cases|);
    LinkAdded(t, u, link);
    OthersUnaffected(t, u, q.intake);
  }

  lemma ReporterAppended(t: Tables, intake: int, row: Party)
    requires InvBut(t, intake, 0) && ReporterRetained(t) && row.key == Reporter && row.caseId < |t.cases|
    ensures InvBut(t.(parties := t.parties + [row]), intake, 0) && ReporterRetained(t.(parties := t.parties + [row]))
  {
    var u := t.(parties := t.parties + [row]);
    forall i | i in t.intakes ensures NeedsReview(u, i) == NeedsReview(t, i) {
      assert SameWork(t, u, i);
      SameWorkSameReview(t, u, i);
    }
    assert OnePrimary(u) by {
      assert forall l :: Effective(u, l) == Effective(t, l);
    }
  }

  lemma CreateKeepsInv(t: Tables, q: CreateRequest)
    requires Inv(t) && Create(t, q).Ok?
    ensures Inv(Create(t, q).value)
  {
    OpenCaseReady(t, q);
    var u := OpenCase(t, q);
    var c := |t.cases|;
    var m := CreateInput(t, q);
    assert u.links[|t.links|] in u.links;
    MergeKeepsInv(u, m);
    var v := Merge(u, m).value;
    MergeKeepsUnique(u, m);
    if q.reporterKnown {
      ReporterAppended(v, q.intake, Party(c, Reporter));
      var w := v.(parties := v.parties + [Party(c, Reporter)]);
      StateKeepsInv(w, q.intake, if NeedsReview(w, q.intake) then Exception else Linked);
    }
  }

  lemma RetainLinkReady(t: Tables, q: LinkRequest)
    requires Inv(t) && CheckLink(t, q).None?
    ensures InvBut(RetainLink(t, q.intake, q.caseId), q.intake, 0)
      && ReporterRetained(RetainLink(t, q.intake, q.caseId))
  {
    var u := RetainLink(t, q.intake, q.caseId);
    if u != t {
      LinkAdded(t, u, u.links[|t.links|]);
      OthersUnaffected(t, u, q.intake);
    }
  }

  lemma LinkKeepsInv(t: Tables, q: LinkRequest)
    requires Inv(t) && LinkCase(t, q).Ok?
    ensures Inv(LinkCase(t, q).value)
  {
    RetainLinkReady(t, q);
    var u := RetainLink(t, q.intake, q.caseId);
    var link := u.links[FindLink(u.links, q.intake, q.caseId)];
    assert link in u.links;
    MergeKeepsInv(u, LinkInput(t, q));
  }

  // -------- duplicate and ignore --------

  lemma ReporterRetainedStep(t: Tables, q: DuplicateRequest)
    requires q.caseId < |t.cases|
    ensures var u := DuplicateReporter(t, q);
      && u == t.(parties := u.parties, provenance := u.provenance) && t.parties <= u.parties
        && t.provenance <= u.provenance
      && (PartiesUnique(t.parties) ==> PartiesUnique(u.parties))
      && (forall p | p in u.parties :: p in t.parties || p.caseId == q.caseId)
  {
    var row := Party(q.caseId, if q.club.Some? then ReportingClub(q.club.value) else League);
    PartyAdded(t.parties, row);
  }

  lemma DuplicateLinkAdded(t: Tables, q: DuplicateRequest)
    requires Inv(t) && CheckDuplicate(t, q).None?
    ensures var u := t.(links := AddRow(t.links, Link(q.intake, q.caseId, Duplicate)));
      InvBut(u, q.intake, 0) && ReporterRetained(u) && Link(q.intake, q.caseId, Duplicate) in u.links
  {
    var link := Link(q.intake, q.caseId, Duplicate);
    var u := t.(links := AddRow(t.links, link));
    if u != t {
      forall l | l in t.links ensures !(l.intake == q.intake && l.caseId == q.caseId) {
        var k :| 0 <= k < |t.links| && t.links[k] == l;
        assert !IsActive(t, q.intake, t.links[k]);
      }
      NotLinked(t.links, q.intake, q.caseId);
      LinkAdded(t, u, link);
      assert u.links[|t.links|] == link;
    }
    OthersUnaffected(t, u, q.intake);
  }

  lemma DuplicateLinkReady(t: Tables, q: DuplicateRequest)
    requires InvBut(t, q.intake, 0) && ReporterRetained(t) && q.caseId < |t.cases|
    ensures InvBut(DuplicateReporter(t, q), q.intake, 0) && ReporterRetained(DuplicateReporter(t, q))
  {
    ReporterRetainedStep(t, q);
    var u := DuplicateReporter(t, q);
    OthersUnaffected(t, u, q.intake);
    assert OnePrimary(u) by {
      assert forall x :: Effective(u, x) == Effective(t, x);
    }
  }

  lemma ResolutionAppended(t: Tables, r: Resolution)
    requires InvBut(t, r.intake, 0) && ReporterRetained(t)
    requires r.caseId < |t.cases| && r.intake in t.intakes && r.revision <= |t.intakes[r.intake].revisions|
    requires Link(r.intake, r.caseId, r.relationship) in t.links
    ensures InvBut(t.(resolutions := t.resolutions + [r]), r.intake, 0)
  {
    var u := t.(resolutions := t.resolutions + [r]);
    forall c: nat, i | i != r.intake ensures Newest(u.resolutions, c, i) == Newest(t.resolutions, c, i) {
      NewestAppended(t.resolutions, r, c, i, Primary);
    }
    OthersUnaffected(t, u, r.intake);
    assert OnePrimary(u) by {
      assert forall l :: Effective(u, l) == Effective(t, l);
    }
  }

  lemma DuplicateKeepsInv(t: Tables, q: DuplicateRequest)
    requires Inv(t) && MarkDuplicate(t, q).Ok?
    ensures Inv(MarkDuplicate(t, q).value)
  {
    if CheckDuplicate(t, q).None? && t.intakes[q.intake].state != MarkedDuplicate {
      DuplicateLinkAdded(t, q);
      DuplicateLinkReady(t.(links := AddRow(t.links, Link(q.intake, q.caseId, Duplicate))), q);
      var u := DuplicateReporter(t.(links := AddRow(t.links, Link(q.intake, q.caseId, Duplicate))), q);
      var r := DuplicateResolution(u, q);
      if !SaysTheSame(NewestAs(u.resolutions, q.caseId, q.intake, Duplicate), r) {
        ResolutionAppended(u, r);
        StateKeepsInv(u.(resolutions := u.resolutions + [r]), q.intake, MarkedDuplicate);
      } else {
        StateKeepsInv(u, q.intake, MarkedDuplicate);
      }
    }
  }

  lemma IgnoreKeepsInv(t: Tables, intake: int)
    requires Inv(t) && Ignore(t, intake).Ok?
    ensures Inv(Ignore(t, intake).value)
  {
    if t.intakes[intake].state != Ignored {
      StateKeepsInv(t, intake, Ignored);
    }
  }

  // -------- the steps taken elsewhere --------

  /** Retiring a case ends its links and leaves no linked report in need of review. */
  lemma RetireKeeps(t: Tables, caseId: nat, intake: int)
    requires Inv(t) && caseId < |t.cases|
    ensures var u := t.(cases := t.cases[caseId := t.cases[caseId].(status := Withdrawn, undone := true)]);
      InvBut(u, intake, 0) && ReporterRetained(u)
  {
    var u := t.(cases := t.cases[caseId := t.cases[caseId].(status := Withdrawn, undone := true)]);
    forall i | i in t.intakes && t.intakes[i].state == Linked ensures !NeedsReview(u, i) {
      NeedsReviewMeansStale(t, i);
      NeedsReviewMeansStale(u, i);
      assert Stale(u, i) <= Stale(t, i);
    }
  }

  lemma UndoKeepsInv(t: Tables, caseId: nat, progressed: bool)
    requires Inv(t) && Undo(t, caseId, progressed).Ok?
    ensures Inv(Undo(t, caseId, progressed).value)
  {
    var link := CaseLinks(t, caseId)[0];
    assert link in CaseLinks(t, caseId);
    RetireKeeps(t, caseId, link.intake);
    var u := t.(cases := t.cases[caseId := t.cases[caseId].(status := Withdrawn, undone := true)]);
    StateKeepsInv(u, link.intake, Ignored);
  }

  lemma ArriveKeepsInv(t: Tables, id: int, intake: Intake)
    requires Inv(t)
    ensures Inv(Arrive(t, id, intake))
  {
    var u := Arrive(t, id, intake);
    if u != t {
      OthersUnaffected(t, u, id);
      assert OnePrimary(u) by {
        assert forall l :: Effective(u, l) == Effective(t, l);
      }
    }
  }

  /** The new revision itself, before the state is set. */
  lemma RevisedReady(t: Tables, id: int, row: Intake, state: IntakeState)
    requires Inv(t) && id in t.intakes && row.revisions != []
    ensures var prior := t.intakes[id];
      InvBut(t.(intakes := t.intakes[id :=
        Intake(state, row.reportingText, row.playerText, prior.revisions + [row.revisions[0]],
                                                  prior.files + row.files)]), id, 0)
  {
    var prior := t.intakes[id];
    var u := t.(intakes := t.intakes[id := Intake(state, row.reportingText, row.playerText,
                                                  prior.revisions + [row.revisions[0]], prior.files + row.files)]);
    OthersUnaffected(t, u, id);
    assert OnePrimary(u) by {
      assert forall l :: Effective(u, l) == Effective(t, l);
    }
  }

  lemma ReviseKeepsInv(t: Tables, id: int, source: Source, row: Intake)
    requires Inv(t)
    ensures Inv(Revise(t, id, source, row))
  {
    if id in t.intakes && row.revisions != [] {
      RevisedReady(t, id, row, RevisedState(t, id, source));
    }
  }

  /** Only statuses of cases differ. */
  ghost predicate SameButStatus(t: Tables, u: Tables) {
    && u == t.(cases := u.cases) && |u.cases| == |t.cases|
    && forall c | 0 <= c < |t.cases| :: u.cases[c] == t.cases[c].(status := u.cases[c].status)
  }

  lemma StatusKeepsLinks(t: Tables, u: Tables)
    requires Inv(t) && SameButStatus(t, u)
    ensures OnePrimary(u) && LinkedIsCurrent(u)
  {
    assert forall l :: Effective(u, l) == Effective(t, l);
    forall i | i in t.intakes ensures NeedsReview(u, i) == NeedsReview(t, i) {
      SameWorkSameReview(t, u, i);
    }
  }

  lemma StatusKeepsSubjects(t: Tables, u: Tables)
    requires Inv(t) && SameButStatus(t, u)
    ensures References(u) && SubjectsOfOneClub(u) && ReporterRetained(u)
  {
  }

  lemma ProgressKeepsInv(t: Tables, caseId: nat, status: CaseStatus)
    requires Inv(t)
    ensures Inv(Progress(t, caseId, status))
  {
    var u := Progress(t, caseId, status);
    assert u == t.(cases := u.cases);
    assert forall c | 0 <= c < |t.cases| :: u.cases[c] == t.cases[c].(status := u.cases[c].status);
    StatusKeepsLinks(t, u);
    StatusKeepsSubjects(t, u);
  }

  lemma StepKeepsInv(t: Tables, s: Step)
    requires Inv(t)
    ensures Inv(Apply(t, s))
  {
    match s
    case CreateStep(q) => if Create(t, q).Ok? { CreateKeepsInv(t, q); }
    case LinkStep(q) => if LinkCase(t, q).Ok? { LinkKeepsInv(t, q); }
    case DuplicateStep(q) => if MarkDuplicate(t, q).Ok? { DuplicateKeepsInv(t, q); }
    case IgnoreStep(i) => if Ignore(t, i).Ok? { IgnoreKeepsInv(t, i); }
    case UndoStep(c, progressed) => if Undo(t, c, progressed).Ok? { UndoKeepsInv(t, c, progressed); }
    case ArriveStep(i, intake) => ArriveKeepsInv(t, i, intake);
    case ReviseStep(i, source, row) => ReviseKeepsInv(t, i, source, row);
    case ProgressStep(c, status) => ProgressKeepsInv(t, c, status);
  }

  /** Every state reached from a state that satisfies the invariant satisfies it. */
  lemma {:induction false} RunKeepsInv(t: Tables, steps: seq<Step>)
    requires Inv(t)
    ensures Inv(Run(t, steps))
    decreases |steps|
  {
    if steps != [] {
      StepKeepsInv(t, steps[0]);
      RunKeepsInv(Apply(t, steps[0]), steps[1..]);
    }
  }

  /** In particular every state reached from an empty queue. */
  lemma ReachableStatesAreSound(teams: map<int, Team>, clubs: map<int, string>, steps: seq<Step>)
    ensures Inv(Run(Start(teams, clubs), steps))
  {
    RunKeepsInv(Start(teams, clubs), steps);
  }
}
