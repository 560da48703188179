/** What every run of triage steps keeps. */
module IntakeInvariants {
  import opened Common
  import opened Text
  import opened Statuses
  import opened IntakeTables
  import opened IntakeSteps
  import opened IntakeMerge

  // -------- the invariant --------

  /** Every row refers to a case and an intake that exist, and to a revision already received. */
  ghost predicate References(t: Tables) {
    && (forall i | i in t.intakes :: t.intakes[i].revisions != [])
    && (forall l | l in t.links :: l.caseId < |t.cases| && l.intake in t.intakes)
    && (forall s | s in t.subjects :: s.caseId < |t.cases|)
    && (forall p | p in t.parties :: p.caseId < |t.cases|)
    && (forall r | r in t.resolutions ::
          r.caseId < |t.cases| && r.intake in t.intakes && r.revision <= |t.intakes[r.intake].revisions|)
  }

  /** An intake is linked to a case at most once, whatever the relationship. */
  ghost predicate OneLinkPerCase(rows: seq<Link>) {
    forall i, j | 0 <= i < j < |rows| :: !(rows[i].intake == rows[j].intake && rows[i].caseId == rows[j].caseId)
  }

  /** An intake has at most one effective primary link. */
  ghost predicate OnePrimary(t: Tables) {
    forall i, j | 0 <= i < j < |t.links| && t.links[i].intake == t.links[j].intake ::
      !(Effective(t, t.links[i]) && Effective(t, t.links[j])
        && t.links[i].relationship == Primary && t.links[j].relationship == Primary)
  }

  /** Every team of a case, alone or as a player's team, belongs to the case's club. */
  ghost predicate SubjectsOfOneClub(t: Tables) {
    forall s | s in t.subjects && s.team.Some? ::
      s.caseId < |t.cases| && s.team.value in t.teams && t.teams[s.team.value].clubId == t.cases[s.caseId].clubId
  }

  /** Every resolution belongs to a link and repeats its relationship. */
  ghost predicate ResolvedByLink(t: Tables) {
    forall r | r in t.resolutions :: Link(r.intake, r.caseId, r.relationship) in t.links
  }

  ghost predicate LinkedIsCurrent(t: Tables) {
    forall i | i in t.intakes && t.intakes[i].state == Linked :: !NeedsReview(t, i)
  }

  ghost predicate WithdrawnStays(t: Tables) {
    forall c | 0 <= c < |t.cases| && t.cases[c].undone :: t.cases[c].status == Withdrawn
  }

  ghost predicate Inv(t: Tables) {
    && References(t) && OneLinkPerCase(t.links) && OnePrimary(t) && SubjectsOfOneClub(t)
    && SubjectsUnique(t.subjects) && PartiesUnique(t.parties) && ReporterRetained(t)
    && ResolvedByLink(t) && LinkedIsCurrent(t) && WithdrawnStays(t)
  }

  /** A duplicate or ignored intake holds no active link. */
  ghost predicate ClosedHasNoActive(t: Tables) {
    forall i | i in t.intakes && !Open(t.intakes[i].state) :: !HasActiveLink(t, i)
  }

  // -------- newest resolutions --------

  ghost predicate Names(r: Option<Resolution>, revision: nat) {
    r.Some? && r.value.revision == revision
  }

  lemma {:induction false} NewestOfLink(rows: seq<Resolution>, link: Link)
    requires forall r | r in rows && r.caseId == link.caseId && r.intake == link.intake ::
      r.relationship == link.relationship
    ensures NewestAs(rows, link.caseId, link.intake, link.relationship) == Newest(rows, link.caseId, link.intake)
  {
    if rows != [] {
      assert rows[|rows| - 1] in rows;
      NewestOfLink(rows[..|rows| - 1], link);
    }
  }

  /** The projection looks only at resolutions of the link's relationship; there are no others. */
  lemma UnresolvedMeansStale(t: Tables, link: Link, revision: nat)
    requires OneLinkPerCase(t.links) && ResolvedByLink(t) && link in t.links
    ensures Unresolved(t, link, revision) <==> !Names(Newest(t.resolutions, link.caseId, link.intake), revision)
  {
    forall r | r in t.resolutions && r.caseId == link.caseId && r.intake == link.intake
      ensures r.relationship == link.relationship
    {
      var a :| 0 <= a < |t.links| && t.links[a] == link;
      var b :| 0 <= b < |t.links| && t.links[b] == Link(r.intake, r.caseId, r.relationship);
    }
    NewestOfLink(t.resolutions, link);
  }

  /** The cases in which an intake's newest revision still has to be reviewed. */
  ghost function Stale(t: Tables, intake: int): set<nat>
    requires intake in t.intakes
  {
    set l | l in t.links && IsActive(t, intake, l)
        && !Names(Newest(t.resolutions, l.caseId, intake), |t.intakes[intake].revisions|) :: l.caseId
  }

  lemma NeedsReviewMeansStale(t: Tables, intake: int)
    requires OneLinkPerCase(t.links) && ResolvedByLink(t) && intake in t.intakes
    ensures NeedsReview(t, intake) <==> Stale(t, intake) != {}
  {
    var n := |t.intakes[intake].revisions|;
    if NeedsReview(t, intake) {
      var i :| 0 <= i < |t.links| && IsActive(t, intake, t.links[i]) && Unresolved(t, t.links[i], n);
      UnresolvedMeansStale(t, t.links[i], n);
      assert t.links[i].caseId in Stale(t, intake);
    }
    if Stale(t, intake) != {} {
      var caseId :| caseId in Stale(t, intake);
      var l :| l in t.links && IsActive(t, intake, l) && !Names(Newest(t.resolutions, l.caseId, intake), n)
        && l.caseId == caseId;
      UnresolvedMeansStale(t, l, n);
      var i :| 0 <= i < |t.links| && t.links[i] == l;
    }
  }

  // -------- merging keeps the invariant --------

  /** What links, intakes and resolutions must look like around one intake for the projection to hold again. */
  ghost predicate InvBut(t: Tables, intake: int, caseId: nat) {
    && References(t) && OneLinkPerCase(t.links) && OnePrimary(t) && SubjectsOfOneClub(t)
    && SubjectsUnique(t.subjects) && PartiesUnique(t.parties) && ReporterRetainedBut(t, caseId)
    && ResolvedByLink(t) && WithdrawnStays(t)
    && forall i | i in t.intakes && i != intake && t.intakes[i].state == Linked :: !NeedsReview(t, i)
  }

  ghost predicate Mergeable(t: Tables, m: MergeInput) {
    && m.caseId < |t.cases| && m.intake in t.intakes
    && m.revision == |t.intakes[m.intake].revisions|
    && Link(m.intake, m.caseId, m.relationship) in t.links
    && m.team in t.teams && t.teams[m.team].clubId == t.cases[m.caseId].clubId
  }

  lemma EffectiveKept(t: Tables, u: Tables, caseId: nat)
    requires SameCasesBut(t, u, caseId) && u.links == t.links
    ensures forall l | l in t.links :: Effective(u, l) == Effective(t, l)
  {
  }

  /** Another intake's projection does not notice a merge. */
  lemma OthersKept(t: Tables, m: MergeInput, u: Tables, i: int)
    requires Effect(t, m, u) && i in t.intakes && i != m.intake
    requires OneLinkPerCase(t.links) && ResolvedByLink(t) && ResolvedByLink(u)
    ensures NeedsReview(u, i) == NeedsReview(t, i)
  {
    EffectiveKept(t, u, m.caseId);
    NeedsReviewMeansStale(t, i);
    NeedsReviewMeansStale(u, i);
    forall l: Link | l in t.links ensures IsActive(u, i, l) == IsActive(t, i, l) {}
    assert Stale(t, i) == Stale(u, i);
  }

  lemma MergeKeepsReferences(t: Tables, m: MergeInput, u: Tables)
    requires Effect(t, m, u) && Mergeable(t, m)
    requires References(t) && SubjectsOfOneClub(t) && ResolvedByLink(t) && WithdrawnStays(t)
    ensures References(u) && SubjectsOfOneClub(u) && ResolvedByLink(u) && WithdrawnStays(u)
  {
    forall s | s in u.subjects && s.team.Some?
      ensures s.caseId < |u.cases| && s.team.value in u.teams
        && u.teams[s.team.value].clubId == u.cases[s.caseId].clubId
    {
    }
  }

  lemma MergeKeepsOnePrimary(t: Tables, m: MergeInput, u: Tables)
    requires Effect(t, m, u) && OnePrimary(t)
    ensures OnePrimary(u)
  {
    EffectiveKept(t, u, m.caseId);
    forall i, j | 0 <= i < j < |u.links| && u.links[i].intake == u.links[j].intake
      ensures !(Effective(u, u.links[i]) && Effective(u, u.links[j])
                && u.links[i].relationship == Primary && u.links[j].relationship == Primary)
    {
      assert u.links[i] in t.links && u.links[j] in t.links;
    }
  }

  /** Merging and then projecting restores the whole invariant. */
  lemma MergeKeepsInv(t: Tables, m: MergeInput)
    requires InvBut(t, m.intake, m.caseId) && Mergeable(t, m) && Merge(t, m).Ok?
    requires m.primary || ReporterRetained(t)
    ensures Inv(Project(Merge(t, m).value, m.intake))
    ensures InvBut(Merge(t, m).value, m.intake, 0)
  {
    var u := Merge(t, m).value;
    MergeEffect(t, m);
    MergeKeepsUnique(t, m);
    MergedKeepsInv(t, m, u);
  }

  lemma MergedKeepsInv(t: Tables, m: MergeInput, u: Tables)
    requires InvBut(t, m.intake, m.caseId) && Mergeable(t, m) && Effect(t, m, u)
    requires SubjectsUnique(u.subjects) && PartiesUnique(u.parties) && ReporterRetained(u)
    ensures InvBut(u, m.intake, 0) && Inv(Project(u, m.intake))
  {
    MergeKeepsReferences(t, m, u);
    MergeKeepsOnePrimary(t, m, u);
    forall i | i in t.intakes && i != m.intake ensures NeedsReview(u, i) == NeedsReview(t, i) {
      OthersKept(t, m, u, i);
    }
    StateKeepsInv(u, m.intake, if NeedsReview(u, m.intake) then Exception else Linked);
  }

  /** Overwriting one intake's state is safe when a linked state is a current one. */
  lemma StateKeepsInv(t: Tables, intake: int, state: IntakeState)
    requires intake in t.intakes
    requires InvBut(t, intake, 0) && ReporterRetained(t)
    requires state == Linked ==> !NeedsReview(t, intake)
    ensures Inv(SetState(t, intake, state))
    ensures forall i | i in t.intakes :: NeedsReview(SetState(t, intake, state), i) == NeedsReview(t, i)
    ensures forall i :: HasActiveLink(SetState(t, intake, state), i) == HasActiveLink(t, i)
  {
    var u := SetState(t, intake, state);
    assert forall l :: Effective(u, l) == Effective(t, l);
    forall i ensures HasActiveLink(u, i) == HasActiveLink(t, i) {
      assert forall l :: IsActive(u, i, l) == IsActive(t, i, l);
    }
    forall i | i in t.intakes ensures NeedsReview(u, i) == NeedsReview(t, i) {
      assert forall l :: IsActive(u, i, l) == IsActive(t, i, l);
    }
  }
}
