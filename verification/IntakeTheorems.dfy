/**
 * The promises of the triage queue: which steps touch a report, when resolved reports are free of active
 * links, a report counts as linked exactly when none of its cases is behind its newest revision, and
 * re-linking the stale cases in any order restores that.
 */
module IntakeTheorems {
  import opened Common
  import opened Text
  import opened Statuses
  import opened IntakeTables
  import opened IntakeSteps
  import opened IntakeMerge
  import opened IntakeInvariants
  import opened IntakeRuns

  // -------- which intake a step can touch --------

  function Target(s: Step): Option<int> {
    match s
    case CreateStep(q) => Some(q.intake)
    case LinkStep(q) => Some(q.intake)
    case DuplicateStep(q) => Some(q.intake)
    case IgnoreStep(i) => Some(i)
    case ArriveStep(i, _) => Some(i)
    case ReviseStep(i, _, _) => Some(i)
    case UndoStep(_, _) => None
    case ProgressStep(_, _) => None
  }

  ghost predicate Touches(t: Tables, u: Tables, who: Option<int>) {
    && t.links <= u.links
    && (forall l | l in u.links :: l in t.links || Some(l.intake) == who)
    && (forall l | l in t.links :: Effective(u, l) == Effective(t, l))
    && (forall i | i in t.intakes && Some(i) != who :: i in u.intakes && u.intakes[i] == t.intakes[i])
    && (forall i | i in u.intakes :: i in t.intakes || Some(i) == who)
  }

  lemma MergeTouches(t: Tables, m: MergeInput)
    requires m.caseId < |t.cases| && m.intake in t.intakes && Merge(t, m).Ok?
    requires forall l | l in t.links :: l.caseId < |t.cases|
    ensures var u := Merge(t, m).value;
      u.links == t.links && u.intakes == t.intakes && |u.cases| == |t.cases|
      && forall l | l in t.links :: Effective(u, l) == Effective(t, l)
  {
    MergeEffect(t, m);
  }

  /** A step that adds rows for one report, merges and projects touches nothing else. */
  lemma ProjectedTouches(t: Tables, u: Tables, v: Tables, i: int)
    requires i in t.intakes && (forall l | l in t.links :: l.caseId < |t.cases|)
    requires t.links <= u.links && (forall l | l in u.links :: l in t.links || l.intake == i)
    requires u.intakes == t.intakes && v.intakes == t.intakes && v.links == u.links && t.cases <= u.cases
    requires forall l | l in u.links :: Effective(v, l) == Effective(u, l)
    ensures var w := Project(v, i);
      Touches(t, w, Some(i)) && i in w.intakes && Open(w.intakes[i].state)
  {
    assert forall l | l in t.links :: l in u.links && u.cases[l.caseId] == t.cases[l.caseId];
  }

  lemma OpenAdds(t: Tables, q: CreateRequest)
    requires References(t) && CheckCreate(t, q).None?
    ensures var u := OpenCase(t, q);
      && t.links <= u.links && u.intakes == t.intakes && t.cases <= u.cases
      && (forall l | l in u.links :: l in t.links || l.intake == q.intake)
      && forall l | l in u.links :: l.caseId < |u.cases|
  {
  }

  lemma CreateTouches(t: Tables, q: CreateRequest)
    requires Inv(t) && Create(t, q).Ok?
    ensures var u := Create(t, q).value;
      Touches(t, u, Some(q.intake)) && q.intake in u.intakes && Open(u.intakes[q.intake].state)
  {
    var u := OpenCase(t, q);
    OpenAdds(t, q);
    MergeTouches(u, CreateInput(t, q));
    var v := Merge(u, CreateInput(t, q)).value;
    var w := if q.reporterKnown then v.(parties := v.parties + [Party(|t.cases|, Reporter)]) else v;
    ProjectedTouches(t, u, w, q.intake);
  }

  lemma LinkTouches(t: Tables, q: LinkRequest)
    requires Inv(t) && LinkCase(t, q).Ok?
    ensures var u := LinkCase(t, q).value;
      Touches(t, u, Some(q.intake)) && q.intake in u.intakes && Open(u.intakes[q.intake].state)
  {
    var u := RetainLink(t, q.intake, q.caseId);
    RetainAdds(t, q);
    MergeTouches(u, LinkInput(t, q));
    ProjectedTouches(t, u, Merge(u, LinkInput(t, q)).value, q.intake);
  }

  lemma RetainAdds(t: Tables, q: LinkRequest)
    requires References(t) && CheckLink(t, q).None?
    ensures var u := RetainLink(t, q.intake, q.caseId);
      && t.links <= u.links && u.intakes == t.intakes && u.cases == t.cases
      && (forall l | l in u.links :: l in t.links || l.intake == q.intake)
      && forall l | l in u.links :: l.caseId < |u.cases|
  {
  }

  lemma DuplicateTouches(t: Tables, q: DuplicateRequest)
    requires Inv(t) && MarkDuplicate(t, q).Ok?
    ensures var u := MarkDuplicate(t, q).value;
      Touches(t, u, Some(q.intake)) && forall l | l in u.links :: l in t.links || l.relationship == Duplicate
  {
    if t.intakes[q.intake].state != MarkedDuplicate {
      var u := MarkDuplicate(t, q).value;
      assert u.cases == t.cases && u.links == AddRow(t.links, Link(q.intake, q.caseId, Duplicate));
      assert forall l :: Effective(u, l) == Effective(t, l);
    }
  }

  lemma StepTouches(t: Tables, s: Step)
    requires Inv(t) && !s.UndoStep?
    ensures Touches(t, Apply(t, s), Target(s))
  {
    match s
    case CreateStep(q) => if Create(t, q).Ok? { CreateTouches(t, q); }
    case LinkStep(q) => if LinkCase(t, q).Ok? { LinkTouches(t, q); }
    case DuplicateStep(q) => if MarkDuplicate(t, q).Ok? { DuplicateTouches(t, q); }
    case IgnoreStep(i) =>
    case ArriveStep(i, intake) =>
    case ReviseStep(i, source, row) =>
    case ProgressStep(c, status) =>
    case UndoStep(_, _) =>
  }

  lemma ActiveIn(t: Tables, i: int)
    ensures HasActiveLink(t, i) <==> exists l :: l in t.links && IsActive(t, i, l)
  {
    if l :| l in t.links && IsActive(t, i, l) {
      var k :| 0 <= k < |t.links| && t.links[k] == l;
    }
  }

  // -------- resolved reports --------

  lemma UntouchedActive(t: Tables, u: Tables, who: Option<int>, i: int)
    requires Touches(t, u, who) && Some(i) != who
    ensures HasActiveLink(u, i) == HasActiveLink(t, i)
  {
    ActiveIn(t, i);
    ActiveIn(u, i);
    assert forall l | l in u.links && l.intake == i :: l in t.links && IsActive(u, i, l) == IsActive(t, i, l);
    assert forall l | l in t.links :: l in u.links;
  }

  lemma StepKeepsClosed(t: Tables, s: Step)
    requires Inv(t) && ClosedHasNoActive(t) && !s.UndoStep?
    ensures ClosedHasNoActive(Apply(t, s))
  {
    var u := Apply(t, s);
    StepTouches(t, s);
    forall i | i in u.intakes && !Open(u.intakes[i].state) ensures !HasActiveLink(u, i) {
      if Some(i) != Target(s) {
        UntouchedActive(t, u, Target(s), i);
      } else {
        TargetClosed(t, s, i);
      }
    }
  }

  lemma TargetClosed(t: Tables, s: Step, i: int)
    requires Inv(t) && ClosedHasNoActive(t) && !s.UndoStep? && Some(i) == Target(s)
    requires i in Apply(t, s).intakes && !Open(Apply(t, s).intakes[i].state)
    ensures !HasActiveLink(Apply(t, s), i)
  {
    ActiveIn(t, i);
    ActiveIn(Apply(t, s), i);
    match s
    case CreateStep(q) => if Create(t, q).Ok? { CreateTouches(t, q); }
    case LinkStep(q) => if LinkCase(t, q).Ok? { LinkTouches(t, q); }
    case DuplicateStep(q) => if MarkDuplicate(t, q).Ok? { DuplicateTouches(t, q); }
    case _ =>
  }

  /** The report of the case to be withdrawn is active in no other case. */
  ghost predicate NoOtherCase(t: Tables, caseId: nat) {
    forall l, k | l in CaseLinks(t, caseId) && k in t.links && IsActive(t, l.intake, k) :: k.caseId == caseId
  }

  ghost predicate ActiveElsewhere(t: Tables, i: int, caseId: nat) {
    exists l :: l in t.links && IsActive(t, i, l) && l.caseId != caseId
  }

  /** A withdrawal ends the activity of the case's links and of no other link. */
  lemma UndoActive(t: Tables, caseId: nat, progressed: bool, i: int)
    requires Undo(t, caseId, progressed).Ok?
    ensures HasActiveLink(Undo(t, caseId, progressed).value, i) <==> ActiveElsewhere(t, i, caseId)
  {
    var u := Undo(t, caseId, progressed).value;
    ActiveIn(u, i);
    forall l | l in t.links ensures IsActive(u, i, l) == (IsActive(t, i, l) && l.caseId != caseId) {
      assert Effective(u, l) == (Effective(t, l) && l.caseId != caseId);
    }
  }

  /**
   * Withdrawing a case marks its report ignored without looking at the report's other cases. Every
   * resolved report is still free of active links if and only if the report had no other case.
   */
  lemma UndoKeepsClosedIff(t: Tables, caseId: nat, progressed: bool)
    requires Inv(t) && ClosedHasNoActive(t) && Undo(t, caseId, progressed).Ok?
    ensures ClosedHasNoActive(Undo(t, caseId, progressed).value) <==> NoOtherCase(t, caseId)
  {
    var u := Undo(t, caseId, progressed).value;
    var link := CaseLinks(t, caseId)[0];
    assert forall l :: l in CaseLinks(t, caseId) <==> l == link;
    assert NoOtherCase(t, caseId) <==> !ActiveElsewhere(t, link.intake, caseId);
    UndoActive(t, caseId, progressed, link.intake);
    forall i | i in t.intakes && i != link.intake && !Open(u.intakes[i].state) ensures !HasActiveLink(u, i) {
      UndoActive(t, caseId, progressed, i);
      ActiveIn(t, i);
    }
  }

  /** Every withdrawal in the run meets that condition when it is made. */
  ghost predicate SafeWithdrawals(t: Tables, steps: seq<Step>)
    decreases |steps|
  {
    steps == [] ||
    (&& (steps[0].UndoStep? ==> NoOtherCase(t, steps[0].caseId))
     && SafeWithdrawals(Apply(t, steps[0]), steps[1..]))
  }

  lemma SafeStepKeepsClosed(t: Tables, s: Step)
    requires Inv(t) && ClosedHasNoActive(t) && (s.UndoStep? ==> NoOtherCase(t, s.caseId))
    ensures Inv(Apply(t, s)) && ClosedHasNoActive(Apply(t, s))
  {
    StepKeepsInv(t, s);
    if s.UndoStep? {
      if Undo(t, s.caseId, s.progressed).Ok? { UndoKeepsClosedIff(t, s.caseId, s.progressed); }
    } else {
      StepKeepsClosed(t, s);
    }
  }

  lemma {:induction false} RunKeepsClosed(t: Tables, steps: seq<Step>)
    requires Inv(t) && ClosedHasNoActive(t) && SafeWithdrawals(t, steps)
    ensures ClosedHasNoActive(Run(t, steps))
    decreases |steps|
  {
    if steps != [] {
      SafeStepKeepsClosed(t, steps[0]);
      RunKeepsClosed(Apply(t, steps[0]), steps[1..]);
    }
  }

  // -------- linked means current --------

  /** After a merge the projection says exactly whether some case is behind the newest revision. */
  lemma ProjectionIsExact(t: Tables, intake: int)
    requires OneLinkPerCase(t.links) && ResolvedByLink(t) && intake in t.intakes
    ensures var u := Project(t, intake);
      && Stale(u, intake) == Stale(t, intake)
      && u.intakes[intake].state == if Stale(u, intake) == {} then Linked else Exception
  {
    var u := Project(t, intake);
    NeedsReviewMeansStale(t, intake);
    assert forall l :: IsActive(u, intake, l) == IsActive(t, intake, l);
  }

  lemma MergeResolves(t: Tables, m: MergeInput)
    requires InvBut(t, m.intake, 0) && Mergeable(t, m) && Merge(t, m).Ok?
    ensures Stale(Merge(t, m).value, m.intake) == Stale(t, m.intake) - {m.caseId}
  {
    MergeEffect(t, m);
    EffectResolves(t, m, Merge(t, m).value);
  }

  lemma EffectResolves(t: Tables, m: MergeInput, u: Tables)
    requires Effect(t, m, u) && Mergeable(t, m)
    ensures Stale(u, m.intake) == Stale(t, m.intake) - {m.caseId}
  {
    EffectiveKept(t, u, m.caseId);
    forall l: Link | l in t.links ensures IsActive(u, m.intake, l) == IsActive(t, m.intake, l) {}
    assert Names(Newest(u.resolutions, m.caseId, m.intake), m.revision);
  }

  /** A link that is kept or added concerns its own case only. */
  lemma RetainStale(t: Tables, q: LinkRequest)
    requires Inv(t) && CheckLink(t, q).None?
    ensures var r := RetainLink(t, q.intake, q.caseId);
      r.links[FindLink(r.links, q.intake, q.caseId)] in r.links
      && Stale(r, q.intake) - {q.caseId} == Stale(t, q.intake) - {q.caseId}
  {
    var r := RetainLink(t, q.intake, q.caseId);
    assert forall l :: IsActive(r, q.intake, l) == IsActive(t, q.intake, l);
  }

  /** Linking catches up one case and leaves the others as they were. */
  lemma LinkCatchesUp(t: Tables, q: LinkRequest)
    requires Inv(t) && LinkCase(t, q).Ok?
    ensures var u := LinkCase(t, q).value;
      && q.intake in u.intakes
      && Stale(u, q.intake) == Stale(t, q.intake) - {q.caseId}
      && u.intakes[q.intake].state == if Stale(u, q.intake) == {} then Linked else Exception
  {
    var r := RetainLink(t, q.intake, q.caseId);
    RetainLinkReady(t, q);
    var m := LinkInput(t, q);
    RetainStale(t, q);
    MergeResolves(r, m);
    MergeKeepsInv(r, m);
    ProjectionIsExact(Merge(r, m).value, q.intake);
  }

  /** The new case has no resolution yet, and no older case is concerned. */
  lemma OpenStale(t: Tables, q: CreateRequest)
    requires Inv(t) && CheckCreate(t, q).None?
    ensures Stale(OpenCase(t, q), q.intake) - {|t.cases|} == Stale(t, q.intake)
  {
    var o := OpenCase(t, q);
    assert forall l | l in t.links :: l in o.links && IsActive(o, q.intake, l) == IsActive(t, q.intake, l);
    assert forall l | l in o.links :: l in t.links || l.caseId == |t.cases|;
  }

  /**
   * Opening a case puts no case behind and catches up none, so that the report is linked exactly when
   * none was behind before.
   */
  lemma CreateCatchesUp(t: Tables, q: CreateRequest)
    requires Inv(t) && Create(t, q).Ok?
    ensures var u := Create(t, q).value;
      && q.intake in u.intakes
      && Stale(u, q.intake) == Stale(t, q.intake)
      && u.intakes[q.intake].state == if Stale(t, q.intake) == {} then Linked else Exception
  {
    var o, m := OpenCase(t, q), CreateInput(t, q);
    var v := Merge(o, m).value;
    OpenStale(t, q);
    OpenedResolves(t, q);
    var w := if q.reporterKnown then v.(parties := v.parties + [Party(|t.cases|, Reporter)]) else v;
    ReporterStale(v, q.intake, w);
    ProjectionIsExact(w, q.intake);
  }

  lemma OpenedResolves(t: Tables, q: CreateRequest)
    requires Inv(t) && Create(t, q).Ok?
    ensures var o := OpenCase(t, q);
      var v := Merge(o, CreateInput(t, q)).value;
      && q.intake in v.intakes && OneLinkPerCase(v.links) && ResolvedByLink(v)
      && Stale(v, q.intake) == Stale(o, q.intake) - {|t.cases|}
  {
    var o, m := OpenCase(t, q), CreateInput(t, q);
    OpenCaseReady(t, q);
    assert o.links[|t.links|] in o.links;
    MergeEffect(o, m);
    EffectResolves(o, m, Merge(o, m).value);
    MergeKeepsInv(o, m);
  }

  lemma ReporterStale(v: Tables, intake: int, w: Tables)
    requires intake in v.intakes && w == v.(parties := w.parties)
    ensures Stale(w, intake) == Stale(v, intake)
  {
    assert forall l :: IsActive(w, intake, l) == IsActive(v, intake, l);
  }

  /**
   * A new revision puts every active case of the report behind. A report of the sheet with an effective
   * link then always waits for review; a report of the native form does so only if it had been resolved,
   * and otherwise counts as new, whatever its links.
   */
  lemma ReviseMakesAllStale(t: Tables, i: int, source: Source, row: Intake)
    requires Inv(t) && i in t.intakes && row.revisions != []
    ensures var u := Revise(t, i, source, row);
      && i in u.intakes
      && Stale(u, i) == (set l | l in t.links && IsActive(t, i, l) :: l.caseId)
      && (source.Sheet? && HasEffectiveLink(t, i) ==> u.intakes[i].state == Exception)
      && (source.NativeForm? ==>
        (u.intakes[i].state == Exception <==> t.intakes[i].state in {Linked, MarkedDuplicate, Ignored}))
  {
    var u := Revise(t, i, source, row);
    assert forall l :: IsActive(u, i, l) == IsActive(t, i, l);
  }

  // -------- re-linking in any order --------

  /** A re-link request that the handler accepts, with every retained file still readable. */
  ghost predicate Ready(t: Tables, q: LinkRequest) {
    && CheckLink(t, q).None?
    && (q.club.Some? ==> Trim(ClubName(t, q.club)) != "")
    && forall f | f in t.intakes[q.intake].files :: f.intact
  }

  lemma {:induction false} IntactFilesAttach(rows: seq<Evidence>, caseId: nat, intake: int, files: seq<File>)
    requires forall f | f in files :: f.intact
    ensures Attach(rows, caseId, intake, files).Ok?
    decreases |files|
  {
    if files != [] {
      assert files[0] in files;
      var e := EvidenceRow(caseId, intake, files[0]);
      IntactFilesAttach(if e in rows then rows else rows + [e], caseId, intake, files[1..]);
    }
  }

  lemma ReadySucceeds(t: Tables, q: LinkRequest)
    requires Ready(t, q)
    ensures LinkCase(t, q).Ok?
  {
    IntactFilesAttach(t.evidence, q.caseId, q.intake, t.intakes[q.intake].files);
  }

  lemma ReadyFrame(t: Tables, u: Tables, p: LinkRequest, state: IntakeState)
    requires Ready(t, p) && u.teams == t.teams && u.clubs == t.clubs && |u.cases| == |t.cases|
    requires u.cases[p.caseId].status == t.cases[p.caseId].status
      && u.cases[p.caseId].clubId == t.cases[p.caseId].clubId
    requires p.intake in u.intakes && u.intakes[p.intake] == t.intakes[p.intake].(state := state) && Open(state)
    ensures Ready(u, p)
  {
  }

  /** A successful link leaves every other request for the same report acceptable. */
  lemma ReadyStays(t: Tables, q: LinkRequest, p: LinkRequest)
    requires Inv(t) && LinkCase(t, q).Ok? && Ready(t, p) && p.intake == q.intake
    ensures Ready(LinkCase(t, q).value, p)
  {
    var r := RetainLink(t, q.intake, q.caseId);
    MergeEffect(r, LinkInput(t, q));
    var v := Merge(r, LinkInput(t, q)).value;
    var u := Project(v, q.intake);
    ReadyFrame(t, u, p, u.intakes[q.intake].state);
  }

  function LinkSteps(qs: seq<LinkRequest>): (r: seq<Step>)
    ensures |r| == |qs|
  {
    seq(|qs|, k requires 0 <= k < |qs| => LinkStep(qs[k]))
  }

  ghost function Cases(qs: seq<LinkRequest>): set<nat> {
    set q | q in qs :: q.caseId
  }

  lemma RelinkFirst(t: Tables, qs: seq<LinkRequest>)
    requires qs != [] && LinkCase(t, qs[0]).Ok?
    ensures Run(t, LinkSteps(qs)) == Run(LinkCase(t, qs[0]).value, LinkSteps(qs[1..]))
    ensures Cases(qs) == {qs[0].caseId} + Cases(qs[1..])
  {
    assert LinkSteps(qs)[1..] == LinkSteps(qs[1..]);
    assert Apply(t, LinkSteps(qs)[0]) == LinkCase(t, qs[0]).value;
    assert qs == [qs[0]] + qs[1..];
  }

  /** What re-linking a set of cases achieves for one report. */
  ghost predicate CaughtUp(before: set<nat>, u: Tables, i: int, cases: set<nat>) {
    && i in u.intakes
    && Stale(u, i) == before - cases
    && (u.intakes[i].state == Linked <==> before <= cases)
  }

  /**
   * Acceptable requests for one report succeed in whatever order they are sent; what is left stale is
   * what they did not name, and the report is linked again exactly when they named every stale case.
   */
  lemma {:induction false} RelinkInAnyOrder(t: Tables, i: int, qs: seq<LinkRequest>)
    requires Inv(t) && i in t.intakes && qs != []
    requires forall q | q in qs :: q.intake == i && Ready(t, q)
    ensures CaughtUp(Stale(t, i), Run(t, LinkSteps(qs)), i, Cases(qs))
    decreases |qs|, 1
  {
    var q := qs[0];
    assert q in qs;
    ReadySucceeds(t, q);
    LinkCatchesUp(t, q);
    LinkKeepsInv(t, q);
    RelinkFirst(t, qs);
    if |qs| > 1 {
      RelinkRest(t, i, qs);
    }
  }

  lemma {:induction false} RelinkRest(t: Tables, i: int, qs: seq<LinkRequest>)
    requires Inv(t) && i in t.intakes && |qs| > 1
    requires forall q | q in qs :: q.intake == i && Ready(t, q)
    requires LinkCase(t, qs[0]).Ok? && Inv(LinkCase(t, qs[0]).value)
    requires i in LinkCase(t, qs[0]).value.intakes && Stale(LinkCase(t, qs[0]).value, i) == Stale(t, i) - {qs[0].caseId}
    ensures CaughtUp(Stale(t, i), Run(LinkCase(t, qs[0]).value, LinkSteps(qs[1..])), i, {qs[0].caseId} + Cases(qs[1..]))
    decreases |qs|, 0
  {
    var u, rest := LinkCase(t, qs[0]).value, qs[1..];
    forall p | p in rest ensures p.intake == i && Ready(u, p) {
      assert p in qs && qs[0] in qs;
      ReadyStays(t, qs[0], p);
    }
    RelinkInAnyOrder(u, i, rest);
    AlsoCaughtUp(Stale(t, i), Run(u, LinkSteps(rest)), i, qs[0].caseId, Cases(rest));
  }

  lemma AlsoCaughtUp(before: set<nat>, u: Tables, i: int, c: nat, cases: set<nat>)
    requires CaughtUp(before - {c}, u, i, cases)
    ensures CaughtUp(before, u, i, {c} + cases)
  {
  }

  /** Each re-link of a stale case leaves exactly one fewer: the measure by which re-linking ends. */
  lemma RelinkMeasure(t: Tables, q: LinkRequest)
    requires Inv(t) && LinkCase(t, q).Ok? && q.caseId in Stale(t, q.intake)
    ensures q.intake in LinkCase(t, q).value.intakes
    ensures |Stale(LinkCase(t, q).value, q.intake)| == |Stale(t, q.intake)| - 1
  {
    LinkCatchesUp(t, q);
  }

  // -------- the runs that the condition on withdrawals shuts out --------

  /** A create request that the handler accepts, with every retained file still readable. */
  ghost predicate Creatable(t: Tables, q: CreateRequest) {
    && CheckCreate(t, q).None?
    && (q.club.Some? ==> Trim(ClubName(t, q.club)) != "")
    && forall f | f in t.intakes[q.intake].files :: f.intact
  }

  lemma CreateSucceeds(t: Tables, q: CreateRequest)
    requires Creatable(t, q)
    ensures Create(t, q).Ok?
  {
    var o := OpenCase(t, q);
    IntactFilesAttach(o.evidence, |t.cases|, q.intake, t.intakes[q.intake].files);
  }

  lemma CreatableFrame(t: Tables, u: Tables, q: CreateRequest, state: IntakeState)
    requires Creatable(t, q) && u.teams == t.teams && u.clubs == t.clubs
    requires q.intake in u.intakes && u.intakes[q.intake] == t.intakes[q.intake].(state := state) && Open(state)
    ensures Creatable(u, q)
  {
  }

  /** The case that a create request has just opened. */
  ghost predicate Opened(t: Tables, u: Tables, q: CreateRequest) {
    && |u.cases| == |t.cases| + 1
    && u.links == t.links + [Link(q.intake, |t.cases|, if HasEffectiveLink(t, q.intake) then Split else Primary)]
    && u.cases[|t.cases|].status == Investigating && !u.cases[|t.cases|].undone
    && forall c | 0 <= c < |t.cases| :: u.cases[c] == t.cases[c]
  }

  lemma CreateOpens(t: Tables, q: CreateRequest)
    requires Create(t, q).Ok?
    ensures var u := Create(t, q).value;
      && Opened(t, u, q) && u.teams == t.teams && u.clubs == t.clubs && q.intake in u.intakes
      && u.intakes[q.intake] == t.intakes[q.intake].(state := u.intakes[q.intake].state)
        && Open(u.intakes[q.intake].state)
  {
    var o := OpenCase(t, q);
    var v := Merge(o, CreateInput(t, q)).value;
    MergeEffect(o, CreateInput(t, q));
    assert |v.cases| == |t.cases| + 1 && v.links == o.links && v.intakes == t.intakes;
    assert forall c | 0 <= c < |t.cases| :: v.cases[c] == o.cases[c] == t.cases[c];
    assert v.cases[|t.cases|].status == Investigating && !v.cases[|t.cases|].undone;
    var u := Create(t, q).value;
    assert u.cases == v.cases && u.links == v.links;
  }

  lemma Created(t: Tables, q: CreateRequest)
    requires Inv(t) && Creatable(t, q)
    ensures Create(t, q).Ok?
    ensures var u := Create(t, q).value; Inv(u) && Creatable(u, q) && Opened(t, u, q)
  {
    CreateSucceeds(t, q);
    CreateKeepsInv(t, q);
    CreateOpens(t, q);
    var u := Create(t, q).value;
    CreatableFrame(t, u, q, u.intakes[q.intake].state);
  }

  lemma {:induction false} NoLinksOfCase(rows: seq<Link>, caseId: nat)
    requires forall l | l in rows :: l.caseId != caseId
    ensures LinksOfCase(rows, caseId) == []
  {
    if rows != [] {
      NoLinksOfCase(rows[..|rows| - 1], caseId);
      assert rows[|rows| - 1] in rows;
    }
  }

  lemma TwoLinksOfCase(rows: seq<Link>, one: Link, two: Link)
    requires forall l | l in rows :: l.caseId != one.caseId
    requires one.relationship != Duplicate && two.caseId != one.caseId
    ensures LinksOfCase(rows + [one] + [two], one.caseId) == [one]
  {
    NoLinksOfCase(rows, one.caseId);
    assert (rows + [one] + [two])[..|rows| + 1] == rows + [one];
    assert (rows + [one])[..|rows|] == rows;
  }

  lemma WithdrawnWhileSplit(t: Tables, rows: seq<Link>, one: Link, two: Link)
    requires t.links == rows + [one] + [two] && one.intake == two.intake && one.intake in t.intakes
    requires one.relationship == Primary && two.relationship == Split && one.caseId != two.caseId
    requires forall l | l in rows :: l.caseId != one.caseId
    requires one.caseId < |t.cases| && two.caseId < |t.cases|
    requires t.cases[one.caseId].status == Investigating
    requires !t.cases[one.caseId].undone && !t.cases[two.caseId].undone
    ensures Undo(t, one.caseId, false).Ok? && !ClosedHasNoActive(Undo(t, one.caseId, false).value)
  {
    TwoLinksOfCase(rows, one, two);
    var u := Undo(t, one.caseId, false).value;
    assert u.links == t.links && u.links[|rows| + 1] == two;
    assert Effective(u, two);
    assert IsActive(u, one.intake, u.links[|rows| + 1]);
    assert HasActiveLink(u, one.intake);
    assert !Open(u.intakes[one.intake].state);
  }

  lemma SplitTwice(t: Tables, q: CreateRequest)
    requires Inv(t) && Creatable(t, q)
    requires forall l | l in t.links :: l.intake != q.intake
    ensures Create(t, q).Ok? && Create(Create(t, q).value, q).Ok?
    ensures var c := Create(Create(t, q).value, q).value;
      && Undo(c, |t.cases|, false).Ok? && !ClosedHasNoActive(Undo(c, |t.cases|, false).value)
  {
    var first := |t.cases|;
    Created(t, q);
    var b := Create(t, q).value;
    var one := Link(q.intake, first, Primary);
    assert b.links[|t.links|] == one;
    Created(b, q);
    var c := Create(b, q).value;
    assert IsActive(b, q.intake, b.links[|t.links|]);
    WithdrawnWhileSplit(c, t.links, one, Link(q.intake, first + 1, Split));
  }

  /** Splitting any fresh report into two cases and then withdrawing the first strands the report. */
  lemma WithdrawingStrandsASplitReport(t: Tables, q: CreateRequest)
    requires Inv(t) && Creatable(t, q)
    requires forall l | l in t.links :: l.intake != q.intake
    ensures !ClosedHasNoActive(Run(t, [CreateStep(q), CreateStep(q), UndoStep(|t.cases|, false)]))
  {
    SplitTwice(t, q);
    RunOfThree(t, CreateStep(q), CreateStep(q), UndoStep(|t.cases|, false));
    var b := Create(t, q).value;
    var c := Create(b, q).value;
    Succeeds(t, CreateStep(q), Create(t, q));
    Succeeds(b, CreateStep(q), Create(b, q));
    Succeeds(c, UndoStep(|t.cases|, false), Undo(c, |t.cases|, false));
  }

  lemma Succeeds(t: Tables, s: Step, r: Result<Tables, Refusal>)
    requires r.Ok?
    requires (s.CreateStep? && r == Create(t, s.create)) || (s.UndoStep? && r == Undo(t, s.caseId, s.progressed))
    ensures Apply(t, s) == r.value
  {
  }

  lemma RunOfThree(t: Tables, a: Step, b: Step, c: Step)
    ensures Run(t, [a, b, c]) == Apply(Apply(Apply(t, a), b), c)
  {
    var u := Apply(t, a);
    var v := Apply(u, b);
    assert [a, b, c][1..] == [b, c] && [b, c][1..] == [c] && [c][1..] == [];
    assert Run(v, [c]) == Run(Apply(v, c), []);
    assert Run(u, [b, c]) == Run(v, [c]);
  }
}
