/**
 * What the state of a report says about its links, over whole runs: duplicates hold no active link, a
 * resolved report stays as it is until its source changes, and exactly which steps leave an ignored
 * report in active casework or a linked one out of it.
 */
module IntakeStanding {
  import opened Common
  import opened Text
  import opened Statuses
  import opened IntakeTables
  import opened IntakeSteps
  import opened IntakeMerge
  import opened IntakeInvariants
  import opened IntakeRuns
  import opened IntakeTheorems

  // -------- duplicates hold no active link --------

  ghost predicate DuplicatesIdle(t: Tables) {
    forall i | i in t.intakes && t.intakes[i].state == MarkedDuplicate :: !HasActiveLink(t, i)
  }

  lemma UndoTarget(t: Tables, caseId: nat, progressed: bool)
    requires Undo(t, caseId, progressed).Ok?
    ensures var link := CaseLinks(t, caseId)[0];
      link in t.links && link.caseId == caseId && link.relationship == Primary && IsActive(t, link.intake, link)
  {
    assert CaseLinks(t, caseId)[0] in CaseLinks(t, caseId);
  }

  lemma StepKeepsIdle(t: Tables, s: Step)
    requires Inv(t) && DuplicatesIdle(t)
    ensures DuplicatesIdle(Apply(t, s))
  {
    var u := Apply(t, s);
    if s.UndoStep? {
      if Undo(t, s.caseId, s.progressed).Ok? {
        forall i | i in u.intakes && u.intakes[i].state == MarkedDuplicate ensures !HasActiveLink(u, i) {
          UndoActive(t, s.caseId, s.progressed, i);
          ActiveIn(t, i);
        }
      }
    } else {
      StepTouches(t, s);
      forall i | i in u.intakes && u.intakes[i].state == MarkedDuplicate ensures !HasActiveLink(u, i) {
        if Some(i) != Target(s) {
          UntouchedActive(t, u, Target(s), i);
        } else {
          TargetIdle(t, s, i);
        }
      }
    }
  }

  lemma TargetIdle(t: Tables, s: Step, i: int)
    requires Inv(t) && DuplicatesIdle(t) && !s.UndoStep? && Some(i) == Target(s)
    requires i in Apply(t, s).intakes && Apply(t, s).intakes[i].state == MarkedDuplicate
    ensures !HasActiveLink(Apply(t, s), i)
  {
    ActiveIn(t, i);
    ActiveIn(Apply(t, s), i);
    match s
    case CreateStep(q) => if Create(t, q).Ok? { CreateTouches(t, q); }
    case LinkStep(q) => if LinkCase(t, q).Ok? { LinkTouches(t, q); }
    case DuplicateStep(q) => if MarkDuplicate(t, q).Ok? { DuplicateTouches(t, q); }
    case IgnoreStep(_) =>
    case ArriveStep(_, _) =>
    case ReviseStep(_, _, _) =>
    case ProgressStep(_, _) =>
    case UndoStep(_, _) =>
  }

  /** Over every run, whatever is withdrawn. */
  lemma {:induction false} RunKeepsIdle(t: Tables, steps: seq<Step>)
    requires Inv(t) && DuplicatesIdle(t)
    ensures DuplicatesIdle(Run(t, steps))
    decreases |steps|
  {
    if steps != [] {
      StepKeepsIdle(t, steps[0]);
      StepKeepsInv(t, steps[0]);
      RunKeepsIdle(Apply(t, steps[0]), steps[1..]);
    }
  }

  /** In particular in every state reached from an empty queue. */
  lemma ReachableDuplicatesAreIdle(teams: map<int, Team>, clubs: map<int, string>, steps: seq<Step>)
    ensures DuplicatesIdle(Run(Start(teams, clubs), steps))
  {
    RunKeepsIdle(Start(teams, clubs), steps);
  }

  // -------- resolved reports are frozen --------

  ghost predicate SameReport(t: Tables, u: Tables, i: int) {
    && i in t.intakes && i in u.intakes && u.intakes[i] == t.intakes[i]
    && forall l: Link | l.intake == i :: l in u.links <==> l in t.links
  }

  /** No step but a source change alters a resolved report or its links. */
  lemma ClosedIsFrozen(t: Tables, s: Step, i: int)
    requires Inv(t) && DuplicatesIdle(t) && i in t.intakes && !Open(t.intakes[i].state)
    requires !(s.ReviseStep? && s.intake == i)
    ensures SameReport(t, Apply(t, s), i)
  {
    if s.UndoStep? {
      if Undo(t, s.caseId, s.progressed).Ok? {
        UndoTarget(t, s.caseId, s.progressed);
        ActiveIn(t, i);
      }
    } else if Some(i) != Target(s) {
      StepTouches(t, s);
    }
  }

  /** Nor does any run without such a change, whatever else happens in it. */
  lemma {:induction false} ClosedStaysFrozen(t: Tables, steps: seq<Step>, i: int)
    requires Inv(t) && DuplicatesIdle(t) && i in t.intakes && !Open(t.intakes[i].state)
    requires forall k | 0 <= k < |steps| :: !(steps[k].ReviseStep? && steps[k].intake == i)
    ensures SameReport(t, Run(t, steps), i)
    decreases |steps|
  {
    if steps != [] {
      ClosedIsFrozen(t, steps[0], i);
      StepKeepsIdle(t, steps[0]);
      StepKeepsInv(t, steps[0]);
      ClosedStaysFrozen(Apply(t, steps[0]), steps[1..], i);
    }
  }

  // -------- ignored reports that are still in casework --------

  ghost predicate Stranded(t: Tables, i: int) {
    i in t.intakes && t.intakes[i].state == Ignored && HasActiveLink(t, i)
  }

  /** An ignored report opened no case that could still be withdrawn. */
  ghost predicate IgnoredOpenedNone(t: Tables) {
    forall l | l in t.links && l.intake in t.intakes && t.intakes[l.intake].state == Ignored ::
      !(Effective(t, l) && l.relationship == Primary)
  }

  /** The withdrawal of a case whose report is active elsewhere. */
  ghost predicate Strands(t: Tables, s: Step, i: int) {
    && s.UndoStep? && Undo(t, s.caseId, s.progressed).Ok?
    && CaseLinks(t, s.caseId)[0].intake == i && ActiveElsewhere(t, i, s.caseId)
  }

  predicate Revises(s: Step, i: int) {
    s.ReviseStep? && s.intake == i && s.row.revisions != []
  }

  lemma UndoneLink(t: Tables, caseId: nat, progressed: bool, l: Link)
    requires Undo(t, caseId, progressed).Ok? && l in t.links && l.caseId == caseId && l.relationship != Duplicate
    ensures l == CaseLinks(t, caseId)[0]
  {
    assert l in CaseLinks(t, caseId);
  }

  lemma OnlyPrimary(t: Tables, a: Link, b: Link)
    requires OnePrimary(t) && a in t.links && b in t.links && a.intake == b.intake
    requires a.relationship == Primary && b.relationship == Primary && Effective(t, a) && Effective(t, b)
    ensures a == b
  {
    var i :| 0 <= i < |t.links| && t.links[i] == a;
    var j :| 0 <= j < |t.links| && t.links[j] == b;
  }

  lemma UndoKeepsOpenedNone(t: Tables, caseId: nat, progressed: bool)
    requires Inv(t) && IgnoredOpenedNone(t) && Undo(t, caseId, progressed).Ok?
    ensures IgnoredOpenedNone(Undo(t, caseId, progressed).value)
  {
    var u, link := Undo(t, caseId, progressed).value, CaseLinks(t, caseId)[0];
    UndoTarget(t, caseId, progressed);
    forall l | l in u.links && u.intakes[l.intake].state == Ignored
      ensures !(Effective(u, l) && l.relationship == Primary)
    {
      assert Effective(u, l) == (Effective(t, l) && l.caseId != caseId);
      if Effective(u, l) && l.relationship == Primary && l.intake == link.intake {
        OnlyPrimary(t, l, link);
      }
    }
  }

  lemma StepKeepsOpenedNone(t: Tables, s: Step)
    requires Inv(t) && IgnoredOpenedNone(t)
    ensures IgnoredOpenedNone(Apply(t, s))
  {
    var u := Apply(t, s);
    if s.UndoStep? {
      if Undo(t, s.caseId, s.progressed).Ok? { UndoKeepsOpenedNone(t, s.caseId, s.progressed); }
    } else {
      StepTouches(t, s);
      forall l | l in u.links && l.intake in u.intakes && u.intakes[l.intake].state == Ignored
        ensures !(Effective(u, l) && l.relationship == Primary)
      {
        if Some(l.intake) == Target(s) {
          TargetIgnored(t, s, l.intake);
          ActiveIn(t, l.intake);
        }
      }
    }
  }

  /** Only ignoring a report that is in no active casework makes it ignored, withdrawals apart. */
  lemma TargetIgnored(t: Tables, s: Step, i: int)
    requires Inv(t) && !s.UndoStep? && Some(i) == Target(s)
    requires i in Apply(t, s).intakes && Apply(t, s).intakes[i].state == Ignored
    ensures Apply(t, s).links == t.links && Apply(t, s).cases == t.cases && i in t.intakes && !Revises(s, i)
    ensures t.intakes[i].state == Ignored || !HasActiveLink(t, i)
  {
    match s
    case CreateStep(q) => if Create(t, q).Ok? { CreateTouches(t, q); }
    case LinkStep(q) => if LinkCase(t, q).Ok? { LinkTouches(t, q); }
    case DuplicateStep(q) =>
    case IgnoreStep(_) =>
    case ArriveStep(_, _) =>
    case ReviseStep(_, _, _) =>
    case ProgressStep(_, _) =>
    case UndoStep(_, _) =>
  }

  lemma UndoStrands(t: Tables, caseId: nat, progressed: bool, i: int)
    requires Inv(t) && IgnoredOpenedNone(t) && Undo(t, caseId, progressed).Ok?
    ensures Stranded(Undo(t, caseId, progressed).value, i) <==>
      Strands(t, UndoStep(caseId, progressed), i) || Stranded(t, i)
  {
    var u, link := Undo(t, caseId, progressed).value, CaseLinks(t, caseId)[0];
    UndoTarget(t, caseId, progressed);
    UndoActive(t, caseId, progressed, i);
    ActiveIn(t, i);
    if i != link.intake {
      forall l | l in t.links && IsActive(t, i, l) ensures l.caseId != caseId {
        if l.caseId == caseId { UndoneLink(t, caseId, progressed, l); }
      }
    }
  }

  /** A step strands exactly the report whose case it withdraws from under another; only a new revision ends that. */
  lemma StrandedAfter(t: Tables, s: Step, i: int)
    requires Inv(t) && IgnoredOpenedNone(t)
    ensures Stranded(Apply(t, s), i) <==> Strands(t, s, i) || (Stranded(t, i) && !Revises(s, i))
  {
    var u := Apply(t, s);
    if s.UndoStep? {
      if Undo(t, s.caseId, s.progressed).Ok? { UndoStrands(t, s.caseId, s.progressed, i); }
    } else {
      StepTouches(t, s);
      if Some(i) != Target(s) {
        if i in t.intakes { UntouchedActive(t, u, Target(s), i); }
      } else {
        TargetStranded(t, s, i);
      }
    }
  }

  lemma TargetStranded(t: Tables, s: Step, i: int)
    requires Inv(t) && !s.UndoStep? && Some(i) == Target(s)
    ensures Stranded(Apply(t, s), i) <==> Stranded(t, i) && !Revises(s, i)
  {
    var u := Apply(t, s);
    if i in u.intakes && u.intakes[i].state == Ignored {
      TargetIgnored(t, s, i);
      ActiveIn(t, i);
      ActiveIn(u, i);
      assert forall l :: IsActive(u, i, l) == IsActive(t, i, l);
    } else if Stranded(t, i) && !Revises(s, i) {
      StaysIgnored(t, s, i);
    }
  }

  lemma StaysIgnored(t: Tables, s: Step, i: int)
    requires Inv(t) && !s.UndoStep? && Some(i) == Target(s) && i in t.intakes
      && t.intakes[i].state == Ignored && !Revises(s, i)
    ensures i in Apply(t, s).intakes && Apply(t, s).intakes[i].state == Ignored
  {
  }

  // -------- over whole runs --------

  /** What held at first, or was caused at some step, and has not been ended by a later step. */
  ghost predicate Lasts(first: bool, caused: int -> bool, ended: int -> bool, n: nat) {
    || (first && forall j | 0 <= j < n :: !ended(j))
    || exists k | 0 <= k < n :: caused(k) && forall j | k < j < n :: !ended(j)
  }

  lemma LastsNext(first: bool, caused: int -> bool, ended: int -> bool, n: nat)
    ensures Lasts(first, caused, ended, n + 1) <==> caused(n) || (Lasts(first, caused, ended, n) && !ended(n))
  {
  }

  lemma {:induction false} RunLast(t: Tables, steps: seq<Step>)
    requires steps != []
    ensures Run(t, steps) == Apply(Run(t, steps[..|steps| - 1]), steps[|steps| - 1])
    decreases |steps|
  {
    if |steps| > 1 {
      RunLast(Apply(t, steps[0]), steps[1..]);
      assert steps[1..][..|steps| - 2] == steps[..|steps| - 1][1..];
    } else {
      assert steps[1..] == [] && steps[..0] == [];
    }
  }

  lemma RunNext(t: Tables, steps: seq<Step>, n: nat)
    requires n < |steps|
    ensures Run(t, steps[..n + 1]) == Apply(Run(t, steps[..n]), steps[n])
  {
    RunLast(t, steps[..n + 1]);
    assert steps[..n + 1][..n] == steps[..n];
  }

  ghost function StrandsAt(t: Tables, steps: seq<Step>, i: int): int -> bool {
    k => 0 <= k < |steps| && Strands(Run(t, steps[..k]), steps[k], i)
  }

  function RevisesAt(steps: seq<Step>, i: int): int -> bool {
    k => 0 <= k < |steps| && Revises(steps[k], i)
  }

  /** After any part of a run, stranded are the reports that a withdrawal stranded and no revision reopened since. */
  lemma {:induction false} StrandedExactly(t: Tables, steps: seq<Step>, n: nat, i: int)
    requires Inv(t) && IgnoredOpenedNone(t) && n <= |steps|
    ensures var u := Run(t, steps[..n]);
      && Inv(u) && IgnoredOpenedNone(u)
      && (Stranded(u, i) <==> Lasts(Stranded(t, i), StrandsAt(t, steps, i), RevisesAt(steps, i), n))
    decreases n
  {
    if n > 0 {
      StrandedExactly(t, steps, n - 1, i);
      RunNext(t, steps, n - 1);
      var u := Run(t, steps[..n - 1]);
      StepKeepsInv(u, steps[n - 1]);
      StepKeepsOpenedNone(u, steps[n - 1]);
      StrandedAfter(u, steps[n - 1], i);
      LastsNext(Stranded(t, i), StrandsAt(t, steps, i), RevisesAt(steps, i), n - 1);
    }
  }

  /**
   * From an empty queue, every resolved report is free of active links if and only if every withdrawal of a
   * case whose report was active elsewhere has been followed by a new revision of that report.
   */
  lemma ReachableClosedIff(teams: map<int, Team>, clubs: map<int, string>, steps: seq<Step>)
    ensures var t := Start(teams, clubs);
      ClosedHasNoActive(Run(t, steps)) <==>
      forall i, k | 0 <= k < |steps| && StrandsAt(t, steps, i)(k) ::
        exists j :: k < j < |steps| && RevisesAt(steps, i)(j)
  {
    var t := Start(teams, clubs);
    var u := Run(t, steps);
    ReachableDuplicatesAreIdle(teams, clubs, steps);
    assert steps[..|steps|] == steps;
    forall i ensures Stranded(u, i) <==> Lasts(false, StrandsAt(t, steps, i), RevisesAt(steps, i), |steps|) {
      StrandedExactly(t, steps, |steps|, i);
    }
    ClosedMeansNoneStranded(u);
  }

  lemma ClosedMeansNoneStranded(u: Tables)
    requires DuplicatesIdle(u)
    ensures ClosedHasNoActive(u) <==> forall i :: !Stranded(u, i)
  {
    assert forall i | i in u.intakes && !Open(u.intakes[i].state) :: Stranded(u, i) || !HasActiveLink(u, i);
  }

  // -------- linked reports that are in no casework --------

  /** Linked to cases of which the report is only a duplicate, or which have been withdrawn. */
  ghost predicate Bare(t: Tables, i: int) {
    i in t.intakes && t.intakes[i].state == Linked && !HasActiveLink(t, i)
  }

  /** A link request for a case of which the report is already a duplicate, when no other case holds it. */
  ghost predicate Bares(t: Tables, s: Step, i: int) {
    && s.LinkStep? && s.link.intake == i && LinkCase(t, s.link).Ok?
    && Link(i, s.link.caseId, Duplicate) in t.links && !HasActiveLink(t, i)
  }

  /** The report gets a case of its own, is marked as a duplicate, or is revised. */
  ghost predicate Mends(t: Tables, s: Step, i: int) {
    match s
    case CreateStep(q) => q.intake == i && Create(t, q).Ok?
    case LinkStep(q) => q.intake == i && LinkCase(t, q).Ok? && Link(i, q.caseId, Duplicate) !in t.links
    case DuplicateStep(q) => q.intake == i && MarkDuplicate(t, q).Ok?
    case _ => Revises(s, i)
  }

  lemma LinkFound(rows: seq<Link>, l: Link)
    requires OneLinkPerCase(rows) && l in rows
    ensures FindLink(rows, l.intake, l.caseId) < |rows| && rows[FindLink(rows, l.intake, l.caseId)] == l
  {
    var k :| 0 <= k < |rows| && rows[k] == l;
  }

  lemma DuplicateStays(t: Tables, q: LinkRequest)
    requires Inv(t) && LinkCase(t, q).Ok? && Link(q.intake, q.caseId, Duplicate) in t.links
    ensures HasActiveLink(LinkCase(t, q).value, q.intake) <==> HasActiveLink(t, q.intake)
  {
    LinkFound(t.links, Link(q.intake, q.caseId, Duplicate));
    MergeTouches(t, LinkInput(t, q));
    var u := LinkCase(t, q).value;
    SameActive(t, u, q.intake);
  }

  lemma SameActive(t: Tables, u: Tables, i: int)
    requires u.links == t.links && forall l | l in t.links :: Effective(u, l) == Effective(t, l)
    ensures HasActiveLink(u, i) == HasActiveLink(t, i)
  {
    assert forall k | 0 <= k < |t.links| ::
      t.links[k] in t.links && IsActive(u, i, t.links[k]) == IsActive(t, i, t.links[k]);
  }

  lemma OtherIsActive(t: Tables, q: LinkRequest)
    requires Inv(t) && LinkCase(t, q).Ok? && Link(q.intake, q.caseId, Duplicate) !in t.links
    ensures HasActiveLink(LinkCase(t, q).value, q.intake)
  {
    var r, u := RetainLink(t, q.intake, q.caseId), LinkCase(t, q).value;
    RetainAdds(t, q);
    MergeTouches(r, LinkInput(t, q));
    var k := FindLink(r.links, q.intake, q.caseId);
    assert r.links[k] in r.links && r.links[k].relationship != Duplicate && Effective(r, r.links[k]);
    assert u.links == r.links && IsActive(u, q.intake, u.links[k]);
  }

  /** After an accepted link request the report is in casework, unless it was not and the case holds its duplicate. */
  lemma LinkActive(t: Tables, q: LinkRequest)
    requires Inv(t) && LinkCase(t, q).Ok?
    ensures HasActiveLink(LinkCase(t, q).value, q.intake)
      <==> HasActiveLink(t, q.intake) || Link(q.intake, q.caseId, Duplicate) !in t.links
  {
    if Link(q.intake, q.caseId, Duplicate) in t.links {
      DuplicateStays(t, q);
    } else {
      OtherIsActive(t, q);
    }
  }

  lemma CreateActive(t: Tables, q: CreateRequest)
    requires Inv(t) && Create(t, q).Ok?
    ensures HasActiveLink(Create(t, q).value, q.intake)
  {
    CreateOpens(t, q);
    var u := Create(t, q).value;
    assert IsActive(u, q.intake, u.links[|t.links|]);
  }

  lemma LinkBares(t: Tables, q: LinkRequest)
    requires Inv(t) && LinkCase(t, q).Ok?
    ensures Bare(LinkCase(t, q).value, q.intake) <==> Bares(t, LinkStep(q), q.intake)
  {
    LinkActive(t, q);
    LinkCatchesUp(t, q);
    ActiveIn(t, q.intake);
    if !HasActiveLink(t, q.intake) {
      assert Stale(t, q.intake) == {};
    }
  }

  lemma UndoBares(t: Tables, caseId: nat, progressed: bool, i: int)
    requires Inv(t) && Undo(t, caseId, progressed).Ok?
    ensures Bare(Undo(t, caseId, progressed).value, i) <==> Bare(t, i)
  {
    UndoTarget(t, caseId, progressed);
    UndoActive(t, caseId, progressed, i);
    ActiveIn(t, i);
    if i != CaseLinks(t, caseId)[0].intake {
      forall l | l in t.links && IsActive(t, i, l) ensures l.caseId != caseId {
        if l.caseId == caseId { UndoneLink(t, caseId, progressed, l); }
      }
    }
  }

  lemma BareAfter(t: Tables, s: Step, i: int)
    requires Inv(t)
    ensures Bare(Apply(t, s), i) <==> Bares(t, s, i) || (Bare(t, i) && !Mends(t, s, i))
  {
    if s.UndoStep? {
      if Undo(t, s.caseId, s.progressed).Ok? { UndoBares(t, s.caseId, s.progressed, i); }
    } else if Some(i) != Target(s) {
      StepTouches(t, s);
      if i in t.intakes { UntouchedActive(t, Apply(t, s), Target(s), i); }
    } else {
      match s
      case CreateStep(q) => if Create(t, q).Ok? { CreateActive(t, q); }
      case LinkStep(q) => if LinkCase(t, q).Ok? { LinkBares(t, q); }
      case _ =>
    }
  }

  ghost function BaresAt(t: Tables, steps: seq<Step>, i: int): int -> bool {
    k => 0 <= k < |steps| && Bares(Run(t, steps[..k]), steps[k], i)
  }

  ghost function MendsAt(t: Tables, steps: seq<Step>, i: int): int -> bool {
    k => 0 <= k < |steps| && Mends(Run(t, steps[..k]), steps[k], i)
  }

  /** After any part of a run a linked report is in no active casework exactly if such a request left it so. */
  lemma {:induction false} BareExactly(t: Tables, steps: seq<Step>, n: nat, i: int)
    requires Inv(t) && n <= |steps|
    ensures var u := Run(t, steps[..n]);
      Inv(u) && (Bare(u, i) <==> Lasts(Bare(t, i), BaresAt(t, steps, i), MendsAt(t, steps, i), n))
    decreases n
  {
    if n > 0 {
      BareExactly(t, steps, n - 1, i);
      RunNext(t, steps, n - 1);
      StepKeepsInv(Run(t, steps[..n - 1]), steps[n - 1]);
      BareAfter(Run(t, steps[..n - 1]), steps[n - 1], i);
      LastsNext(Bare(t, i), BaresAt(t, steps, i), MendsAt(t, steps, i), n - 1);
    }
  }

  /** Reopening a duplicate and linking it to the case that it duplicates leaves it linked and in no casework. */
  lemma RelinkedDuplicateIsBare(t: Tables, q: LinkRequest)
    requires Inv(t) && Ready(t, q) && Link(q.intake, q.caseId, Duplicate) in t.links
    requires forall l | l in t.links && l.intake == q.intake :: l.relationship == Duplicate
    ensures Bare(Apply(t, LinkStep(q)), q.intake)
  {
    ReadySucceeds(t, q);
    ActiveIn(t, q.intake);
    LinkBares(t, q);
  }
}
