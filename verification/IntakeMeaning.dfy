/**
 * What each triage request comes to, in terms of the stored report, the case and the request alone: when
 * it is accepted, and what it stores then.
 */
module IntakeMeaning {
  import opened Common
  import opened Text
  import opened Statuses
  import opened IntakeTables
  import opened IntakeSteps

  // -------- shared conditions --------

  /** A report that has arrived. */
  predicate Here(t: Tables, i: int) {
    i in t.intakes && |t.intakes[i].revisions| >= 1
  }

  predicate StateOf(t: Tables, i: int, state: IntakeState) {
    i in t.intakes && t.intakes[i].state == state
  }

  predicate Resolved(t: Tables, i: int) {
    StateOf(t, i, MarkedDuplicate) || StateOf(t, i, Ignored)
  }

  /** The league's own reports name no reporting club, and all others do. */
  predicate ClubFits(t: Tables, i: int, club: Option<int>) {
    i in t.intakes && (club == None <==> t.intakes[i].reportingText == "GMCL Official")
  }

  predicate ClubKnown(t: Tables, club: Option<int>) {
    club == None || club.value in t.clubs
  }

  predicate TeamActive(t: Tables, team: int) {
    team in t.teams && t.teams[team].active
  }

  /** A case in one of the first stages. */
  predicate TakesReports(t: Tables, c: nat) {
    && c < |t.cases|
    && (t.cases[c].status == Submitted || t.cases[c].status == Triage || t.cases[c].status == Investigating)
  }

  /** A link to a case that was not withdrawn. */
  predicate InForce(t: Tables, l: Link) {
    l.caseId < |t.cases| && !t.cases[l.caseId].undone
  }

  predicate LinkedSomehow(t: Tables, i: int) {
    exists l :: l in t.links && l.intake == i && InForce(t, l)
  }

  predicate InCasework(t: Tables, i: int) {
    exists l :: l in t.links && l.intake == i && InForce(t, l) && l.relationship != Duplicate
  }

  lemma LinkedExactly(t: Tables, i: int)
    ensures HasEffectiveLink(t, i) <==> LinkedSomehow(t, i)
    ensures HasActiveLink(t, i) <==> InCasework(t, i)
  {
    if l :| l in t.links && l.intake == i && InForce(t, l) {
      var k :| 0 <= k < |t.links| && t.links[k] == l;
      assert Effective(t, t.links[k]);
    }
    if l :| l in t.links && l.intake == i && InForce(t, l) && l.relationship != Duplicate {
      var k :| 0 <= k < |t.links| && t.links[k] == l;
      assert IsActive(t, i, t.links[k]);
    }
  }

  /** The newest revision of a report. */
  predicate NewestRevision(t: Tables, i: int, r: Revision) {
    Here(t, i) && r == t.intakes[i].revisions[|t.intakes[i].revisions| - 1]
  }

  /** The fields of a merge that come from the report and from the request. */
  predicate FromReport(t: Tables, m: MergeInput, i: int, team: int, club: Option<int>) {
    && Here(t, i) && m.intake == i && m.revision == |t.intakes[i].revisions| && m.team == team && m.club == club
    && NewestRevision(t, i, Revision(m.matchId, m.playerId))
    && m.clubName == (if club.Some? && club.value in t.clubs then t.clubs[club.value] else "")
    && (m.leagueOrigin <==> t.intakes[i].reportingText == "GMCL Official")
  }

  // -------- the projected state --------

  predicate IsAs(r: Resolution, l: Link) {
    r.caseId == l.caseId && r.intake == l.intake && r.relationship == l.relationship
  }

  /** The newest of the resolutions of a link. */
  predicate LatestOf(rows: seq<Resolution>, l: Link, k: int) {
    0 <= k < |rows| && IsAs(rows[k], l) && forall j | k < j < |rows| :: !IsAs(rows[j], l)
  }

  lemma {:induction false} NewestAsIsLatest(rows: seq<Resolution>, l: Link, k: int)
    requires LatestOf(rows, l, k)
    ensures NewestAs(rows, l.caseId, l.intake, l.relationship) == Some(rows[k])
    decreases |rows|
  {
    if k < |rows| - 1 {
      NewestAsIsLatest(rows[..|rows| - 1], l, k);
    }
  }

  lemma {:induction false} NewestAsExists(rows: seq<Resolution>, l: Link) returns (k: int)
    ensures NewestAs(rows, l.caseId, l.intake, l.relationship) == None || LatestOf(rows, l, k)
    decreases |rows|
  {
    k := |rows| - 1;
    if rows != [] && !IsAs(rows[k], l) {
      k := NewestAsExists(rows[..k], l);
    }
  }

  /** A link in casework whose newest resolution, if any, is not of the newest revision. */
  ghost predicate Behind(t: Tables, i: int, l: Link) {
    && i in t.intakes && l in t.links && l.intake == i && InForce(t, l) && l.relationship != Duplicate
    && forall k | LatestOf(t.resolutions, l, k) :: t.resolutions[k].revision != |t.intakes[i].revisions|
  }

  lemma ProjectStores(t: Tables, i: int)
    requires i in t.intakes
    ensures Project(t, i) == t.(intakes := t.intakes[i := t.intakes[i].(state :=
      if exists l :: Behind(t, i, l) then Exception else Linked)])
  {
    forall l | l in t.links && l.intake == i
      ensures Unresolved(t, l, |t.intakes[i].revisions|) && IsActive(t, i, l) <==> Behind(t, i, l)
    {
      forall k | LatestOf(t.resolutions, l, k)
        ensures NewestAs(t.resolutions, l.caseId, l.intake, l.relationship) == Some(t.resolutions[k])
      {
        NewestAsIsLatest(t.resolutions, l, k);
      }
      var k := NewestAsExists(t.resolutions, l);
    }
    if l :| Behind(t, i, l) {
      var k :| 0 <= k < |t.links| && t.links[k] == l;
      assert IsActive(t, i, t.links[k]);
    }
  }

  // -------- opening a case --------

  predicate MayCreate(t: Tables, q: CreateRequest) {
    && Trim(q.player) != "" && Here(t, q.intake) && !Resolved(t, q.intake) && ClubFits(t, q.intake, q.club)
    && TeamActive(t, q.team) && ClubKnown(t, q.club) && q.seasonCovers
  }

  lemma CreateAccepted(t: Tables, q: CreateRequest)
    ensures CheckCreate(t, q) == None <==> MayCreate(t, q)
    ensures CheckCreate(t, q) == Some(NotFound) <==> Trim(q.player) != "" && !Here(t, q.intake)
    ensures CheckCreate(t, q) == Some(Conflict) <==> Trim(q.player) != "" && Here(t, q.intake) && Resolved(t, q.intake)
    ensures CheckCreate(t, q).Some? ==> CheckCreate(t, q).value in {NotFound, Conflict, BadRequest}
  {
  }

  /** The case and its link, and what is merged into it. */
  lemma CreateOpensCase(t: Tables, q: CreateRequest)
    requires MayCreate(t, q)
    ensures CheckCreate(t, q) == None
    ensures var o, m := OpenCase(t, q), CreateInput(t, q);
      && o.subjects == t.subjects && o.subjectLinks == t.subjectLinks && o.parties == t.parties
      && o.provenance == t.provenance && o.resolutions == t.resolutions && o.evidence == t.evidence
      && o.intakes == t.intakes && o.teams == t.teams && o.clubs == t.clubs
      && |o.cases| == |t.cases| + 1 && o.cases[..|t.cases|] == t.cases
      && |o.links| == |t.links| + 1 && o.links[..|t.links|] == t.links
      && var c, l := o.cases[|t.cases|], o.links[|t.links|];
         && c.status == Investigating && c.clubId == t.teams[q.team].clubId && c.teamId == q.team
         && c.reportingClub == q.club && !c.undone
         && l.intake == q.intake && l.caseId == |t.cases|
         && l.relationship == (if LinkedSomehow(t, q.intake) then Split else Primary)
         && FromReport(t, m, q.intake, q.team, q.club)
         && m.caseId == |t.cases| && m.player == q.player && m.primary && m.relationship == l.relationship
  {
    CreateAccepted(t, q);
    LinkedExactly(t, q.intake);
  }

  /** The state and the reporter are all that is added to what the merge stores. */
  lemma CreateStores(t: Tables, q: CreateRequest)
    requires MayCreate(t, q)
    ensures CheckCreate(t, q) == None
    ensures Create(t, q).Ok? <==> Merge(OpenCase(t, q), CreateInput(t, q)).Ok?
    ensures Create(t, q).Err? ==> Create(t, q).error == Merge(OpenCase(t, q), CreateInput(t, q)).error
    ensures Create(t, q).Ok? ==>
      var v, u := Merge(OpenCase(t, q), CreateInput(t, q)).value, Create(t, q).value;
      && q.intake in u.intakes && u == v.(parties := u.parties, intakes := u.intakes)
      && u.intakes == t.intakes[q.intake := t.intakes[q.intake].(state := u.intakes[q.intake].state)]
      && u.parties == v.parties + if q.reporterKnown then [Party(|t.cases|, Reporter)] else []
  {
    CreateAccepted(t, q);
  }

  // -------- linking to a case --------

  predicate MayLink(t: Tables, q: LinkRequest) {
    && Here(t, q.intake) && !Resolved(t, q.intake) && TakesReports(t, q.caseId) && ClubFits(t, q.intake, q.club)
    && Trim(t.intakes[q.intake].playerText) != "" && TeamActive(t, q.team)
    && t.teams[q.team].clubId == t.cases[q.caseId].clubId && ClubKnown(t, q.club)
  }

  lemma LinkAccepted(t: Tables, q: LinkRequest)
    ensures CheckLink(t, q) == None <==> MayLink(t, q)
    ensures CheckLink(t, q) == Some(NotFound) <==> !Here(t, q.intake)
    ensures Here(t, q.intake) && Resolved(t, q.intake) ==> CheckLink(t, q) == Some(Conflict)
    ensures Here(t, q.intake) && !Resolved(t, q.intake) && q.caseId < |t.cases| && !TakesReports(t, q.caseId) ==>
      CheckLink(t, q) == Some(Conflict)
    ensures CheckLink(t, q).Some? ==> CheckLink(t, q).value in {NotFound, Conflict, BadRequest}
  {
  }

  /** A link that is there is kept as it is; a new one is primary if the report had none in force. */
  lemma LinkRetained(t: Tables, intake: int, caseId: nat)
    ensures var u := RetainLink(t, intake, caseId);
      && u == t.(links := u.links)
      && if exists l :: l in t.links && l.intake == intake && l.caseId == caseId then u.links == t.links
         else u.links == t.links + [Link(intake, caseId, if LinkedSomehow(t, intake) then Supporting else Primary)]
  {
    LinkedExactly(t, intake);
    var k := FindLink(t.links, intake, caseId);
    if k < |t.links| {
      assert t.links[k] in t.links;
    }
  }

  lemma LinkStores(t: Tables, q: LinkRequest)
    requires MayLink(t, q)
    ensures CheckLink(t, q) == None
    ensures var r, m := RetainLink(t, q.intake, q.caseId), LinkInput(t, q);
      && FromReport(t, m, q.intake, q.team, q.club) && m.caseId == q.caseId
      && m.player == t.intakes[q.intake].playerText && (m.primary <==> m.relationship == Primary)
      && Link(q.intake, q.caseId, m.relationship) in r.links
      && (LinkCase(t, q).Ok? <==> Merge(r, m).Ok?)
      && (LinkCase(t, q).Err? ==> LinkCase(t, q).error == Merge(r, m).error)
      && (LinkCase(t, q).Ok? ==>
        var v, u := Merge(r, m).value, LinkCase(t, q).value;
        && q.intake in u.intakes && u == v.(intakes := u.intakes)
        && u.intakes == t.intakes[q.intake := t.intakes[q.intake].(state := u.intakes[q.intake].state)])
  {
    LinkAccepted(t, q);
    var r := RetainLink(t, q.intake, q.caseId);
    var l := r.links[FindLink(r.links, q.intake, q.caseId)];
    assert l in r.links && l == Link(q.intake, q.caseId, l.relationship);
  }

  // -------- marking a duplicate --------

  predicate MayDuplicate(t: Tables, q: DuplicateRequest) {
    && Here(t, q.intake) && !StateOf(t, q.intake, Ignored) && !InCasework(t, q.intake)
    && TakesReports(t, q.caseId) && ClubFits(t, q.intake, q.club) && ClubKnown(t, q.club)
  }

  lemma DuplicateAccepted(t: Tables, q: DuplicateRequest)
    ensures Here(t, q.intake) && StateOf(t, q.intake, MarkedDuplicate) ==> MarkDuplicate(t, q) == Ok(t)
    ensures !StateOf(t, q.intake, MarkedDuplicate) ==> (MarkDuplicate(t, q).Ok? <==> MayDuplicate(t, q))
    ensures MarkDuplicate(t, q) == Err(NotFound) <==> !Here(t, q.intake)
    ensures MarkDuplicate(t, q) == Err(Conflict) <==>
      && Here(t, q.intake) && !StateOf(t, q.intake, MarkedDuplicate)
      && (StateOf(t, q.intake, Ignored) || InCasework(t, q.intake)
          || (q.caseId < |t.cases| && !TakesReports(t, q.caseId)))
    ensures MarkDuplicate(t, q).Err? ==> MarkDuplicate(t, q).error in {NotFound, Conflict, BadRequest}
  {
    LinkedExactly(t, q.intake);
  }

  /** The resolution names the case's team and no subjects. */
  predicate DuplicateResolved(t: Tables, u: Tables, q: DuplicateRequest, r: Resolution) {
    && Here(t, q.intake) && q.caseId < |t.cases|
    && r.caseId == q.caseId && r.intake == q.intake && r.revision == |t.intakes[q.intake].revisions|
    && r.relationship == Duplicate && r.team == t.cases[q.caseId].teamId
    && r.teamSubject == None && r.playerSubject == None && r.matchSubject == None
    && r.club == q.club && (r.leagueOrigin <==> q.club == None)
    && r.party == if q.club == None then None else Some(FindParty(u.parties, q.caseId, ReportingClub(q.club.value)))
  }

  /** It is left out if the newest resolution as a duplicate says the same of revision, club, party and origin. */
  predicate SaidBefore(t: Tables, q: DuplicateRequest, r: Resolution) {
    var prior := NewestAs(t.resolutions, q.caseId, q.intake, Duplicate);
    && prior != None && prior.value.revision == r.revision && prior.value.club == r.club
    && prior.value.party == r.party && (prior.value.leagueOrigin <==> r.leagueOrigin)
  }

  lemma DuplicateStores(t: Tables, q: DuplicateRequest, r: Resolution)
    requires MayDuplicate(t, q) && !StateOf(t, q.intake, MarkedDuplicate)
    ensures var made := MarkDuplicate(t, q);
      && made.Ok? && var u := made.value;
      && u == t.(links := u.links, parties := u.parties, provenance := u.provenance, resolutions := u.resolutions,
                 intakes := t.intakes[q.intake := t.intakes[q.intake].(state := MarkedDuplicate)])
      && u.links == (if Link(q.intake, q.caseId, Duplicate) in t.links then t.links
                     else t.links + [Link(q.intake, q.caseId, Duplicate)])
      && u.parties
         == AddParty(t.parties, Party(q.caseId, if q.club == None then League else ReportingClub(q.club.value)))
      && (DuplicateResolved(t, u, q, r) ==>
        u.resolutions == if SaidBefore(t, q, r) then t.resolutions else t.resolutions + [r])
  {
    LinkedExactly(t, q.intake);
  }

  /** A reporting club is retained with its report, once, with the club's party. */
  lemma ReporterStored(t: Tables, caseId: nat, club: int, intake: int)
    ensures var u := RetainReporter(t, caseId, club, intake);
      && u == t.(parties := u.parties, provenance := u.provenance)
      && u.parties == AddParty(t.parties, Party(caseId, ReportingClub(club)))
      && u.provenance == t.provenance +
        if exists p :: p in t.provenance && p.caseId == caseId && p.club == club && p.intake == intake then []
        else [Provenance(caseId, club, intake, FindParty(u.parties, caseId, ReportingClub(club)))]
  {
    var u := RetainReporter(t, caseId, club, intake);
    var row := Provenance(caseId, club, intake, FindParty(u.parties, caseId, ReportingClub(club)));
    if p :| p in t.provenance && p.caseId == caseId && p.club == club && p.intake == intake {
      var i :| 0 <= i < |t.provenance| && t.provenance[i] == p;
    }
  }

  lemma DuplicateRetains(t: Tables, q: DuplicateRequest)
    requires MayDuplicate(t, q) && !StateOf(t, q.intake, MarkedDuplicate)
    ensures MarkDuplicate(t, q).Ok?
    ensures MarkDuplicate(t, q).value.provenance
      == if q.club == None then t.provenance else RetainReporter(t, q.caseId, q.club.value, q.intake).provenance
  {
    LinkedExactly(t, q.intake);
  }

  /** A party row is there afterwards, and is added only if it was not. */
  lemma PartyStored(rows: seq<Party>, row: Party)
    ensures AddParty(rows, row) == if row in rows then rows else rows + [row]
  {
    if row in rows {
      var i :| 0 <= i < |rows| && rows[i] == row;
      assert FindParty(rows, row.caseId, row.key) <= i;
    }
  }

  // -------- ignoring --------

  lemma IgnoreStores(t: Tables, i: int)
    ensures i !in t.intakes ==> Ignore(t, i) == Err(NotFound)
    ensures StateOf(t, i, Ignored) ==> Ignore(t, i) == Ok(t)
    ensures i in t.intakes && !StateOf(t, i, Ignored) ==>
      Ignore(t, i) ==
        if StateOf(t, i, MarkedDuplicate) || StateOf(t, i, Linked) || InCasework(t, i) then Err(Conflict)
        else Ok(t.(intakes := t.intakes[i := t.intakes[i].(state := Ignored)]))
  {
    LinkedExactly(t, i);
  }

  // -------- withdrawing a case --------

  /** The report that the case was opened for, if it is the only one that is not a duplicate. */
  predicate OpenedFor(t: Tables, caseId: nat, l: Link) {
    && l in t.links && l.caseId == caseId && l.relationship == Primary
    && |LinksOfCase(t.links, caseId)| == 1
  }

  predicate Withdrawable(t: Tables, caseId: nat, progressed: bool, l: Link) {
    && (TakesReports(t, caseId) || (caseId < |t.cases| && t.cases[caseId].status == ResponsePending))
    && !t.cases[caseId].undone && !progressed && OpenedFor(t, caseId, l)
  }

  predicate MayWithdraw(t: Tables, caseId: nat, progressed: bool, l: Link) {
    Withdrawable(t, caseId, progressed, l) && l.intake in t.intakes
  }

  lemma {:induction false} CountsLinks(rows: seq<Link>, caseId: nat)
    ensures |LinksOfCase(rows, caseId)| == |PlacesOf(rows, caseId)|
    decreases |rows|
  {
    if rows != [] {
      var n := |rows| - 1;
      CountsLinks(rows[..n], caseId);
      PlacesMore(rows, caseId);
    }
  }

  function PlacesOf(rows: seq<Link>, caseId: nat): set<int> {
    set i | 0 <= i < |rows| && rows[i].caseId == caseId && rows[i].relationship != Duplicate
  }

  lemma PlacesMore(rows: seq<Link>, caseId: nat)
    requires rows != []
    ensures var n := |rows| - 1;
      && n !in PlacesOf(rows[..n], caseId)
      && PlacesOf(rows, caseId)
        == PlacesOf(rows[..n], caseId)
           + if rows[n].caseId == caseId && rows[n].relationship != Duplicate then {n} else {}
  {
    var n := |rows| - 1;
    assert forall i | 0 <= i < n :: rows[..n][i] == rows[i];
  }

  lemma WithdrawStores(t: Tables, caseId: nat, progressed: bool, l: Link)
    ensures MayWithdraw(t, caseId, progressed, l) ==>
      Undo(t, caseId, progressed) == Ok(
        t.(cases := t.cases[caseId := t.cases[caseId].(status := Withdrawn, undone := true)],
           intakes := t.intakes[l.intake := t.intakes[l.intake].(state := Ignored)]))
    ensures Undo(t, caseId, progressed).Ok? ==> exists k :: MayWithdraw(t, caseId, progressed, k)
    ensures Undo(t, caseId, progressed).Err? ==> Undo(t, caseId, progressed).error in {NotFound, Conflict}
    ensures caseId >= |t.cases| ==> Undo(t, caseId, progressed) == Err(NotFound)
    ensures caseId < |t.cases| && (forall k | k in t.links && k.caseId == caseId :: k.intake in t.intakes) ==>
      Undo(t, caseId, progressed) != Err(NotFound)
    ensures Withdrawable(t, caseId, progressed, l) && l.intake !in t.intakes ==>
      Undo(t, caseId, progressed) == Err(NotFound)
  {
    var links := LinksOfCase(t.links, caseId);
    if Withdrawable(t, caseId, progressed, l) {
      assert l in links;
    }
    if Undo(t, caseId, progressed).Ok? {
      assert links[0] in links;
      assert MayWithdraw(t, caseId, progressed, links[0]);
    }
  }

  // -------- what arrives --------

  lemma ArriveStores(t: Tables, id: int, intake: Intake)
    ensures Arrive(t, id, intake) ==
      if id !in t.intakes && |intake.revisions| == 1 && (intake.state == New || intake.state == Exception)
      then t.(intakes := t.intakes[id := intake]) else t
  {
  }

  /** The state after a new revision. */
  predicate Becomes(t: Tables, id: int, source: Source, state: IntakeState) {
    var resolved := StateOf(t, id, Linked) || StateOf(t, id, MarkedDuplicate) || StateOf(t, id, Ignored);
    match source
    case NativeForm => (resolved ==> state == Exception) && (!resolved ==> state == New)
    case Sheet(invalid) =>
      && (resolved || LinkedSomehow(t, id) || invalid ==> state == Exception)
      && (!resolved && !LinkedSomehow(t, id) && !invalid ==>
        && (StateOf(t, id, Exception) ==> state == New) && (StateOf(t, id, New) ==> state == New)
        && (StateOf(t, id, Reviewing) ==> state == Reviewing))
  }

  lemma ReviseStores(t: Tables, id: int, source: Source, row: Intake)
    ensures id !in t.intakes || row.revisions == [] ==> Revise(t, id, source, row) == t
    ensures id in t.intakes && row.revisions != [] ==>
      var u := Revise(t, id, source, row);
      && u == t.(intakes := u.intakes) && u.intakes.Keys == t.intakes.Keys
      && (forall i | i in t.intakes && i != id :: u.intakes[i] == t.intakes[i])
      && var before, after := t.intakes[id], u.intakes[id];
         && Becomes(t, id, source, after.state)
         && after.reportingText == row.reportingText && after.playerText == row.playerText
         && |after.revisions| == |before.revisions| + 1 && after.revisions[..|before.revisions|] == before.revisions
         && after.revisions[|before.revisions|] == row.revisions[0] && after.files == before.files + row.files
  {
    LinkedExactly(t, id);
  }

  lemma ProgressStores(t: Tables, c: nat, status: CaseStatus)
    ensures Progress(t, c, status) ==
      if c < |t.cases| && t.cases[c].status != Withdrawn
        then t.(cases := t.cases[c := t.cases[c].(status := status)]) else t
  {
  }

  // -------- runs --------

  /** A refused request leaves the tables as they were, an accepted one leaves what it made. */
  lemma StepsTake(t: Tables, s: Step)
    ensures s.CreateStep? ==> Apply(t, s) == if Create(t, s.create).Ok? then Create(t, s.create).value else t
    ensures s.LinkStep? ==> Apply(t, s) == if LinkCase(t, s.link).Ok? then LinkCase(t, s.link).value else t
    ensures s.DuplicateStep? ==>
      Apply(t, s) == if MarkDuplicate(t, s.duplicate).Ok? then MarkDuplicate(t, s.duplicate).value else t
    ensures s.IgnoreStep? ==> Apply(t, s) == if Ignore(t, s.intake).Ok? then Ignore(t, s.intake).value else t
    ensures s.UndoStep? ==>
      Apply(t, s) == if Undo(t, s.caseId, s.progressed).Ok? then Undo(t, s.caseId, s.progressed).value else t
    ensures s.ArriveStep? ==> Apply(t, s) == Arrive(t, s.intake, s.arrived)
    ensures s.ReviseStep? ==> Apply(t, s) == Revise(t, s.intake, s.source, s.row)
    ensures s.ProgressStep? ==> Apply(t, s) == Progress(t, s.caseId, s.status)
  {
  }

  /** The tables a run starts from: the clubs and their teams, and no report, case or row of any other kind. */
  lemma StartIsEmpty(teams: map<int, Team>, clubs: map<int, string>)
    ensures var t := Start(teams, clubs);
      && t.teams == teams && t.clubs == clubs && t.intakes == map[] && t.cases == [] && t.links == []
      && t.subjects == [] && t.subjectLinks == [] && t.parties == [] && t.provenance == [] && t.resolutions == []
      && t.evidence == []
  {
  }

  lemma RunTakesEach(t: Tables, s: Step, steps: seq<Step>)
    ensures Run(t, []) == t && Run(t, [s] + steps) == Run(Apply(t, s), steps)
  {
    assert ([s] + steps)[1..] == steps;
  }
}
