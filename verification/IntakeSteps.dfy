/**
 * The triage steps as functions on the tables: merging one source revision into a case,
 * the create, link, duplicate and ignore handlers, withdrawing an opened case, and the
 * arrival of a new intake or of a new revision of one.
 */
module IntakeSteps {
  import opened Common
  import opened Text
  import opened Statuses
  import opened IntakeTables

  datatype MergeInput = MergeInput(
    caseId: nat, intake: int, revision: nat, team: int, player: string,
    playerId: Option<int>, matchId: Option<int>,
    club: Option<int>, clubName: string, leagueOrigin: bool, primary: bool, relationship: Relationship)

  // -------- subjects --------

  function PlayerKey(m: MergeInput): SubjectKey {
    if m.playerId.Some? then PlayerIdKey(m.playerId.value)
    else PlayerNameKey(m.team, Lower(Trim(m.player)))
  }

  function SubjectRow(m: MergeInput, key: SubjectKey): Subject {
    Subject(m.caseId, key, if key.MatchKey? then None else Some(m.team), m.primary, m.intake, m.revision)
  }

  /** The subjects named by a merge, in the order in which they are upserted. */
  function SubjectKeys(m: MergeInput): seq<SubjectKey> {
    [TeamKey(m.team), PlayerKey(m)] + if m.matchId.Some? then [MatchKey(m.matchId.value)] else []
  }

  function UpsertSubject(t: Tables, m: MergeInput, key: SubjectKey): (r: Tables)
    ensures r == t.(subjects := r.subjects, subjectLinks := r.subjectLinks)
  {
    var subjects := AddSubject(t.subjects, SubjectRow(m, key));
    var id := FindSubject(subjects, m.caseId, key);
    t.(subjects := subjects,
       subjectLinks := AddRow(t.subjectLinks, SubjectLink(id, m.caseId, m.intake, m.revision)))
  }

  function UpsertSubjects(t: Tables, m: MergeInput, keys: seq<SubjectKey>): (r: Tables)
    ensures r == t.(subjects := r.subjects, subjectLinks := r.subjectLinks)
    decreases |keys|
  {
    if keys == [] then t else UpsertSubjects(UpsertSubject(t, m, keys[0]), m, keys[1..])
  }

  // -------- parties and the case's scalar reporting club --------

  function SetReportingClub(t: Tables, caseId: nat, club: Option<int>): Tables
    requires caseId < |t.cases|
  {
    t.(cases := t.cases[caseId := t.cases[caseId].(reportingClub := club)])
  }

  function MergeLeague(t: Tables, m: MergeInput): Tables
    requires m.caseId < |t.cases|
  {
    var u := t.(parties := AddParty(t.parties, Party(m.caseId, League)));
    if m.primary then SetReportingClub(u, m.caseId, None) else u
  }

  /** The reporting party and its provenance row, shared by merging and by marking a duplicate. */
  function RetainReporter(t: Tables, caseId: nat, club: int, intake: int): Tables {
    var parties := AddParty(t.parties, Party(caseId, ReportingClub(club)));
    var party := FindParty(parties, caseId, ReportingClub(club));
    t.(parties := parties,
       provenance := AddProvenance(t.provenance, Provenance(caseId, club, intake, party)))
  }

  function MergeReporter(t: Tables, m: MergeInput, club: int): Tables
    requires m.caseId < |t.cases|
  {
    var u := RetainReporter(t, m.caseId, club, m.intake);
    var current := t.cases[m.caseId].reportingClub;
    SetReportingClub(u, m.caseId, if m.primary || current.None? then Some(club) else current)
  }

  function MergeParties(t: Tables, m: MergeInput): (r: Tables)
    requires m.caseId < |t.cases|
    requires m.leagueOrigin || m.club.Some?
    ensures r == t.(cases := r.cases, parties := r.parties, provenance := r.provenance)
    ensures |r.cases| == |t.cases|
  {
    var u := t.(parties := AddParty(t.parties, Party(m.caseId, OffendingTeam(m.team))));
    if m.leagueOrigin then MergeLeague(u, m) else MergeReporter(u, m, m.club.value)
  }

  // -------- the effective resolution --------

  function MergeResolution(t: Tables, m: MergeInput): Resolution {
    Resolution(m.caseId, m.intake, m.revision, m.relationship, m.team,
      Some(FindSubject(t.subjects, m.caseId, TeamKey(m.team))),
      Some(FindSubject(t.subjects, m.caseId, PlayerKey(m))),
      if m.matchId.Some? then Some(FindSubject(t.subjects, m.caseId, MatchKey(m.matchId.value))) else None,
      m.club,
      if m.leagueOrigin || m.club.None? then None
      else Some(FindParty(t.parties, m.caseId, ReportingClub(m.club.value))),
      m.leagueOrigin)
  }

  function Record(t: Tables, r: Resolution): Tables {
    if Newest(t.resolutions, r.caseId, r.intake) == Some(r) then t
    else t.(resolutions := t.resolutions + [r])
  }

  // -------- evidence --------

  function EvidenceRow(caseId: nat, intake: int, file: File): Evidence {
    Evidence(caseId, intake, file.revision, file.kind, file.key, file.sha)
  }

  /** Bridges every retained file not bridged before; one damaged file refuses the whole merge. */
  function Attach(rows: seq<Evidence>, caseId: nat, intake: int, files: seq<File>): Result<seq<Evidence>, Refusal>
    decreases |files|
  {
    if files == [] then Ok(rows)
    else if EvidenceRow(caseId, intake, files[0]) in rows then Attach(rows, caseId, intake, files[1..])
    else if !files[0].intact then Err(EvidenceUnavailable)
    else Attach(rows + [EvidenceRow(caseId, intake, files[0])], caseId, intake, files[1..])
  }

  // -------- the merge --------

  function MergeRows(t: Tables, m: MergeInput): (r: Tables)
    requires m.caseId < |t.cases|
    requires m.leagueOrigin || m.club.Some?
    ensures r == t.(subjects := r.subjects, subjectLinks := r.subjectLinks, cases := r.cases, parties := r.parties,
                    provenance := r.provenance, resolutions := r.resolutions)
    ensures |r.cases| == |t.cases|
  {
    var u := MergeParties(UpsertSubjects(t, m, SubjectKeys(m)), m);
    Record(u, MergeResolution(u, m))
  }

  function Merge(t: Tables, m: MergeInput): (r: Result<Tables, Refusal>)
    requires m.caseId < |t.cases| && m.intake in t.intakes
    ensures r.Ok? ==> r.value == t.(subjects := r.value.subjects, subjectLinks := r.value.subjectLinks,
                                    cases := r.value.cases, parties := r.value.parties,
                                    provenance := r.value.provenance, resolutions := r.value.resolutions,
                                    evidence := r.value.evidence)
    ensures r.Ok? ==> |r.value.cases| == |t.cases|
  {
    if Trim(m.player) == "" then Err(IncompleteMerge)
    else if !m.leagueOrigin && (m.club.None? || Trim(m.clubName) == "") then Err(UnmappedClub)
    else if m.leagueOrigin && m.club.Some? then Err(ConstraintViolation)
    else
      var u := MergeRows(t, m);
      match Attach(t.evidence, m.caseId, m.intake, t.intakes[m.intake].files)
      case Err(e) => Err(e)
      case Ok(evidence) => Ok(u.(evidence := evidence))
  }

  // -------- the handlers --------

  const LEAGUE := "GMCL Official"

  datatype CreateRequest = CreateRequest(
    intake: int, team: int, player: string, club: Option<int>, seasonCovers: bool, reporterKnown: bool)

  datatype LinkRequest = LinkRequest(intake: int, caseId: nat, team: int, club: Option<int>)

  datatype DuplicateRequest = DuplicateRequest(intake: int, caseId: nat, club: Option<int>)

  /** A reporting club must be mapped exactly when the report is not the league's own. */
  predicate ReporterMapped(intake: Intake, club: Option<int>) {
    club.Some? <==> intake.reportingText != LEAGUE
  }

  function ClubName(t: Tables, club: Option<int>): string {
    if club.Some? && club.value in t.clubs then t.clubs[club.value] else ""
  }

  function LatestRevision(intake: Intake): Revision
    requires intake.revisions != []
  {
    intake.revisions[|intake.revisions| - 1]
  }

  function InputFor(t: Tables, intake: int, caseId: nat, team: int, player: string, club: Option<int>,
                    primary: bool, relationship: Relationship): MergeInput
    requires intake in t.intakes && t.intakes[intake].revisions != []
  {
    var i := t.intakes[intake];
    MergeInput(caseId, intake, |i.revisions|, team, player, LatestRevision(i).playerId, LatestRevision(i).matchId,
      club, ClubName(t, club), i.reportingText == LEAGUE, primary, relationship)
  }

  function CheckCreate(t: Tables, q: CreateRequest): Option<Refusal> {
    if Trim(q.player) == "" then Some(BadRequest)
    else if q.intake !in t.intakes || t.intakes[q.intake].revisions == [] then Some(NotFound)
    else if !Open(t.intakes[q.intake].state) then Some(Conflict)
    else if !ReporterMapped(t.intakes[q.intake], q.club) then Some(BadRequest)
    else if q.team !in t.teams || !t.teams[q.team].active then Some(BadRequest)
    else if q.club.Some? && q.club.value !in t.clubs then Some(BadRequest)
    else if !q.seasonCovers then Some(BadRequest)
    else None
  }

  function OpenCase(t: Tables, q: CreateRequest): Tables
    requires CheckCreate(t, q).None?
  {
    var relationship := if HasEffectiveLink(t, q.intake) then Split else Primary;
    t.(cases := t.cases + [CaseRow(Investigating, t.teams[q.team].clubId, q.team, q.club, false)],
       links := t.links + [Link(q.intake, |t.cases|, relationship)])
  }

  function CreateInput(t: Tables, q: CreateRequest): MergeInput
    requires CheckCreate(t, q).None?
  {
    var u := OpenCase(t, q);
    InputFor(u, q.intake, |t.cases|, q.team, q.player, q.club, true, u.links[|t.links|].relationship)
  }

  function Create(t: Tables, q: CreateRequest): Result<Tables, Refusal> {
    var check := CheckCreate(t, q);
    if check.Some? then Err(check.value) else
    match Merge(OpenCase(t, q), CreateInput(t, q))
    case Err(e) => Err(e)
    case Ok(v) =>
      var w := if q.reporterKnown then v.(parties := v.parties + [Party(|t.cases|, Reporter)]) else v;
      Ok(Project(w, q.intake))
  }

  function FindLink(rows: seq<Link>, intake: int, caseId: nat): (i: nat)
    ensures i <= |rows|
    ensures i < |rows| ==> rows[i].intake == intake && rows[i].caseId == caseId
    ensures forall j | 0 <= j < i :: !(rows[j].intake == intake && rows[j].caseId == caseId)
  {
    if rows == [] then 0
    else if rows[0].intake == intake && rows[0].caseId == caseId then 0
    else 1 + FindLink(rows[1..], intake, caseId)
  }

  function CheckLink(t: Tables, q: LinkRequest): Option<Refusal> {
    if q.intake !in t.intakes || t.intakes[q.intake].revisions == [] then Some(NotFound)
    else if !Open(t.intakes[q.intake].state) then Some(Conflict)
    else if q.caseId >= |t.cases| then Some(BadRequest)
    else if !AcceptsIntake(t.cases[q.caseId].status) then Some(Conflict)
    else if !ReporterMapped(t.intakes[q.intake], q.club) then Some(BadRequest)
    else if Trim(t.intakes[q.intake].playerText) == "" then Some(Conflict)
    else if q.team !in t.teams || !t.teams[q.team].active then Some(BadRequest)
    else if t.teams[q.team].clubId != t.cases[q.caseId].clubId then Some(Conflict)
    else if q.club.Some? && q.club.value !in t.clubs then Some(BadRequest)
    else None
  }

  /** An existing link keeps its relationship; a new one is primary only when it is the first. */
  function RetainLink(t: Tables, intake: int, caseId: nat): (r: Tables)
    ensures r == t.(links := r.links) && FindLink(r.links, intake, caseId) < |r.links|
  {
    if FindLink(t.links, intake, caseId) < |t.links| then t
    else
      var link := Link(intake, caseId, if HasEffectiveLink(t, intake) then Supporting else Primary);
      var links := t.links + [link];
      assert links[|t.links|] == link;
      t.(links := links)
  }

  function LinkInput(t: Tables, q: LinkRequest): MergeInput
    requires CheckLink(t, q).None?
  {
    var u := RetainLink(t, q.intake, q.caseId);
    var link := u.links[FindLink(u.links, q.intake, q.caseId)];
    InputFor(u, q.intake, q.caseId, q.team, t.intakes[q.intake].playerText, q.club,
             link.relationship == Primary, link.relationship)
  }

  function LinkCase(t: Tables, q: LinkRequest): Result<Tables, Refusal> {
    var check := CheckLink(t, q);
    if check.Some? then Err(check.value) else
    match Merge(RetainLink(t, q.intake, q.caseId), LinkInput(t, q))
    case Err(e) => Err(e)
    case Ok(v) => Ok(Project(v, q.intake))
  }

  function CheckDuplicate(t: Tables, q: DuplicateRequest): Option<Refusal> {
    if q.intake !in t.intakes || t.intakes[q.intake].revisions == [] then Some(NotFound)
    else if t.intakes[q.intake].state == Ignored then Some(Conflict)
    else if HasActiveLink(t, q.intake) then Some(Conflict)
    else if q.caseId >= |t.cases| then Some(BadRequest)
    else if !AcceptsIntake(t.cases[q.caseId].status) then Some(Conflict)
    else if !ReporterMapped(t.intakes[q.intake], q.club) then Some(BadRequest)
    else if q.club.Some? && q.club.value !in t.clubs then Some(BadRequest)
    else None
  }

  function DuplicateReporter(t: Tables, q: DuplicateRequest): Tables {
    if q.club.Some? then RetainReporter(t, q.caseId, q.club.value, q.intake)
    else t.(parties := AddParty(t.parties, Party(q.caseId, League)))
  }

  function DuplicateResolution(t: Tables, q: DuplicateRequest): Resolution
    requires q.caseId < |t.cases| && q.intake in t.intakes
  {
    Resolution(q.caseId, q.intake, |t.intakes[q.intake].revisions|, Duplicate,
      t.cases[q.caseId].teamId, None, None, None, q.club,
      if q.club.None? then None else Some(FindParty(t.parties, q.caseId, ReportingClub(q.club.value))),
      q.club.None?)
  }

  /** The newest duplicate resolution already says the same; the team and the subjects are not compared. */
  predicate SaysTheSame(prior: Option<Resolution>, r: Resolution) {
    prior.Some? && prior.value.revision == r.revision && prior.value.club == r.club
    && prior.value.party == r.party && prior.value.leagueOrigin == r.leagueOrigin
  }

  function MarkDuplicate(t: Tables, q: DuplicateRequest): Result<Tables, Refusal> {
    if q.intake in t.intakes && t.intakes[q.intake].revisions != []
       && t.intakes[q.intake].state == MarkedDuplicate then Ok(t) else
    var check := CheckDuplicate(t, q);
    if check.Some? then Err(check.value) else
    var u := DuplicateReporter(t.(links := AddRow(t.links, Link(q.intake, q.caseId, Duplicate))), q);
    var r := DuplicateResolution(u, q);
    var v := if SaysTheSame(NewestAs(u.resolutions, q.caseId, q.intake, Duplicate), r) then u
             else u.(resolutions := u.resolutions + [r]);
    Ok(SetState(v, q.intake, MarkedDuplicate))
  }

  function Ignore(t: Tables, intake: int): Result<Tables, Refusal> {
    if intake !in t.intakes then Err(NotFound) else
    var state := t.intakes[intake].state;
    if state == Ignored then Ok(t)
    else if state == MarkedDuplicate || state == Linked || HasActiveLink(t, intake) then Err(Conflict)
    else Ok(SetState(t, intake, Ignored))
  }

  // -------- steps taken elsewhere in the system --------

  /** The casework that withdrawing a case inspects: its non-duplicate links. */
  function CaseLinks(t: Tables, caseId: nat): seq<Link> {
    LinksOfCase(t.links, caseId)
  }

  function LinksOfCase(rows: seq<Link>, caseId: nat): (r: seq<Link>)
    ensures forall l :: l in r <==> l in rows && l.caseId == caseId && l.relationship != Duplicate
  {
    if rows == [] then []
    else
      var rest := LinksOfCase(rows[..|rows| - 1], caseId);
      var last := rows[|rows| - 1];
      if last.caseId == caseId && last.relationship != Duplicate then rest + [last] else rest
  }

  /** Withdrawing an opened case: it must come from one primary report and have done nothing yet. */
  function Undo(t: Tables, caseId: nat, progressed: bool): Result<Tables, Refusal> {
    if caseId >= |t.cases| then Err(NotFound)
    else if !AcceptsIntake(t.cases[caseId].status) && t.cases[caseId].status != ResponsePending then Err(Conflict) else
    var links := CaseLinks(t, caseId);
    if t.cases[caseId].undone || |links| != 1 || links[0].relationship != Primary || progressed then Err(Conflict)
    else if links[0].intake !in t.intakes then Err(NotFound)
    else
      var u := t.(cases := t.cases[caseId := t.cases[caseId].(status := Withdrawn, undone := true)]);
      Ok(SetState(u, links[0].intake, Ignored))
  }

  /** A first observation of a report. */
  function Arrive(t: Tables, id: int, intake: Intake): Tables {
    if id in t.intakes || |intake.revisions| != 1 || intake.state !in {New, Exception} then t
    else t.(intakes := t.intakes[id := intake])
  }

  /** Where a new revision comes from: a row of the synchronised sheet, valid or not, or the league's own form. */
  datatype Source = Sheet(invalid: bool) | NativeForm

  /** The sheet's importer looks at effective links, too; the native form looks at the state alone. */
  function RevisedState(t: Tables, id: int, source: Source): IntakeState
    requires id in t.intakes
  {
    var prior := t.intakes[id].state;
    var resolved := prior in {Linked, MarkedDuplicate, Ignored};
    if source.NativeForm? then if resolved then Exception else New
    else if resolved || HasEffectiveLink(t, id) || source.invalid then Exception
    else if prior == Exception then New
    else prior
  }

  /** A changed source: a new revision, which sends a report triaged before back for review. */
  function Revise(t: Tables, id: int, source: Source, row: Intake): Tables {
    if id !in t.intakes || row.revisions == [] then t else
    var prior := t.intakes[id];
    var state := RevisedState(t, id, source);
    t.(intakes := t.intakes[id := Intake(state, row.reportingText, row.playerText,
                                         prior.revisions + [row.revisions[0]], prior.files + row.files)])
  }

  /** Any other casework moves a case's status; a withdrawn case stays withdrawn. */
  function Progress(t: Tables, caseId: nat, status: CaseStatus): Tables {
    if caseId >= |t.cases| || t.cases[caseId].status == Withdrawn then t
    else t.(cases := t.cases[caseId := t.cases[caseId].(status := status)])
  }

  datatype Step =
    | CreateStep(create: CreateRequest)
    | LinkStep(link: LinkRequest)
    | DuplicateStep(duplicate: DuplicateRequest)
    | IgnoreStep(intake: int)
    | UndoStep(caseId: nat, progressed: bool)
    | ArriveStep(intake: int, arrived: Intake)
    | ReviseStep(intake: int, source: Source, row: Intake)
    | ProgressStep(caseId: nat, status: CaseStatus)

  /** A refused request rolls its transaction back. */
  function Commit(t: Tables, r: Result<Tables, Refusal>): Tables {
    if r.Ok? then r.value else t
  }

  function Apply(t: Tables, s: Step): Tables {
    match s
    case CreateStep(q) => Commit(t, Create(t, q))
    case LinkStep(q) => Commit(t, LinkCase(t, q))
    case DuplicateStep(q) => Commit(t, MarkDuplicate(t, q))
    case IgnoreStep(i) => Commit(t, Ignore(t, i))
    case UndoStep(c, progressed) => Commit(t, Undo(t, c, progressed))
    case ArriveStep(i, intake) => Arrive(t, i, intake)
    case ReviseStep(i, source, row) => Revise(t, i, source, row)
    case ProgressStep(c, status) => Progress(t, c, status)
  }

  function Run(t: Tables, steps: seq<Step>): Tables
    decreases |steps|
  {
    if steps == [] then t else Run(Apply(t, steps[0]), steps[1..])
  }

  function Start(teams: map<int, Team>, clubs: map<int, string>): Tables {
    Tables(teams, clubs, map[], [], [], [], [], [], [], [], [])
  }
}
