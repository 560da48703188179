/**
 * The tables behind the ineligible-player triage queue. A row's serial id is its
 * position in its table, and a revision's id is its number within its intake.
 */
module IntakeTables {
  import opened Common
  import opened Text
  import opened Statuses

  datatype Relationship = Primary | Split | Supporting | Duplicate

  datatype IntakeState = New | Reviewing | Linked | MarkedDuplicate | Ignored | Exception

  datatype Team = Team(clubId: int, active: bool)

  /** The fields of a source revision that the handlers read. */
  datatype Revision = Revision(matchId: Option<int>, playerId: Option<int>)

  /** A retained upload; `intact` says that its stored bytes still match the checksum. */
  datatype File = File(revision: nat, kind: string, key: string, sha: string, intact: bool)

  datatype Intake = Intake(
    state: IntakeState, reportingText: string, playerText: string,
    revisions: seq<Revision>, files: seq<File>)

  /** `undone` is the case_opening_undone event that retires a case's links. */
  datatype CaseRow = CaseRow(
    status: CaseStatus, clubId: int, teamId: int, reportingClub: Option<int>, undone: bool)

  datatype Link = Link(intake: int, caseId: nat, relationship: Relationship)

  /** The identity that the partial unique indexes on subjects compare. */
  datatype SubjectKey =
    | TeamKey(team: int)
    | PlayerIdKey(playerId: int)
    | PlayerNameKey(team: int, name: string)
    | MatchKey(matchId: int)

  datatype Subject = Subject(
    caseId: nat, key: SubjectKey, team: Option<int>, primary: bool, intake: int, revision: nat)

  datatype SubjectLink = SubjectLink(subject: nat, caseId: nat, intake: int, revision: nat)

  datatype PartyKey = OffendingTeam(team: int) | ReportingClub(club: int) | League | Reporter

  datatype Party = Party(caseId: nat, key: PartyKey)

  datatype Provenance = Provenance(caseId: nat, club: int, intake: int, party: nat)

  datatype Resolution = Resolution(
    caseId: nat, intake: int, revision: nat, relationship: Relationship, team: int,
    teamSubject: Option<nat>, playerSubject: Option<nat>, matchSubject: Option<nat>,
    club: Option<int>, party: Option<nat>, leagueOrigin: bool)

  datatype Evidence = Evidence(
    caseId: nat, intake: int, revision: nat, kind: string, key: string, sha: string)

  datatype Tables = Tables(
    teams: map<int, Team>, clubs: map<int, string>,
    intakes: map<int, Intake>, cases: seq<CaseRow>, links: seq<Link>,
    subjects: seq<Subject>, subjectLinks: seq<SubjectLink>,
    parties: seq<Party>, provenance: seq<Provenance>,
    resolutions: seq<Resolution>, evidence: seq<Evidence>)

  datatype Refusal =
    | NotFound | Conflict | BadRequest | IncompleteMerge | UnmappedClub
    | ConstraintViolation | EvidenceUnavailable

  // -------- find-or-append: INSERT ... ON CONFLICT DO NOTHING, then SELECT id --------

  function FindSubject(rows: seq<Subject>, caseId: nat, key: SubjectKey): (i: nat)
    ensures i <= |rows|
    ensures i < |rows| ==> rows[i].caseId == caseId && rows[i].key == key
    ensures forall j | 0 <= j < i :: !(rows[j].caseId == caseId && rows[j].key == key)
  {
    if rows == [] then 0
    else if rows[0].caseId == caseId && rows[0].key == key then 0
    else 1 + FindSubject(rows[1..], caseId, key)
  }

  function FindParty(rows: seq<Party>, caseId: nat, key: PartyKey): (i: nat)
    ensures i <= |rows|
    ensures i < |rows| ==> rows[i] == Party(caseId, key)
    ensures forall j | 0 <= j < i :: rows[j] != Party(caseId, key)
  {
    if rows == [] then 0
    else if rows[0] == Party(caseId, key) then 0
    else 1 + FindParty(rows[1..], caseId, key)
  }

  function AddSubject(rows: seq<Subject>, row: Subject): seq<Subject> {
    if FindSubject(rows, row.caseId, row.key) < |rows| then rows else rows + [row]
  }

  function AddParty(rows: seq<Party>, row: Party): seq<Party> {
    if FindParty(rows, row.caseId, row.key) < |rows| then rows else rows + [row]
  }

  function AddRow<T(==)>(rows: seq<T>, row: T): seq<T> {
    if row in rows then rows else rows + [row]
  }

  predicate HasProvenance(rows: seq<Provenance>, row: Provenance) {
    exists i | 0 <= i < |rows| ::
      rows[i].caseId == row.caseId && rows[i].club == row.club && rows[i].intake == row.intake
  }

  function AddProvenance(rows: seq<Provenance>, row: Provenance): seq<Provenance> {
    if HasProvenance(rows, row) then rows else rows + [row]
  }

  // -------- newest rows: ORDER BY id DESC LIMIT 1 --------

  function Newest(rows: seq<Resolution>, caseId: nat, intake: int): (r: Option<Resolution>)
    ensures r.Some? ==> r.value in rows && r.value.caseId == caseId && r.value.intake == intake
  {
    if rows == [] then None
    else
      var last := rows[|rows| - 1];
      if last.caseId == caseId && last.intake == intake then Some(last)
      else Newest(rows[..|rows| - 1], caseId, intake)
  }

  function NewestAs(
    rows: seq<Resolution>, caseId: nat, intake: int, relationship: Relationship): (r: Option<Resolution>)
    ensures r.Some? ==> r.value in rows && r.value.caseId == caseId && r.value.intake == intake
  {
    if rows == [] then None
    else
      var last := rows[|rows| - 1];
      if last.caseId == caseId && last.intake == intake && last.relationship == relationship then Some(last)
      else NewestAs(rows[..|rows| - 1], caseId, intake, relationship)
  }

  // -------- the effective-links view and the projection of an intake's state --------

  predicate Effective(t: Tables, link: Link) {
    link.caseId < |t.cases| && !t.cases[link.caseId].undone
  }

  predicate HasEffectiveLink(t: Tables, intake: int) {
    exists i | 0 <= i < |t.links| :: t.links[i].intake == intake && Effective(t, t.links[i])
  }

  /** A link that keeps its intake in active casework: effective and not a duplicate. */
  predicate IsActive(t: Tables, intake: int, link: Link) {
    link.intake == intake && Effective(t, link) && link.relationship != Duplicate
  }

  predicate HasActiveLink(t: Tables, intake: int) {
    exists i | 0 <= i < |t.links| :: IsActive(t, intake, t.links[i])
  }

  predicate Open(state: IntakeState) {
    state != MarkedDuplicate && state != Ignored
  }

  /** The projection's inner NOT EXISTS: no newest resolution of this relationship names the revision. */
  predicate Unresolved(t: Tables, link: Link, revision: nat) {
    var current := NewestAs(t.resolutions, link.caseId, link.intake, link.relationship);
    !(current.Some? && current.value.revision == revision)
  }

  predicate NeedsReview(t: Tables, intake: int)
    requires intake in t.intakes
  {
    exists i | 0 <= i < |t.links| ::
      IsActive(t, intake, t.links[i]) && Unresolved(t, t.links[i], |t.intakes[intake].revisions|)
  }

  function Project(t: Tables, intake: int): Tables
    requires intake in t.intakes
  {
    SetState(t, intake, if NeedsReview(t, intake) then Exception else Linked)
  }

  function SetState(t: Tables, intake: int, state: IntakeState): Tables
    requires intake in t.intakes
  {
    t.(intakes := t.intakes[intake := t.intakes[intake].(state := state)])
  }

  predicate AcceptsIntake(status: CaseStatus) {
    status.Submitted? || status.Triage? || status.Investigating?
  }
}
