/**
 * The triage handlers as transactions that write the tables in place, row by row, and
 * roll every write back when a later statement refuses.
 */
module IntakeStore {
  import opened Common
  import opened Text
  import opened Statuses
  import opened IntakeTables
  import opened IntakeSteps

  class Store {
    var teams: map<int, Team>
    var clubs: map<int, string>
    var intakes: map<int, Intake>
    var cases: seq<CaseRow>
    var links: seq<Link>
    var subjects: seq<Subject>
    var subjectLinks: seq<SubjectLink>
    var parties: seq<Party>
    var provenance: seq<Provenance>
    var resolutions: seq<Resolution>
    var evidence: seq<Evidence>

    constructor (teams: map<int, Team>, clubs: map<int, string>)
      ensures View() == Start(teams, clubs)
    {
      this.teams, this.clubs := teams, clubs;
      intakes, cases, links, subjects, subjectLinks := map[], [], [], [], [];
      parties, provenance, resolutions, evidence := [], [], [], [];
    }

    function View(): Tables
      reads this
    {
      Tables(teams, clubs, intakes, cases, links, subjects, subjectLinks, parties, provenance, resolutions, evidence)
    }

    /** tx.Rollback: the rows are again what they were when the transaction began. */
    method Rollback(before: Tables)
      modifies this
      ensures View() == before
    {
      teams, clubs, intakes, cases, links := before.teams, before.clubs, before.intakes, before.cases, before.links;
      subjects, subjectLinks, parties := before.subjects, before.subjectLinks, before.parties;
      provenance, resolutions, evidence := before.provenance, before.resolutions, before.evidence;
    }

    method UpsertSubject(m: MergeInput, key: SubjectKey) returns (id: nat)
      modifies this`subjects
      ensures subjects == AddSubject(old(subjects), SubjectRow(m, key))
      ensures id == FindSubject(subjects, m.caseId, key)
    {
      id := FindSubject(subjects, m.caseId, key);
      if id == |subjects| {
        subjects := subjects + [SubjectRow(m, key)];
        id := FindSubject(subjects, m.caseId, key);
      }
    }

    method LinkSubjectRevision(id: nat, m: MergeInput)
      modifies this`subjectLinks
      ensures subjectLinks == AddRow(old(subjectLinks), SubjectLink(id, m.caseId, m.intake, m.revision))
    {
      var row := SubjectLink(id, m.caseId, m.intake, m.revision);
      if row !in subjectLinks {
        subjectLinks := subjectLinks + [row];
      }
    }

    method MergeSubject(m: MergeInput, key: SubjectKey)
      modifies this`subjects, this`subjectLinks
      ensures View() == IntakeSteps.UpsertSubject(old(View()), m, key)
    {
      var id := UpsertSubject(m, key);
      LinkSubjectRevision(id, m);
    }

    method MergeSubjects(m: MergeInput)
      modifies this`subjects, this`subjectLinks
      ensures View() == UpsertSubjects(old(View()), m, SubjectKeys(m))
    {
      UpsertsInOrder(View(), m);
      MergeSubject(m, TeamKey(m.team));
      MergeSubject(m, PlayerKey(m));
      if m.matchId.Some? {
        MergeSubject(m, MatchKey(m.matchId.value));
      }
    }

    method InsertParty(row: Party)
      modifies this`parties
      ensures parties == AddParty(old(parties), row)
    {
      if FindParty(parties, row.caseId, row.key) == |parties| {
        parties := parties + [row];
      }
    }

    method RetainReporter(caseId: nat, club: int, intake: int)
      modifies this`parties, this`provenance
      ensures View() == IntakeSteps.RetainReporter(old(View()), caseId, club, intake)
    {
      InsertParty(Party(caseId, ReportingClub(club)));
      var row := Provenance(caseId, club, intake, FindParty(parties, caseId, ReportingClub(club)));
      if !HasProvenance(provenance, row) {
        provenance := provenance + [row];
      }
    }

    /** The loop stops at the first file whose stored bytes cannot be verified. */
    method AttachEvidence(caseId: nat, intake: int) returns (refused: Option<Refusal>)
      requires intake in intakes
      modifies this`evidence
      ensures Attach(old(evidence), caseId, intake, intakes[intake].files)
           == if refused.Some? then Err(refused.value) else Ok(evidence)
    {
      var files := intakes[intake].files;
      for k := 0 to |files|
        invariant Attach(old(evidence), caseId, intake, files) == Attach(evidence, caseId, intake, files[k..])
      {
        assert files[k..][0] == files[k] && files[k..][1..] == files[k + 1..];
        var row := EvidenceRow(caseId, intake, files[k]);
        if row in evidence { continue; }
        if !files[k].intact {
          return Some(EvidenceUnavailable);
        }
        evidence := evidence + [row];
      }
      refused := None;
    }

    method MergeParties(m: MergeInput)
      requires m.caseId < |cases| && (m.leagueOrigin || m.club.Some?)
      modifies this`parties, this`provenance, this`cases
      ensures View() == IntakeSteps.MergeParties(old(View()), m)
    {
      InsertParty(Party(m.caseId, OffendingTeam(m.team)));
      var current := cases[m.caseId];
      if m.leagueOrigin {
        InsertParty(Party(m.caseId, League));
        if m.primary {
          cases := cases[m.caseId := current.(reportingClub := None)];
        }
      } else {
        RetainReporter(m.caseId, m.club.value, m.intake);
        var club := if m.primary || current.reportingClub.None? then m.club else current.reportingClub;
        cases := cases[m.caseId := current.(reportingClub := club)];
      }
    }

    method RecordResolution(r: Resolution)
      modifies this`resolutions
      ensures View() == Record(old(View()), r)
    {
      if Newest(resolutions, r.caseId, r.intake) != Some(r) {
        resolutions := resolutions + [r];
      }
    }

    /** A refusal leaves the rows written so far for the caller to roll back. */
    method MergeIntakeIntoCase(m: MergeInput) returns (refused: Option<Refusal>)
      requires m.caseId < |cases| && m.intake in intakes
      modifies this
      ensures Merge(old(View()), m) == if refused.Some? then Err(refused.value) else Ok(View())
    {
      if Trim(m.player) == "" {
        return Some(IncompleteMerge);
      }
      MergeSubjects(m);
      if !m.leagueOrigin && (m.club.None? || Trim(m.clubName) == "") {
        return Some(UnmappedClub);
      }
      MergeParties(m);
      if m.leagueOrigin && m.club.Some? {
        return Some(ConstraintViolation);
      }
      RecordResolution(MergeResolution(View(), m));
      refused := AttachEvidence(m.caseId, m.intake);
    }

    method ProjectMergeState(intake: int)
      requires intake in intakes
      modifies this`intakes
      ensures View() == Project(old(View()), intake)
    {
      var state := if NeedsReview(View(), intake) then Exception else Linked;
      intakes := intakes[intake := intakes[intake].(state := state)];
    }

    method CreateCase(q: CreateRequest) returns (refused: Option<Refusal>)
      modifies this
      ensures View() == Commit(old(View()), Create(old(View()), q))
      ensures refused.Some? <==> Create(old(View()), q).Err?
    {
      var before := View();
      refused := CheckCreate(before, q);
      if refused.Some? { return; }
      var caseId := |cases|;
      var m := CreateInput(before, q);
      cases := cases + [CaseRow(Investigating, teams[q.team].clubId, q.team, q.club, false)];
      links := links + [Link(q.intake, caseId, m.relationship)];
      refused := MergeIntakeIntoCase(m);
      if refused.Some? {
        Rollback(before);
        return;
      }
      if q.reporterKnown {
        parties := parties + [Party(caseId, Reporter)];
      }
      ProjectMergeState(q.intake);
    }

    method LinkCase(q: LinkRequest) returns (refused: Option<Refusal>)
      modifies this
      ensures View() == Commit(old(View()), IntakeSteps.LinkCase(old(View()), q))
      ensures refused.Some? <==> IntakeSteps.LinkCase(old(View()), q).Err?
    {
      var before := View();
      refused := CheckLink(before, q);
      if refused.Some? { return; }
      var m := LinkInput(before, q);
      if FindLink(links, q.intake, q.caseId) == |links| {
        links := links + [Link(q.intake, q.caseId, if HasEffectiveLink(before, q.intake) then Supporting else Primary)];
      }
      refused := MergeIntakeIntoCase(m);
      if refused.Some? {
        Rollback(before);
        return;
      }
      ProjectMergeState(q.intake);
    }

    method MarkDuplicate(q: DuplicateRequest) returns (refused: Option<Refusal>)
      modifies this
      ensures View() == Commit(old(View()), IntakeSteps.MarkDuplicate(old(View()), q))
      ensures refused.Some? <==> IntakeSteps.MarkDuplicate(old(View()), q).Err?
    {
      refused := None;
      var known := q.intake in intakes && intakes[q.intake].revisions != [];
      if known && intakes[q.intake].state == MarkedDuplicate { return; }
      refused := CheckDuplicate(View(), q);
      if refused.Some? { return; }
      links := AddRow(links, Link(q.intake, q.caseId, Duplicate));
      if q.club.Some? {
        RetainReporter(q.caseId, q.club.value, q.intake);
      } else {
        InsertParty(Party(q.caseId, League));
      }
      assert View() == DuplicateReporter(old(View()).(links := links), q);
      var r := DuplicateResolution(View(), q);
      if !SaysTheSame(NewestAs(resolutions, q.caseId, q.intake, Duplicate), r) {
        resolutions := resolutions + [r];
      }
      intakes := intakes[q.intake := intakes[q.intake].(state := MarkedDuplicate)];
    }

    method Ignore(intake: int) returns (refused: Option<Refusal>)
      modifies this`intakes
      ensures View() == Commit(old(View()), IntakeSteps.Ignore(old(View()), intake))
      ensures refused.Some? <==> IntakeSteps.Ignore(old(View()), intake).Err?
    {
      if intake !in intakes {
        return Some(NotFound);
      }
      refused := None;
      var state := intakes[intake].state;
      if state == Ignored { return; }
      if state == MarkedDuplicate || state == Linked || HasActiveLink(View(), intake) {
        return Some(Conflict);
      }
      intakes := intakes[intake := intakes[intake].(state := Ignored)];
    }
  }

  lemma UpsertsInOrder(t: Tables, m: MergeInput)
    ensures var u := UpsertSubject(UpsertSubject(t, m, TeamKey(m.team)), m, PlayerKey(m));
      UpsertSubjects(t, m, SubjectKeys(m))
        == if m.matchId.Some? then UpsertSubject(u, m, MatchKey(m.matchId.value)) else u
  {
    var keys := SubjectKeys(m);
    var one := UpsertSubject(t, m, keys[0]);
    var two := UpsertSubject(one, m, keys[1]);
    assert keys[1..][1..] == keys[2..];
    assert UpsertSubjects(t, m, keys) == UpsertSubjects(one, m, keys[1..]);
    assert UpsertSubjects(one, m, keys[1..]) == UpsertSubjects(two, m, keys[2..]);
    if m.matchId.Some? {
      assert keys[2..] == [MatchKey(m.matchId.value)] && keys[2..][1..] == [];
    } else {
      assert keys[2..] == [];
    }
  }
}
