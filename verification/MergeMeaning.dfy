/**
 * What a merge stores, in terms of the report's own fields: which subjects, parties, provenance,
 * resolution and evidence rows there are afterwards, under which keys, and when a merge is refused.
 */
module MergeMeaning {
  import opened Common
  import opened Text
  import opened Statuses
  import opened IntakeTables
  import opened IntakeSteps
  import opened IntakeMerge

  // -------- subjects --------

  /** A player is the one with the Play-Cricket id, or else the one of the team with that name in any letter case. */
  predicate IsPlayer(m: MergeInput, key: SubjectKey) {
    && (m.playerId.Some? ==> key == PlayerIdKey(m.playerId.value))
    && (m.playerId == None ==> key == PlayerNameKey(m.team, Lower(Trim(m.player))))
  }

  /** The identities that a report names. */
  predicate Named(m: MergeInput, key: SubjectKey) {
    key == TeamKey(m.team) || IsPlayer(m, key) || (m.matchId.Some? && key == MatchKey(m.matchId.value))
  }

  lemma NamedExactly(m: MergeInput, key: SubjectKey)
    ensures key in SubjectKeys(m) <==> Named(m, key)
    ensures IsPlayer(m, PlayerKey(m))
  {
  }

  /** A row for an identity, as the report describes it. */
  predicate Describes(m: MergeInput, row: Subject) {
    && row.caseId == m.caseId && row.primary == m.primary && row.intake == m.intake && row.revision == m.revision
    && (row.key.MatchKey? ==> row.team == None) && (!row.key.MatchKey? ==> row.team == Some(m.team))
  }

  /** New rows are for identities that had none. */
  ghost predicate NewRows(before: seq<Subject>, after: seq<Subject>, m: MergeInput, keys: set<SubjectKey>) {
    && before <= after
    && forall i | |before| <= i < |after| ::
      && after[i].key in keys && Describes(m, after[i])
      && FindSubject(before, m.caseId, after[i].key) == |before|
  }

  /** The identities are all there and linked to the revision. */
  ghost predicate Present(u: Tables, m: MergeInput, keys: set<SubjectKey>) {
    forall k | k in keys :: Upserted(u, m, k)
  }

  ghost predicate NewLinks(t: Tables, u: Tables, m: MergeInput, keys: set<SubjectKey>) {
    forall l | l in u.subjectLinks && l !in t.subjectLinks ::
      && l.caseId == m.caseId && l.intake == m.intake && l.revision == m.revision
      && exists k | k in keys :: l.subject == FindSubject(u.subjects, m.caseId, k)
  }

  lemma OneStored(t: Tables, m: MergeInput, key: SubjectKey)
    ensures var u := UpsertSubject(t, m, key);
      NewRows(t.subjects, u.subjects, m, {key}) && NewLinks(t, u, m, {key})
  {
    UpsertOne(t, m, key);
    assert key in {key};
  }

  /** An identity that is there has the same id later. */
  lemma Stays(before: seq<Subject>, after: seq<Subject>, m: MergeInput, k: SubjectKey)
    requires before <= after
    ensures FindSubject(before, m.caseId, k) < |before| ==>
      FindSubject(after, m.caseId, k) == FindSubject(before, m.caseId, k)
  {
    assert after == before + after[|before|..];
    if FindSubject(before, m.caseId, k) < |before| {
      SubjectIdStable(before, after[|before|..], m.caseId, k);
    }
  }

  lemma RowsOnTop(
    a: seq<Subject>, b: seq<Subject>, c: seq<Subject>, m: MergeInput, one: set<SubjectKey>, two: set<SubjectKey>)
    requires NewRows(a, b, m, one) && NewRows(b, c, m, two)
    ensures NewRows(a, c, m, one + two)
  {
    forall i | |a| <= i < |c|
      ensures c[i].key in one + two && Describes(m, c[i]) && FindSubject(a, m.caseId, c[i].key) == |a|
    {
      if i < |b| {
        assert c[i] == b[i];
      } else {
        Stays(a, b, m, c[i].key);
      }
    }
  }

  lemma LinksOnTop(t: Tables, u: Tables, v: Tables, m: MergeInput, one: set<SubjectKey>, two: set<SubjectKey>)
    requires u.subjects <= v.subjects && NewLinks(t, u, m, one) && NewLinks(u, v, m, two) && Present(u, m, one)
    ensures NewLinks(t, v, m, one + two)
  {
    forall k | k in one ensures FindSubject(v.subjects, m.caseId, k) == FindSubject(u.subjects, m.caseId, k) {
      assert Upserted(u, m, k);
      Stays(u.subjects, v.subjects, m, k);
    }
    forall l | l in v.subjectLinks && l !in t.subjectLinks
      ensures l.caseId == m.caseId && l.intake == m.intake && l.revision == m.revision
        && exists k | k in one + two :: l.subject == FindSubject(v.subjects, m.caseId, k)
    {
      if l in u.subjectLinks {
        var k :| k in one && l.subject == FindSubject(u.subjects, m.caseId, k);
        assert k in one + two;
      } else {
        var k :| k in two && l.subject == FindSubject(v.subjects, m.caseId, k);
        assert k in one + two;
      }
    }
  }

  function KeySet(keys: seq<SubjectKey>): set<SubjectKey> {
    set k | k in keys
  }

  lemma {:induction false} AllStored(t: Tables, m: MergeInput, keys: seq<SubjectKey>)
    ensures var u := UpsertSubjects(t, m, keys);
      NewRows(t.subjects, u.subjects, m, KeySet(keys)) && NewLinks(t, u, m, KeySet(keys))
    decreases |keys|
  {
    if keys != [] {
      var u, rest := UpsertSubject(t, m, keys[0]), keys[1..];
      var v := UpsertSubjects(u, m, rest);
      OneStored(t, m, keys[0]);
      UpsertOne(t, m, keys[0]);
      AllStored(u, m, rest);
      assert keys == [keys[0]] + rest;
      assert KeySet(keys) == {keys[0]} + KeySet(rest);
      RowsOnTop(t.subjects, u.subjects, v.subjects, m, {keys[0]}, KeySet(rest));
      LinksOnTop(t, u, v, m, {keys[0]}, KeySet(rest));
    }
  }

  // -------- parties --------

  /** Who a report brings into the case: the offending team, and the league or the reporting club. */
  predicate BringsIn(m: MergeInput, key: PartyKey) {
    || key == OffendingTeam(m.team)
    || (m.leagueOrigin && key == League)
    || (!m.leagueOrigin && m.club.Some? && key == ReportingClub(m.club.value))
  }

  /** They are there, and nobody else is new. */
  ghost predicate PartiesStored(t: Tables, u: Tables, m: MergeInput) {
    && t.parties <= u.parties
    && (forall p | p in u.parties && p !in t.parties :: p.caseId == m.caseId && BringsIn(m, p.key))
    && forall key | BringsIn(m, key) :: Party(m.caseId, key) in u.parties
  }

  lemma PartiesHere(t: Tables, m: MergeInput)
    requires m.caseId < |t.cases| && (m.leagueOrigin <==> m.club == None)
    ensures PartiesStored(t, MergeParties(t, m), m)
  {
    var offender := Party(m.caseId, OffendingTeam(m.team));
    var row := Party(m.caseId, if m.leagueOrigin then League else ReportingClub(m.club.value));
    TwoAdded(t.parties, offender, row);
    assert MergeParties(t, m).parties == AddParty(AddParty(t.parties, offender), row);
  }

  lemma TwoAdded(rows: seq<Party>, a: Party, b: Party)
    ensures var u := AddParty(AddParty(rows, a), b);
      rows <= u && a in u && b in u && forall p | p in u :: p in rows || p == a || p == b
  {
    PartyAdded(rows, a);
    PartyAdded(AddParty(rows, a), b);
  }

  /** The report is named as the source of its reporting club, with the club's party, unless it was before. */
  ghost predicate SourceStored(t: Tables, u: Tables, m: MergeInput) {
    && t.provenance <= u.provenance
    && if m.leagueOrigin || m.club == None then u.provenance == t.provenance
       else
         && (exists p :: p in u.provenance && p.caseId == m.caseId && p.club == m.club.value && p.intake == m.intake)
         && forall i | |t.provenance| <= i < |u.provenance| ::
           && u.provenance[i].caseId == m.caseId && u.provenance[i].club == m.club.value
           && u.provenance[i].intake == m.intake
           && u.provenance[i].party == FindParty(u.parties, m.caseId, ReportingClub(m.club.value)) < |u.parties|
           && !exists p :: p in t.provenance && p.caseId == m.caseId && p.club == m.club.value && p.intake == m.intake
  }

  lemma SourceHere(t: Tables, m: MergeInput)
    requires m.caseId < |t.cases| && (m.leagueOrigin <==> m.club == None)
    ensures SourceStored(t, MergeParties(t, m), m)
  {
    if !m.leagueOrigin {
      var u, club := MergeParties(t, m), m.club.value;
      var mid := AddParty(t.parties, Party(m.caseId, OffendingTeam(m.team)));
      PartyAdded(mid, Party(m.caseId, ReportingClub(club)));
      var row := Provenance(m.caseId, club, m.intake, FindParty(u.parties, m.caseId, ReportingClub(club)));
      assert u.provenance == AddProvenance(t.provenance, row);
      OneSource(t.provenance, row);
    }
  }

  predicate SameSource(p: Provenance, row: Provenance) {
    p.caseId == row.caseId && p.club == row.club && p.intake == row.intake
  }

  lemma OneSource(rows: seq<Provenance>, row: Provenance)
    ensures var u := AddProvenance(rows, row);
      && (exists p :: p in u && SameSource(p, row))
      && u == if exists p :: p in rows && SameSource(p, row) then rows else rows + [row]
  {
    if p :| p in rows && SameSource(p, row) {
      var i :| 0 <= i < |rows| && rows[i] == p;
      assert HasProvenance(rows, row);
    }
    if HasProvenance(rows, row) {
      var i :| 0 <= i < |rows| && SameSource(rows[i], row);
      assert rows[i] in rows;
    }
    assert row in rows + [row] && SameSource(row, row);
  }

  /** The case's own reporting club: the league clears it for a first report, and a club fills it in. */
  lemma ClubStored(t: Tables, m: MergeInput)
    requires m.caseId < |t.cases| && m.intake in t.intakes && Merge(t, m).Ok?
    ensures var before, after := t.cases[m.caseId], Merge(t, m).value.cases[m.caseId];
      && after.status == before.status && after.clubId == before.clubId && after.teamId == before.teamId
      && after.undone == before.undone
      && (m.leagueOrigin && m.primary ==> after.reportingClub == None)
      && (m.leagueOrigin && !m.primary ==> after.reportingClub == before.reportingClub)
      && (!m.leagueOrigin && (m.primary || before.reportingClub == None) ==> after.reportingClub == m.club)
      && (!m.leagueOrigin && !m.primary && before.reportingClub != None ==> after.reportingClub == before.reportingClub)
  {
    MergeStages(t, m);
  }

  // -------- the resolution and the evidence --------

  /** It names the report, its revision and the rows by which its team, player, match and club are known. */
  predicate Resolves(u: Tables, m: MergeInput, r: Resolution) {
    && r.caseId == m.caseId && r.intake == m.intake && r.revision == m.revision && r.relationship == m.relationship
    && r.team == m.team && r.club == m.club && r.leagueOrigin == m.leagueOrigin
    && r.teamSubject == Some(FindSubject(u.subjects, m.caseId, TeamKey(m.team)))
    && (m.playerId.Some? ==> r.playerSubject == Some(FindSubject(u.subjects, m.caseId, PlayerIdKey(m.playerId.value))))
    && (m.playerId == None ==>
      r.playerSubject == Some(FindSubject(u.subjects, m.caseId, PlayerNameKey(m.team, Lower(Trim(m.player))))))
    && (m.matchId == None ==> r.matchSubject == None)
    && (m.matchId.Some? ==> r.matchSubject == Some(FindSubject(u.subjects, m.caseId, MatchKey(m.matchId.value))))
    && (m.leagueOrigin ==> r.party == None)
    && (!m.leagueOrigin && m.club.Some? ==>
      r.party == Some(FindParty(u.parties, m.caseId, ReportingClub(m.club.value))))
  }

  ghost predicate ResolutionStored(t: Tables, u: Tables, m: MergeInput) {
    var r := Newest(u.resolutions, m.caseId, m.intake);
    && r.Some? && Resolves(u, m, r.value)
    && u.resolutions
       == if Newest(t.resolutions, m.caseId, m.intake) == r then t.resolutions else t.resolutions + [r.value]
  }

  lemma ResolutionHere(t: Tables, m: MergeInput)
    requires m.caseId < |t.cases| && m.intake in t.intakes && Merge(t, m).Ok?
    ensures ResolutionStored(t, Merge(t, m).value, m)
  {
    MergeStages(t, m);
    var p := MergeParties(UpsertSubjects(t, m, SubjectKeys(m)), m);
    Recorded(p, MergeResolution(p, m));
  }

  predicate Bridges(caseId: nat, intake: int, f: File, e: Evidence) {
    && e.caseId == caseId && e.intake == intake
    && e.revision == f.revision && e.kind == f.kind && e.key == f.key && e.sha == f.sha
  }

  /** Every retained file is bridged, and nothing else is new. */
  ghost predicate EvidenceStored(t: Tables, u: Tables, m: MergeInput)
    requires m.intake in t.intakes
  {
    && t.evidence <= u.evidence
    && (forall f | f in t.intakes[m.intake].files :: exists e :: e in u.evidence && Bridges(m.caseId, m.intake, f, e))
    && forall e | e in u.evidence && e !in t.evidence ::
      exists f :: f in t.intakes[m.intake].files && Bridges(m.caseId, m.intake, f, e)
  }

  lemma EvidenceHere(t: Tables, m: MergeInput)
    requires m.caseId < |t.cases| && m.intake in t.intakes && Merge(t, m).Ok?
    ensures EvidenceStored(t, Merge(t, m).value, m)
  {
    MergeStages(t, m);
    var files := t.intakes[m.intake].files;
    AttachAppends(t.evidence, m.caseId, m.intake, files);
    forall f | f in files
      ensures exists e :: e in Merge(t, m).value.evidence && Bridges(m.caseId, m.intake, f, e)
    {
      assert Bridges(m.caseId, m.intake, f, EvidenceRow(m.caseId, m.intake, f));
    }
    forall e | e in Merge(t, m).value.evidence && e !in t.evidence
      ensures exists f :: f in files && Bridges(m.caseId, m.intake, f, e)
    {
      var f :| f in files && e == EvidenceRow(m.caseId, m.intake, f);
      assert Bridges(m.caseId, m.intake, f, e);
    }
  }

  // -------- the whole merge --------

  /** The identities that a report names, as a set. */
  function Identities(m: MergeInput): set<SubjectKey> {
    { TeamKey(m.team),
      if m.playerId.Some? then PlayerIdKey(m.playerId.value) else PlayerNameKey(m.team, Lower(Trim(m.player))) }
    + if m.matchId.Some? then {MatchKey(m.matchId.value)} else {}
  }

  ghost predicate Stored(t: Tables, u: Tables, m: MergeInput)
    requires m.intake in t.intakes
  {
    && NewRows(t.subjects, u.subjects, m, Identities(m))
    && (forall k | k in Identities(m) ::
      && FindSubject(u.subjects, m.caseId, k) < |u.subjects|
      && SubjectLink(FindSubject(u.subjects, m.caseId, k), m.caseId, m.intake, m.revision) in u.subjectLinks)
    && NewLinks(t, u, m, Identities(m)) && t.subjectLinks <= u.subjectLinks
    && PartiesStored(t, u, m) && SourceStored(t, u, m) && ResolutionStored(t, u, m) && EvidenceStored(t, u, m)
  }

  lemma IdentitiesAreKeys(m: MergeInput)
    ensures KeySet(SubjectKeys(m)) == Identities(m)
  {
    var keys := SubjectKeys(m);
    assert keys[0] == TeamKey(m.team) && keys[1] == PlayerKey(m);
    assert m.matchId.Some? ==> keys[2] == MatchKey(m.matchId.value);
    forall k ensures k in KeySet(keys) <==> k in Identities(m) {
      if k in Identities(m) {
        assert k == keys[0] || k == keys[1] || (m.matchId.Some? && k == keys[2]);
      }
    }
  }

  /** What a merge stores: the rows that the report's own fields call for, and no others. */
  lemma MergeStores(t: Tables, m: MergeInput)
    requires m.caseId < |t.cases| && m.intake in t.intakes && Merge(t, m).Ok?
    ensures Stored(t, Merge(t, m).value, m)
  {
    MergeStages(t, m);
    var s := UpsertSubjects(t, m, SubjectKeys(m));
    AllStored(t, m, SubjectKeys(m));
    UpsertAll(t, m, SubjectKeys(m));
    IdentitiesAreKeys(m);
    PartiesHere(s, m);
    SourceHere(s, m);
    ResolutionHere(t, m);
    EvidenceHere(t, m);
    forall k | k in Identities(m) ensures Upserted(s, m, k) {
      assert k in KeySet(SubjectKeys(m));
    }
  }

  /** Nothing is new but for the identities named. */
  lemma OldUnlessNamed(before: seq<Subject>, after: seq<Subject>, m: MergeInput, keys: set<SubjectKey>, s: Subject)
    requires NewRows(before, after, m, keys) && s in after && s.key !in keys
    ensures s in before
  {
    var i :| 0 <= i < |after| && after[i] == s;
    assert before[i] == s;
  }

  /** The player's subject is there, and the newest resolution names it. */
  ghost predicate Filed(u: Tables, m: MergeInput, key: SubjectKey) {
    var newest := Newest(u.resolutions, m.caseId, m.intake);
    && FindSubject(u.subjects, m.caseId, key) < |u.subjects|
    && newest.Some? && newest.value.playerSubject == Some(FindSubject(u.subjects, m.caseId, key))
  }

  lemma PlayerFiled(t: Tables, u: Tables, m: MergeInput, key: SubjectKey)
    requires m.intake in t.intakes && Stored(t, u, m) && IsPlayer(m, key)
    ensures Filed(u, m, key)
  {
    assert key in Identities(m);
  }

  /** A player with a Play-Cricket id is filed under it, whatever the name, and no name gets a new subject. */
  lemma PlayerIsFiledById(t: Tables, m: MergeInput, p: int)
    requires m.caseId < |t.cases| && m.intake in t.intakes && Merge(t, m).Ok? && m.playerId == Some(p)
    ensures Filed(Merge(t, m).value, m, PlayerIdKey(p))
    ensures forall s | s in Merge(t, m).value.subjects && s.key.PlayerNameKey? :: s in t.subjects
  {
    MergeStores(t, m);
    PlayerFiled(t, Merge(t, m).value, m, PlayerIdKey(p));
    NoNewNames(t.subjects, Merge(t, m).value.subjects, m);
  }

  lemma NoNewNames(before: seq<Subject>, after: seq<Subject>, m: MergeInput)
    requires NewRows(before, after, m, Identities(m))
    ensures m.playerId.Some? ==> forall s | s in after && s.key.PlayerNameKey? :: s in before
    ensures m.playerId == None ==> forall s | s in after && s.key.PlayerIdKey? :: s in before
  {
    forall s | s in after && s.key !in Identities(m) ensures s in before {
      OldUnlessNamed(before, after, m, Identities(m), s);
    }
  }

  /** One without is filed under the team and the name. */
  lemma PlayerIsFiledByName(t: Tables, m: MergeInput)
    requires m.caseId < |t.cases| && m.intake in t.intakes && Merge(t, m).Ok? && m.playerId == None
    ensures Filed(Merge(t, m).value, m, PlayerNameKey(m.team, Lower(Trim(m.player))))
    ensures forall s | s in Merge(t, m).value.subjects && s.key.PlayerIdKey? :: s in t.subjects
  {
    MergeStores(t, m);
    PlayerFiled(t, Merge(t, m).value, m, PlayerNameKey(m.team, Lower(Trim(m.player))));
    NoNewNames(t.subjects, Merge(t, m).value.subjects, m);
  }

  // -------- when a merge is refused --------

  /** A file can be bridged if it is intact, or was bridged before, be it in this merge. */
  predicate Bridgeable(rows: seq<Evidence>, caseId: nat, intake: int, files: seq<File>, k: nat)
    requires k < |files|
  {
    || files[k].intact
    || (exists e :: e in rows && Bridges(caseId, intake, files[k], e))
    || exists j | 0 <= j < k :: files[j].(intact := true) == files[k].(intact := true)
  }

  lemma {:induction false} AttachesExactly(rows: seq<Evidence>, caseId: nat, intake: int, files: seq<File>)
    ensures Attach(rows, caseId, intake, files).Ok? <==>
      forall k | 0 <= k < |files| :: Bridgeable(rows, caseId, intake, files, k)
    ensures Attach(rows, caseId, intake, files).Err? ==>
      Attach(rows, caseId, intake, files).error == EvidenceUnavailable
    decreases |files|
  {
    if files != [] {
      var f, rest := files[0], files[1..];
      var e := EvidenceRow(caseId, intake, f);
      var more := if e in rows then rows else rows + [e];
      AttachesExactly(more, caseId, intake, rest);
      BridgedIsRow(rows, caseId, intake, f);
      forall k | 0 <= k < |rest|
        ensures Bridgeable(rows, caseId, intake, files, k + 1) <==> Bridgeable(more, caseId, intake, rest, k)
      {
        NextBridgeable(rows, caseId, intake, files, k);
      }
      AllShift(rows, more, caseId, intake, files);
    }
  }

  lemma AllShift(rows: seq<Evidence>, more: seq<Evidence>, caseId: nat, intake: int, files: seq<File>)
    requires files != []
    requires forall k | 0 <= k < |files| - 1 ::
      Bridgeable(rows, caseId, intake, files, k + 1) <==> Bridgeable(more, caseId, intake, files[1..], k)
    ensures (forall k | 0 <= k < |files| :: Bridgeable(rows, caseId, intake, files, k)) <==>
      && Bridgeable(rows, caseId, intake, files, 0)
      && forall k | 0 <= k < |files| - 1 :: Bridgeable(more, caseId, intake, files[1..], k)
  {
    if Bridgeable(rows, caseId, intake, files, 0)
       && forall k | 0 <= k < |files| - 1 :: Bridgeable(more, caseId, intake, files[1..], k) {
      forall k | 0 <= k < |files| ensures Bridgeable(rows, caseId, intake, files, k) {
        if k > 0 {
          assert Bridgeable(more, caseId, intake, files[1..], k - 1);
        }
      }
    }
    if forall k | 0 <= k < |files| :: Bridgeable(rows, caseId, intake, files, k) {
      forall k | 0 <= k < |files| - 1 ensures Bridgeable(more, caseId, intake, files[1..], k) {
        assert Bridgeable(rows, caseId, intake, files, k + 1);
      }
    }
  }

  lemma BridgedIsRow(rows: seq<Evidence>, caseId: nat, intake: int, f: File)
    ensures (exists e :: e in rows && Bridges(caseId, intake, f, e)) <==> EvidenceRow(caseId, intake, f) in rows
  {
    assert Bridges(caseId, intake, f, EvidenceRow(caseId, intake, f));
  }

  lemma NextBridgeable(rows: seq<Evidence>, caseId: nat, intake: int, files: seq<File>, k: nat)
    requires files != [] && k < |files| - 1
    ensures var e := EvidenceRow(caseId, intake, files[0]);
      Bridgeable(rows, caseId, intake, files, k + 1)
      <==> Bridgeable(if e in rows then rows else rows + [e], caseId, intake, files[1..], k)
  {
    var e, rest := EvidenceRow(caseId, intake, files[0]), files[1..];
    var more := if e in rows then rows else rows + [e];
    BridgedIsRow(rows, caseId, intake, files[k + 1]);
    BridgedIsRow(more, caseId, intake, rest[k]);
    if j :| 0 <= j < k + 1 && files[j].(intact := true) == files[k + 1].(intact := true) {
      assert j > 0 ==> rest[j - 1].(intact := true) == rest[k].(intact := true);
    }
    if j :| 0 <= j < k && rest[j].(intact := true) == rest[k].(intact := true) {
      assert files[j + 1].(intact := true) == files[k + 1].(intact := true);
    }
  }

  /** A merge needs a player's name, its files, and a named club exactly if the report is not the league's. */
  lemma MergesExactly(t: Tables, m: MergeInput)
    requires m.caseId < |t.cases| && m.intake in t.intakes
    ensures Merge(t, m).Ok? <==>
      && Trim(m.player) != ""
      && (m.leagueOrigin ==> m.club == None)
      && (!m.leagueOrigin ==> m.club.Some? && Trim(m.clubName) != "")
      && forall k | 0 <= k < |t.intakes[m.intake].files| ::
        Bridgeable(t.evidence, m.caseId, m.intake, t.intakes[m.intake].files, k)
    ensures Merge(t, m) == Err(IncompleteMerge) <==> Trim(m.player) == ""
    ensures Merge(t, m) == Err(UnmappedClub) <==>
      Trim(m.player) != "" && !m.leagueOrigin && (m.club == None || Trim(m.clubName) == "")
    ensures Merge(t, m) == Err(ConstraintViolation) <==> Trim(m.player) != "" && m.leagueOrigin && m.club.Some?
    ensures Merge(t, m).Err? ==>
      Merge(t, m).error in {IncompleteMerge, UnmappedClub, ConstraintViolation, EvidenceUnavailable}
  {
    AttachesExactly(t.evidence, m.caseId, m.intake, t.intakes[m.intake].files);
  }
}
