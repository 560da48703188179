/**
 * What a merge does to the tables: it only appends, it keeps subjects and parties unique,
 * it leaves the newest resolution naming the merged revision, and repeating it does nothing.
 */
module IntakeMerge {
  import opened Common
  import opened Text
  import opened Statuses
  import opened IntakeTables
  import opened IntakeSteps

  // -------- find-or-append --------

  ghost predicate SubjectsUnique(rows: seq<Subject>) {
    forall i, j | 0 <= i < j < |rows| :: !(rows[i].caseId == rows[j].caseId && rows[i].key == rows[j].key)
  }

  ghost predicate PartiesUnique(rows: seq<Party>) {
    forall i, j | 0 <= i < j < |rows| && rows[i].key != Reporter :: rows[i] != rows[j]
  }

  /** A found subject keeps its id however the table grows; an appended one gets the next id. */
  lemma SubjectIdStable(rows: seq<Subject>, more: seq<Subject>, caseId: nat, key: SubjectKey)
    requires FindSubject(rows, caseId, key) < |rows|
    ensures FindSubject(rows + more, caseId, key) == FindSubject(rows, caseId, key)
  {
    var i, j := FindSubject(rows, caseId, key), FindSubject(rows + more, caseId, key);
    assert (rows + more)[i] == rows[i];
    assert forall k | 0 <= k < i :: (rows + more)[k] == rows[k];
  }

  lemma SubjectAdded(rows: seq<Subject>, row: Subject)
    ensures rows <= AddSubject(rows, row)
    ensures FindSubject(AddSubject(rows, row), row.caseId, row.key) < |AddSubject(rows, row)|
    ensures SubjectsUnique(rows) ==> SubjectsUnique(AddSubject(rows, row))
    ensures forall s | s in AddSubject(rows, row) :: s in rows || s == row
  {
    var more := AddSubject(rows, row);
    if FindSubject(rows, row.caseId, row.key) == |rows| {
      assert more[|rows|] == row;
    }
  }

  lemma PartyAdded(rows: seq<Party>, row: Party)
    ensures rows <= AddParty(rows, row)
    ensures row in AddParty(rows, row)
    ensures FindParty(AddParty(rows, row), row.caseId, row.key) < |AddParty(rows, row)|
    ensures PartiesUnique(rows) ==> PartiesUnique(AddParty(rows, row))
    ensures forall p | p in AddParty(rows, row) :: p in rows || p == row
  {
    var more := AddParty(rows, row);
    var i := FindParty(rows, row.caseId, row.key);
    if i < |rows| {
      assert rows[i] == row;
    } else {
      assert more[|rows|] == row;
    }
  }

  /** Rows already present, with their subject link, are not upserted again. */
  ghost predicate Upserted(t: Tables, m: MergeInput, key: SubjectKey) {
    var id := FindSubject(t.subjects, m.caseId, key);
    id < |t.subjects| && SubjectLink(id, m.caseId, m.intake, m.revision) in t.subjectLinks
  }

  lemma UpsertOne(t: Tables, m: MergeInput, key: SubjectKey)
    ensures var u := UpsertSubject(t, m, key);
      && t.subjects <= u.subjects && t.subjectLinks <= u.subjectLinks
      && Upserted(u, m, key)
      && (forall k | Upserted(t, m, k) :: Upserted(u, m, k))
      && (SubjectsUnique(t.subjects) ==> SubjectsUnique(u.subjects))
      && (forall s | s in u.subjects :: s in t.subjects || s == SubjectRow(m, key))
    ensures Upserted(t, m, key) ==> UpsertSubject(t, m, key) == t
  {
    var u := UpsertSubject(t, m, key);
    SubjectAdded(t.subjects, SubjectRow(m, key));
    forall k | Upserted(t, m, k) ensures Upserted(u, m, k) {
      assert u.subjects == t.subjects + u.subjects[|t.subjects|..];
      SubjectIdStable(t.subjects, u.subjects[|t.subjects|..], m.caseId, k);
    }
  }

  lemma {:induction false} UpsertAll(t: Tables, m: MergeInput, keys: seq<SubjectKey>)
    ensures var u := UpsertSubjects(t, m, keys);
      && t.subjects <= u.subjects && t.subjectLinks <= u.subjectLinks
      && (forall k | k in keys || Upserted(t, m, k) :: Upserted(u, m, k))
      && (SubjectsUnique(t.subjects) ==> SubjectsUnique(u.subjects))
      && (forall s | s in u.subjects :: s in t.subjects || exists k | k in keys :: s == SubjectRow(m, k))
    ensures (forall k | k in keys :: Upserted(t, m, k)) ==> UpsertSubjects(t, m, keys) == t
    decreases |keys|
  {
    if keys != [] {
      UpsertOne(t, m, keys[0]);
      UpsertAll(UpsertSubject(t, m, keys[0]), m, keys[1..]);
    }
  }

  // -------- parties --------

  ghost predicate PartiesMerged(t: Tables, m: MergeInput)
    requires m.caseId < |t.cases|
  {
    && Party(m.caseId, OffendingTeam(m.team)) in t.parties
    && (m.leagueOrigin ==>
      && Party(m.caseId, League) in t.parties
      && (m.primary ==> t.cases[m.caseId].reportingClub.None?))
    && (!m.leagueOrigin && m.club.Some? ==>
        && Party(m.caseId, ReportingClub(m.club.value)) in t.parties
        && HasProvenance(t.provenance, Provenance(m.caseId, m.club.value, m.intake, 0))
        && t.cases[m.caseId].reportingClub.Some?
        && (m.primary ==> t.cases[m.caseId].reportingClub == m.club))
  }

  lemma PartyPresent(rows: seq<Party>, row: Party)
    requires row in rows
    ensures AddParty(rows, row) == rows
  {
    var i :| 0 <= i < |rows| && rows[i] == row;
    assert FindParty(rows, row.caseId, row.key) <= i;
  }

  /** A case's scalar reporting club, when set, has its reporting-club party. */
  ghost predicate ReporterRetained(t: Tables) {
    forall c | 0 <= c < |t.cases| && t.cases[c].reportingClub.Some? ::
      Party(c, ReportingClub(t.cases[c].reportingClub.value)) in t.parties
  }

  /** Everywhere but at one case. */
  ghost predicate ReporterRetainedBut(t: Tables, caseId: nat) {
    forall c | 0 <= c < |t.cases| && c != caseId && t.cases[c].reportingClub.Some? ::
      Party(c, ReportingClub(t.cases[c].reportingClub.value)) in t.parties
  }

  /** Only the case's scalar reporting club is overwritten. */
  ghost predicate SameCasesBut(t: Tables, u: Tables, caseId: nat) {
    && |u.cases| == |t.cases|
    && forall c | 0 <= c < |t.cases| ::
        u.cases[c] == if c == caseId then t.cases[c].(reportingClub := u.cases[c].reportingClub) else t.cases[c]
  }

  /** The case's reporting club is the one it had, the report's own, or none. */
  ghost predicate ScalarFrom(t: Tables, v: Tables, m: MergeInput)
    requires m.caseId < |t.cases| == |v.cases|
  {
    var club := v.cases[m.caseId].reportingClub;
    club.None? || club == t.cases[m.caseId].reportingClub || (!m.leagueOrigin && club == m.club)
  }

  lemma ReporterKept(t: Tables, m: MergeInput, v: Tables)
    requires m.caseId < |t.cases| && SameCasesBut(t, v, m.caseId) && t.parties <= v.parties
    requires PartiesMerged(v, m) && ScalarFrom(t, v, m) && (m.leagueOrigin <==> m.club.None?)
    ensures ReporterRetained(t) ==> ReporterRetained(v)
    ensures m.primary && ReporterRetainedBut(t, m.caseId) ==> ReporterRetained(v)
  {
    assert forall p | p in t.parties :: p in v.parties;
  }

  lemma PartiesStep(t: Tables, m: MergeInput)
    requires m.caseId < |t.cases| && (m.leagueOrigin <==> m.club.None?)
    ensures var u := MergeParties(t, m);
      && t.parties <= u.parties && t.provenance <= u.provenance
      && SameCasesBut(t, u, m.caseId)
      && PartiesMerged(u, m)
      && (PartiesUnique(t.parties) ==> PartiesUnique(u.parties))
      && (forall p | p in u.parties :: p in t.parties || p.caseId == m.caseId)
    ensures ReporterRetained(t) ==> ReporterRetained(MergeParties(t, m))
    ensures m.primary && ReporterRetainedBut(t, m.caseId) ==> ReporterRetained(MergeParties(t, m))
  {
    var offender := Party(m.caseId, OffendingTeam(m.team));
    var one := AddParty(t.parties, offender);
    PartyAdded(t.parties, offender);
    var row := Party(m.caseId, if m.leagueOrigin then League else ReportingClub(m.club.value));
    PartyAdded(one, row);
    var v := MergeParties(t, m);
    assert v.parties == AddParty(one, row);
    if !m.leagueOrigin {
      var party := FindParty(v.parties, m.caseId, ReportingClub(m.club.value));
      ProvenanceAdded(t.provenance, Provenance(m.caseId, m.club.value, m.intake, party));
    }
    ReporterKept(t, m, v);
  }

  lemma ProvenanceAdded(rows: seq<Provenance>, row: Provenance)
    ensures rows <= AddProvenance(rows, row)
    ensures HasProvenance(AddProvenance(rows, row), row)
  {
    if !HasProvenance(rows, row) {
      assert (rows + [row])[|rows|] == row;
    }
  }

  lemma PartiesIdempotent(t: Tables, m: MergeInput)
    requires m.caseId < |t.cases| && (m.leagueOrigin <==> m.club.None?)
    requires PartiesMerged(t, m)
    ensures MergeParties(t, m) == t
  {
    PartyPresent(t.parties, Party(m.caseId, OffendingTeam(m.team)));
    PartyPresent(t.parties, Party(m.caseId, if m.leagueOrigin then League else ReportingClub(m.club.value)));
    var v := MergeParties(t, m);
    assert v.cases == t.cases;
  }

  // -------- resolutions --------

  lemma {:induction false} NewestAppended(
    rows: seq<Resolution>, r: Resolution, caseId: nat, intake: int, relationship: Relationship)
    ensures Newest(rows + [r], r.caseId, r.intake) == Some(r)
    ensures NewestAs(rows + [r], r.caseId, r.intake, r.relationship) == Some(r)
    ensures (caseId, intake) != (r.caseId, r.intake) ==>
      && Newest(rows + [r], caseId, intake) == Newest(rows, caseId, intake)
      && NewestAs(rows + [r], caseId, intake, relationship) == NewestAs(rows, caseId, intake, relationship)
  {
    assert (rows + [r])[..|rows|] == rows;
  }

  /** After recording, the newest resolution is the one just made; no other pair's changes. */
  lemma Recorded(t: Tables, r: Resolution)
    ensures var u := Record(t, r);
      && t.resolutions <= u.resolutions
      && Newest(u.resolutions, r.caseId, r.intake) == Some(r)
      && (forall x | x in u.resolutions :: x in t.resolutions || x == r)
      && (forall c: nat, i | (c, i) != (r.caseId, r.intake) ::
        Newest(u.resolutions, c, i) == Newest(t.resolutions, c, i))
  {
    forall c: nat, i | (c, i) != (r.caseId, r.intake)
      ensures Newest(Record(t, r).resolutions, c, i) == Newest(t.resolutions, c, i)
    {
      NewestAppended(t.resolutions, r, c, i, Primary);
    }
    NewestAppended(t.resolutions, r, r.caseId, r.intake, Primary);
  }

  // -------- evidence --------

  lemma {:induction false} AttachAppends(rows: seq<Evidence>, caseId: nat, intake: int, files: seq<File>)
    requires Attach(rows, caseId, intake, files).Ok?
    ensures var out := Attach(rows, caseId, intake, files).value;
      && rows <= out
      && (forall f | f in files :: EvidenceRow(caseId, intake, f) in out)
      && (forall e | e in out :: e in rows || exists f | f in files :: e == EvidenceRow(caseId, intake, f))
    ensures (forall i, j | 0 <= i < j < |rows| :: rows[i] != rows[j]) ==>
      var out := Attach(rows, caseId, intake, files).value; forall i, j | 0 <= i < j < |out| :: out[i] != out[j]
    decreases |files|
  {
    if files != [] {
      var e := EvidenceRow(caseId, intake, files[0]);
      AttachAppends(if e in rows then rows else rows + [e], caseId, intake, files[1..]);
      if e !in rows { assert (rows + [e])[|rows|] == e; }
    }
  }

  /** Files bridged once are never inspected again, even if their stored bytes are damaged later. */
  lemma {:induction false} AttachAgain(rows: seq<Evidence>, caseId: nat, intake: int, files: seq<File>)
    requires forall f | f in files :: EvidenceRow(caseId, intake, f) in rows
    ensures Attach(rows, caseId, intake, files) == Ok(rows)
    decreases |files|
  {
    if files != [] {
      assert files[0] in files;
      AttachAgain(rows, caseId, intake, files[1..]);
    }
  }

  // -------- the whole merge --------

  ghost predicate Appends(t: Tables, u: Tables) {
    && t.subjects <= u.subjects && t.subjectLinks <= u.subjectLinks
    && t.parties <= u.parties && t.provenance <= u.provenance
    && t.resolutions <= u.resolutions && t.evidence <= u.evidence
    && t.links <= u.links && |t.cases| <= |u.cases|
  }

  /** The rows after a successful merge, named in stages. */
  lemma MergeStages(t: Tables, m: MergeInput)
    requires m.caseId < |t.cases| && m.intake in t.intakes
    requires Merge(t, m).Ok?
    ensures m.leagueOrigin <==> m.club.None?
    ensures var u := Merge(t, m).value;
      var s := UpsertSubjects(t, m, SubjectKeys(m));
      var p := MergeParties(s, m);
      && u.subjects == s.subjects && u.subjectLinks == s.subjectLinks
      && u.parties == p.parties && u.provenance == p.provenance && u.cases == p.cases
      && u.resolutions == Record(p, MergeResolution(p, m)).resolutions
      && MergeResolution(p, m) == MergeResolution(u, m)
      && Attach(t.evidence, m.caseId, m.intake, t.intakes[m.intake].files) == Ok(u.evidence)
  {
  }

  /** From `t` to `u`, only rows of one case were appended, and only its scalar reporting club overwritten. */
  ghost predicate Effect(t: Tables, m: MergeInput, u: Tables) {
    && Appends(t, u) && SameCasesBut(t, u, m.caseId)
    && u.intakes == t.intakes && u.links == t.links && u.teams == t.teams && u.clubs == t.clubs
    && Newest(u.resolutions, m.caseId, m.intake) == Some(MergeResolution(u, m))
    && (forall x | x in u.resolutions :: x in t.resolutions || x == MergeResolution(u, m))
    && (forall c: nat, i | (c, i) != (m.caseId, m.intake) :: Newest(u.resolutions, c, i) == Newest(t.resolutions, c, i))
    && (forall p | p in u.parties :: p in t.parties || p.caseId == m.caseId)
    && (forall s | s in u.subjects :: s in t.subjects || (s.caseId == m.caseId && s.team in {None, Some(m.team)}))
  }

  /**
   * A merge deletes nothing, overwrites nothing but one case's scalar reporting club, adds only
   * rows of its own case, and leaves the pair's newest resolution naming the merged revision.
   */
  lemma MergeEffect(t: Tables, m: MergeInput)
    requires m.caseId < |t.cases| && m.intake in t.intakes
    requires Merge(t, m).Ok?
    ensures Effect(t, m, Merge(t, m).value)
  {
    MergeStages(t, m);
    var s := UpsertSubjects(t, m, SubjectKeys(m));
    var p := MergeParties(s, m);
    UpsertAll(t, m, SubjectKeys(m));
    PartiesStep(s, m);
    Recorded(p, MergeResolution(p, m));
    AttachAppends(t.evidence, m.caseId, m.intake, t.intakes[m.intake].files);
  }

  lemma MergeKeepsUnique(t: Tables, m: MergeInput)
    requires m.caseId < |t.cases| && m.intake in t.intakes
    requires Merge(t, m).Ok?
    ensures SubjectsUnique(t.subjects) ==> SubjectsUnique(Merge(t, m).value.subjects)
    ensures PartiesUnique(t.parties) ==> PartiesUnique(Merge(t, m).value.parties)
    ensures ReporterRetained(t) ==> ReporterRetained(Merge(t, m).value)
    ensures m.primary && ReporterRetainedBut(t, m.caseId) ==> ReporterRetained(Merge(t, m).value)
  {
    MergeStages(t, m);
    UpsertAll(t, m, SubjectKeys(m));
    PartiesStep(UpsertSubjects(t, m, SubjectKeys(m)), m);
  }

  /** The tables already hold everything that a merge would add. */
  ghost predicate Merged(t: Tables, m: MergeInput)
    requires m.caseId < |t.cases| && m.intake in t.intakes
  {
    && (forall k | k in SubjectKeys(m) :: Upserted(t, m, k))
    && PartiesMerged(t, m)
    && Newest(t.resolutions, m.caseId, m.intake) == Some(MergeResolution(t, m))
    && (forall f | f in t.intakes[m.intake].files :: EvidenceRow(m.caseId, m.intake, f) in t.evidence)
  }

  lemma MergeCompletes(t: Tables, m: MergeInput)
    requires m.caseId < |t.cases| && m.intake in t.intakes
    requires Merge(t, m).Ok?
    ensures Merged(Merge(t, m).value, m)
  {
    var u := Merge(t, m).value;
    MergeEffect(t, m);
    MergeStages(t, m);
    var s := UpsertSubjects(t, m, SubjectKeys(m));
    UpsertAll(t, m, SubjectKeys(m));
    PartiesStep(s, m);
    AttachAppends(t.evidence, m.caseId, m.intake, t.intakes[m.intake].files);
    forall k | k in SubjectKeys(m) ensures Upserted(u, m, k) {
      assert Upserted(s, m, k);
    }
  }

  lemma MergedIsFixed(t: Tables, m: MergeInput)
    requires m.caseId < |t.cases| && m.intake in t.intakes && (m.leagueOrigin <==> m.club.None?)
    requires Merged(t, m)
    ensures MergeRows(t, m) == t
    ensures Attach(t.evidence, m.caseId, m.intake, t.intakes[m.intake].files) == Ok(t.evidence)
  {
    UpsertAll(t, m, SubjectKeys(m));
    PartiesIdempotent(t, m);
    AttachAgain(t.evidence, m.caseId, m.intake, t.intakes[m.intake].files);
  }

  /** Merging the same revision into the same case again changes no table at all. */
  lemma MergeIdempotent(t: Tables, m: MergeInput)
    requires m.caseId < |t.cases| && m.intake in t.intakes
    requires Merge(t, m).Ok?
    ensures Merge(Merge(t, m).value, m) == Merge(t, m)
  {
    MergeCompletes(t, m);
    MergeStages(t, m);
    MergedIsFixed(Merge(t, m).value, m);
  }
}
