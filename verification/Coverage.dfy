/**
 * Which fixtures of a week still lack a captain's report: the counting query of the
 * compliance page and the weekly card report, the listing query behind their buttons,
 * and the rows of the missing-submissions report, with the steps that change the answer.
 */
module Coverage {
  import opened Common
  import opened Text
  import opened Sets

  datatype Team = Team(id: int, pcId: Option<string>, active: bool)

  /** A day is a day number counted from a Sunday; the zero time is day 0. */
  datatype Fixture = Fixture(matchId: int, date: int, home: Option<string>, away: Option<string>, bye: bool)

  /** A legacy submission names no match. */
  datatype Submission = Submission(teamId: int, weekId: int, date: int, matchId: Option<int>)

  datatype Exemption = Exemption(teamId: int, weekId: int, date: int, matchId: Option<int>, reason: string)

  datatype Week = Week(id: int, first: int, last: int)

  datatype Db = Db(fixtures: map<int, Fixture>, submissions: seq<Submission>, exemptions: seq<Exemption>)

  /** play_cricket_match_id is unique. */
  ghost predicate MatchIdsUnique(db: Db) {
    forall f, g | f in db.fixtures && g in db.fixtures && db.fixtures[f].matchId == db.fixtures[g].matchId :: f == g
  }

  predicate SameTeam(side: Option<string>, team: Team) {
    side.Some? && team.pcId.Some? && SqlTrim(side.value) == SqlTrim(team.pcId.value)
  }

  predicate Plays(f: Fixture, team: Team) {
    SameTeam(f.home, team) || SameTeam(f.away, team)
  }

  predicate InWeek(date: int, w: Week) {
    w.first <= date <= w.last
  }

  predicate Friday(date: int) {
    date % 7 == 5
  }

  /** The fixtures of the window in which a team owes a report. */
  function Candidates(db: Db, team: Team, w: Week): set<int> {
    set f | f in db.fixtures && Plays(db.fixtures[f], team) && InWeek(db.fixtures[f].date, w)
            && !Friday(db.fixtures[f].date) && !db.fixtures[f].bye
  }

  /** Same-day fixtures that come before `f` in match-id order. */
  function Earlier(db: Db, among: set<int>, f: int): set<int>
    requires f in db.fixtures && forall g | g in among :: g in db.fixtures
  {
    set g | g in among && db.fixtures[g].date == db.fixtures[f].date && db.fixtures[g].matchId < db.fixtures[f].matchId
  }

  function Ordinal(db: Db, among: set<int>, f: int): nat
    requires f in db.fixtures && forall g | g in among :: g in db.fixtures
  {
    1 + |Earlier(db, among, f)|
  }

  // -------- the counting query --------

  /** A team without a Play-Cricket id, or with an empty one, is expected nowhere. */
  function Expected(db: Db, team: Team, w: Week): set<int> {
    if team.pcId in {None, Some("")} then {} else Candidates(db, team, w)
  }

  function LegacyOfWeek(db: Db, teamId: int, weekIds: set<int>, date: int): set<int> {
    set i | 0 <= i < |db.submissions| && db.submissions[i].teamId == teamId && db.submissions[i].weekId in weekIds
            && db.submissions[i].matchId.None? && db.submissions[i].date == date
  }

  predicate SubmittedInWeek(db: Db, teamId: int, weekId: int, matchId: int) {
    exists i | 0 <= i < |db.submissions| ::
      db.submissions[i].weekId == weekId && db.submissions[i].teamId == teamId
        && db.submissions[i].matchId == Some(matchId)
  }

  predicate ExemptInWeek(db: Db, teamId: int, weekId: int, f: Fixture) {
    exists i | 0 <= i < |db.exemptions| ::
      db.exemptions[i].weekId == weekId && db.exemptions[i].teamId == teamId
      && db.exemptions[i].date == f.date && db.exemptions[i].matchId in {None, Some(f.matchId)}
  }

  predicate Covered(db: Db, team: Team, w: Week, f: int)
    requires f in db.fixtures
  {
    SubmittedInWeek(db, team.id, w.id, db.fixtures[f].matchId)
    || Ordinal(db, Expected(db, team, w), f) <= |LegacyOfWeek(db, team.id, {w.id}, db.fixtures[f].date)|
    || ExemptInWeek(db, team.id, w.id, db.fixtures[f])
  }

  function FixtureCount(db: Db, team: Team, w: Week): nat {
    |Expected(db, team, w)|
  }

  function SubmitCount(db: Db, team: Team, w: Week): nat {
    |set f | f in Expected(db, team, w) && Covered(db, team, w, f)|
  }

  // -------- the listing query --------

  function Legacy(db: Db, teamId: int, date: int): set<int> {
    set i | 0 <= i < |db.submissions| && db.submissions[i].teamId == teamId
            && db.submissions[i].matchId.None? && db.submissions[i].date == date
  }

  predicate Submitted(db: Db, teamId: int, matchId: int) {
    exists i | 0 <= i < |db.submissions| ::
      db.submissions[i].teamId == teamId && db.submissions[i].matchId == Some(matchId)
  }

  predicate Exempt(db: Db, teamId: int, f: Fixture) {
    exists i | 0 <= i < |db.exemptions| ::
      db.exemptions[i].teamId == teamId && db.exemptions[i].date == f.date
      && db.exemptions[i].matchId in {None, Some(f.matchId)}
  }

  predicate Missing(db: Db, team: Team, w: Week, f: int)
    requires f in db.fixtures
  {
    !Submitted(db, team.id, db.fixtures[f].matchId)
    && Ordinal(db, Candidates(db, team, w), f) > |Legacy(db, team.id, db.fixtures[f].date)|
    && !Exempt(db, team.id, db.fixtures[f])
  }

  function Outstanding(db: Db, team: Team, w: Week): set<int> {
    set f | f in Candidates(db, team, w) && Missing(db, team, w, f)
  }

  // -------- the two queries agree --------

  /** Submissions and exemptions of the window's matches carry the window's week. */
  ghost predicate WeekTagged(db: Db, w: Week) {
    && (forall i | 0 <= i < |db.submissions| && db.submissions[i].matchId.None? && InWeek(db.submissions[i].date, w) ::
          db.submissions[i].weekId == w.id)
    && (forall i, f | 0 <= i < |db.submissions| && f in db.fixtures && InWeek(db.fixtures[f].date, w)
                      && db.submissions[i].matchId == Some(db.fixtures[f].matchId) ::
          db.submissions[i].weekId == w.id)
    && (forall i | 0 <= i < |db.exemptions| && InWeek(db.exemptions[i].date, w) :: db.exemptions[i].weekId == w.id)
  }

  lemma CoveredIsNotMissing(db: Db, team: Team, w: Week, f: int)
    requires team.pcId != Some("") && f in Candidates(db, team, w)
    ensures Covered(db, team, w, f) ==> !Missing(db, team, w, f)
    ensures WeekTagged(db, w) ==> (Covered(db, team, w, f) <==> !Missing(db, team, w, f))
  {
    var date := db.fixtures[f].date;
    SubsetSize(LegacyOfWeek(db, team.id, {w.id}, date), Legacy(db, team.id, date));
    if WeekTagged(db, w) {
      assert LegacyOfWeek(db, team.id, {w.id}, date) == Legacy(db, team.id, date);
    }
  }

  /**
   * What the counts leave over is what the listing names. Without the week tags the counts can only
   * report more: a row filed under another week hides a fixture from the listing alone.
   */
  lemma CountsMatchListing(db: Db, team: Team, w: Week)
    requires team.pcId != Some("")
    ensures FixtureCount(db, team, w) - SubmitCount(db, team, w) >= |Outstanding(db, team, w)|
    ensures WeekTagged(db, w) ==> FixtureCount(db, team, w) - SubmitCount(db, team, w) == |Outstanding(db, team, w)|
  {
    var expected := Expected(db, team, w);
    var covered := set f | f in expected && Covered(db, team, w, f);
    forall f | f in Candidates(db, team, w)
      ensures Covered(db, team, w, f) ==> !Missing(db, team, w, f)
      ensures WeekTagged(db, w) ==> (Covered(db, team, w, f) <==> !Missing(db, team, w, f))
    {
      CoveredIsNotMissing(db, team, w, f);
    }
    if team.pcId.None? {
      assert forall f | f in db.fixtures :: !Plays(db.fixtures[f], team);
    }
    assert expected == Candidates(db, team, w);
    assert |expected - covered| == |expected| - |covered| by {
      assert expected == (expected - covered) + covered;
    }
    SubsetSize(Outstanding(db, team, w), expected - covered);
    if WeekTagged(db, w) {
      assert Outstanding(db, team, w) == expected - covered;
    }
  }

  lemma SubmitWithinFixtures(db: Db, team: Team, w: Week)
    ensures SubmitCount(db, team, w) <= FixtureCount(db, team, w)
  {
    SubsetSize((set f | f in Expected(db, team, w) && Covered(db, team, w, f)), Expected(db, team, w));
  }

  /** A side whose team id is there but empty. */
  predicate BlankSide(side: Option<string>) {
    side.Some? && SqlTrim(side.value) == ""
  }

  /** A fixture of the window with a blank side that nothing filed for the team accounts for. */
  predicate BlankAndOpen(db: Db, team: Team, w: Week, f: int)
    requires f in db.fixtures
  {
    var fixture := db.fixtures[f];
    && (BlankSide(fixture.home) || BlankSide(fixture.away))
    && InWeek(fixture.date, w) && !Friday(fixture.date) && !fixture.bye
    && !Submitted(db, team.id, fixture.matchId) && !Exempt(db, team.id, fixture)
    && Ordinal(db, Candidates(db, team, w), f) > |Legacy(db, team.id, fixture.date)|
  }

  /**
   * Under the week tags the two queries agree if and only if the team's id is not the empty text, or no
   * fixture with a blank side is open. The tables admit an empty id; no handler writes one.
   */
  lemma QueriesAgreeExactly(db: Db, team: Team, w: Week)
    requires WeekTagged(db, w)
    ensures FixtureCount(db, team, w) - SubmitCount(db, team, w) == |Outstanding(db, team, w)|
      <==> (team.pcId == Some("") ==> forall f | f in db.fixtures :: !BlankAndOpen(db, team, w, f))
  {
    if team.pcId == Some("") {
      assert forall f | f in db.fixtures :: BlankAndOpen(db, team, w, f) <==> f in Outstanding(db, team, w);
      if |Outstanding(db, team, w)| == 0 {
        assert Outstanding(db, team, w) == {};
      }
    } else {
      CountsMatchListing(db, team, w);
    }
  }

  /** The queries do differ: an empty id, and a fixture with an empty side for which nothing was filed. */
  lemma EmptyTeamIdIsListedUncounted(db: Db, team: Team, w: Week, f: int)
    requires team.pcId == Some("") && f in db.fixtures
    requires db.fixtures[f].home == Some("") && InWeek(db.fixtures[f].date, w)
    requires !Friday(db.fixtures[f].date) && !db.fixtures[f].bye
    requires db.submissions == [] && db.exemptions == []
    ensures FixtureCount(db, team, w) == SubmitCount(db, team, w) == 0
    ensures f in Outstanding(db, team, w)
  {
    assert Legacy(db, team.id, db.fixtures[f].date) == {};
  }

  // -------- the steps that change the answer --------

  /** Precedes on the same day, in the order in which legacy submissions are consumed. */
  predicate Precedes(a: Fixture, b: Fixture) {
    a.date == b.date && a.matchId < b.matchId
  }

  function MarkBye(db: Db, id: int): Db {
    if id > 0 && id in db.fixtures then db.(fixtures := db.fixtures[id := db.fixtures[id].(bye := true)]) else db
  }

  lemma ByeRenumbers(db: Db, team: Team, w: Week, id: int, f: int)
    requires id > 0 && id in db.fixtures && f in Candidates(db, team, w) && f != id
    ensures var after := MarkBye(db, id);
      && f in Candidates(after, team, w)
      && Ordinal(after, Candidates(after, team, w), f) == Ordinal(db, Candidates(db, team, w), f)
           - if id in Candidates(db, team, w) && Precedes(db.fixtures[id], db.fixtures[f]) then 1 else 0
  {
    var after := MarkBye(db, id);
    assert Candidates(after, team, w) == Candidates(db, team, w) - {id};
    assert Earlier(after, Candidates(after, team, w), f) == Earlier(db, Candidates(db, team, w), f) - {id};
  }

  /**
   * Marking a bye removes that fixture and, because later fixtures of the day move up one place, also
   * the one that now falls to the last legacy submission. It never adds one.
   */
  lemma ByeEffect(db: Db, team: Team, w: Week, id: int)
    requires id > 0 && id in db.fixtures
    ensures Outstanding(MarkBye(db, id), team, w) <= Outstanding(db, team, w) - {id}
    ensures forall f | f in Outstanding(db, team, w) && f != id ::
      f !in Outstanding(MarkBye(db, id), team, w) <==>
      && id in Candidates(db, team, w) && Precedes(db.fixtures[id], db.fixtures[f])
      && Ordinal(db, Candidates(db, team, w), f) == |Legacy(db, team.id, db.fixtures[f].date)| + 1
  {
    var after := MarkBye(db, id);
    assert Candidates(after, team, w) == Candidates(db, team, w) - {id};
    forall f | f in Candidates(db, team, w) && f != id
      ensures f in Outstanding(after, team, w) <==>
        && f in Outstanding(db, team, w)
        && !(id in Candidates(db, team, w) && Precedes(db.fixtures[id], db.fixtures[f])
             && Ordinal(db, Candidates(db, team, w), f) == |Legacy(db, team.id, db.fixtures[f].date)| + 1)
    {
      ByeRenumbers(db, team, w, id, f);
      assert Legacy(after, team.id, db.fixtures[f].date) == Legacy(db, team.id, db.fixtures[f].date);
    }
  }

  function AddSubmission(db: Db, s: Submission): Db {
    db.(submissions := db.submissions + [s])
  }

  /** A further report never makes a fixture outstanding, whatever team, day or match it names. */
  lemma SubmissionNeverEnlarges(db: Db, s: Submission, team: Team, w: Week)
    ensures Outstanding(AddSubmission(db, s), team, w) <= Outstanding(db, team, w)
  {
    var after := AddSubmission(db, s);
    assert forall i | 0 <= i < |db.submissions| :: after.submissions[i] == db.submissions[i];
    assert Candidates(after, team, w) == Candidates(db, team, w);
    forall f | f in Outstanding(after, team, w) ensures f in Outstanding(db, team, w) {
      assert Earlier(after, Candidates(after, team, w), f) == Earlier(db, Candidates(db, team, w), f);
      SubsetSize(Legacy(db, team.id, db.fixtures[f].date), Legacy(after, team.id, db.fixtures[f].date));
    }
  }

  // -------- accepting a missing report --------

  datatype ResolveRequest = ResolveRequest(fixture: int, team: Team, week: Week, reason: string)

  function DefaultReason(reason: string): string {
    if Trim(reason) == "" then "Admin accepted" else Trim(reason)
  }

  predicate Resolvable(db: Db, q: ResolveRequest) {
    q.fixture > 0 && q.fixture in db.fixtures && InWeek(db.fixtures[q.fixture].date, q.week)
    && Plays(db.fixtures[q.fixture], q.team)
  }

  function FindExemption(rows: seq<Exemption>, teamId: int, matchId: int): (i: nat)
    ensures i <= |rows|
    ensures i < |rows| ==> rows[i].teamId == teamId && rows[i].matchId == Some(matchId)
    ensures forall j | 0 <= j < i :: !(rows[j].teamId == teamId && rows[j].matchId == Some(matchId))
  {
    if rows == [] then 0
    else if rows[0].teamId == teamId && rows[0].matchId == Some(matchId) then 0
    else 1 + FindExemption(rows[1..], teamId, matchId)
  }

  /** An exemption of the same team and match keeps its week and its day; only the reason is renewed. */
  function MarkResolved(db: Db, q: ResolveRequest): Db {
    if !Resolvable(db, q) then db else
    var f := db.fixtures[q.fixture];
    var i := FindExemption(db.exemptions, q.team.id, f.matchId);
    if i < |db.exemptions| then
      db.(exemptions := db.exemptions[i := db.exemptions[i].(reason := DefaultReason(q.reason))])
    else
      db.(exemptions := db.exemptions +
        [Exemption(q.team.id, q.week.id, f.date, Some(f.matchId), DefaultReason(q.reason))])
  }

  lemma ExemptAfter(db: Db, q: ResolveRequest, team: Team, g: Fixture)
    requires Resolvable(db, q)
    ensures var f := db.fixtures[q.fixture];
      Exempt(MarkResolved(db, q), team.id, g) <==>
      || Exempt(db, team.id, g)
      || (&& FindExemption(db.exemptions, q.team.id, f.matchId) == |db.exemptions|
          && team.id == q.team.id && g.date == f.date && g.matchId == f.matchId)
  {
    var f := db.fixtures[q.fixture];
    var after := MarkResolved(db, q);
    var i := FindExemption(db.exemptions, q.team.id, f.matchId);
    if i == |db.exemptions| {
      assert after.exemptions[i] == Exemption(q.team.id, q.week.id, f.date, Some(f.matchId), DefaultReason(q.reason));
      assert forall j | 0 <= j < i :: after.exemptions[j] == db.exemptions[j];
    } else {
      assert forall j | 0 <= j < |db.exemptions| ::
        after.exemptions[j] == db.exemptions[j].(reason := after.exemptions[j].reason);
    }
  }

  /**
   * Accepting an outstanding fixture removes exactly that fixture if and only if the team has no
   * exemption for the match yet; an exemption left over from another day swallows the new one.
   */
  lemma ResolveEffect(db: Db, q: ResolveRequest)
    requires MatchIdsUnique(db) && Resolvable(db, q) && q.fixture in Outstanding(db, q.team, q.week)
    ensures var f := db.fixtures[q.fixture];
      Outstanding(MarkResolved(db, q), q.team, q.week) ==
      if FindExemption(db.exemptions, q.team.id, f.matchId) == |db.exemptions|
      then Outstanding(db, q.team, q.week) - {q.fixture} else Outstanding(db, q.team, q.week)
  {
    var f, after := db.fixtures[q.fixture], MarkResolved(db, q);
    assert Candidates(after, q.team, q.week) == Candidates(db, q.team, q.week);
    forall g | g in Candidates(db, q.team, q.week)
      ensures Missing(after, q.team, q.week, g) <==>
        && Missing(db, q.team, q.week, g)
        && !(g == q.fixture && FindExemption(db.exemptions, q.team.id, f.matchId) == |db.exemptions|)
    {
      ExemptAfter(db, q, q.team, db.fixtures[g]);
      assert Earlier(after, Candidates(after, q.team, q.week), g) == Earlier(db, Candidates(db, q.team, q.week), g);
      assert Legacy(after, q.team.id, db.fixtures[g].date) == Legacy(db, q.team.id, db.fixtures[g].date);
    }
  }

  /** A match accepted for one day and then moved to another: accepting it again changes nothing. */
  lemma MovedMatchCannotBeAccepted(team: Team, w: Week, matchId: int, day: int, before: int)
    requires team.pcId.Some? && InWeek(day, w) && !Friday(day) && before != day
    ensures var db := Db(
        map[1 := Fixture(matchId, day, team.pcId, None, false)], [],
        [Exemption(team.id, w.id, before, Some(matchId), "")]);
      1 in Outstanding(db, team, w) && 1 in Outstanding(MarkResolved(db, ResolveRequest(1, team, w, "")), team, w)
  {
    var db := Db(
      map[1 := Fixture(matchId, day, team.pcId, None, false)], [],
      [Exemption(team.id, w.id, before, Some(matchId), "")]);
    assert Legacy(db, team.id, day) == {};
    assert FindExemption(db.exemptions, team.id, matchId) == 0;
    ResolveEffect(db, ResolveRequest(1, team, w, ""));
  }

  /** None of these fixtures has been moved since an exemption of the team for it was recorded. */
  ghost predicate DatesFixed(db: Db, teamId: int, fs: set<int>) {
    forall i, f | 0 <= i < |db.exemptions| && f in fs && f in db.fixtures && db.exemptions[i].teamId == teamId
                  && db.exemptions[i].matchId == Some(db.fixtures[f].matchId) ::
      db.exemptions[i].date == db.fixtures[f].date
  }

  lemma RecordedMeansExempt(db: Db, teamId: int, f: int)
    requires DatesFixed(db, teamId, {f}) && f in db.fixtures
    ensures FindExemption(db.exemptions, teamId, db.fixtures[f].matchId) < |db.exemptions| ==>
      Exempt(db, teamId, db.fixtures[f])
  {
  }

  lemma FixedDatesResolve(db: Db, q: ResolveRequest)
    requires DatesFixed(db, q.team.id, {q.fixture}) && MatchIdsUnique(db)
    requires Resolvable(db, q) && q.fixture in Outstanding(db, q.team, q.week)
    ensures Outstanding(MarkResolved(db, q), q.team, q.week) == Outstanding(db, q.team, q.week) - {q.fixture}
    ensures |Outstanding(MarkResolved(db, q), q.team, q.week)| == |Outstanding(db, q.team, q.week)| - 1
  {
    RecordedMeansExempt(db, q.team.id, q.fixture);
    ResolveEffect(db, q);
  }

  function ResolveAll(db: Db, team: Team, w: Week, fs: seq<int>): Db
    decreases |fs|
  {
    if fs == [] then db else ResolveAll(MarkResolved(db, ResolveRequest(fs[0], team, w, "")), team, w, fs[1..])
  }

  /** The fixtures whose match the team has an exemption for, whatever day that names. */
  ghost function Swallowed(db: Db, teamId: int, fs: set<int>): set<int> {
    set f | f in fs && f in db.fixtures
      && FindExemption(db.exemptions, teamId, db.fixtures[f].matchId) < |db.exemptions|
  }

  predicate Exempted(rows: seq<Exemption>, teamId: int, matchId: int) {
    exists e | e in rows :: e.teamId == teamId && e.matchId == Some(matchId)
  }

  lemma FoundExempted(rows: seq<Exemption>, teamId: int, matchId: int)
    ensures FindExemption(rows, teamId, matchId) < |rows| <==> Exempted(rows, teamId, matchId)
  {
    var i := FindExemption(rows, teamId, matchId);
    if i < |rows| {
      assert rows[i] in rows;
    }
  }

  /** Accepting one fixture leaves open whether another match has an exemption. */
  lemma OthersExempted(db: Db, q: ResolveRequest, matchId: int)
    requires q.fixture in db.fixtures && db.fixtures[q.fixture].matchId != matchId
    ensures Exempted(MarkResolved(db, q).exemptions, q.team.id, matchId) <==>
      Exempted(db.exemptions, q.team.id, matchId)
  {
    var rows, after := db.exemptions, MarkResolved(db, q).exemptions;
    if Resolvable(db, q) {
      var i := FindExemption(rows, q.team.id, db.fixtures[q.fixture].matchId);
      assert forall j | 0 <= j < |rows| :: after[j].teamId == rows[j].teamId && after[j].matchId == rows[j].matchId;
      assert i == |rows| ==> after == rows + [after[|rows|]];
      if e :| e in rows && e.teamId == q.team.id && e.matchId == Some(matchId) {
        var j :| 0 <= j < |rows| && rows[j] == e;
        assert after[j] in after;
      }
      if e :| e in after && e.teamId == q.team.id && e.matchId == Some(matchId) {
        var j :| 0 <= j < |after| && after[j] == e;
        assert j < |rows| && rows[j] in rows;
      }
    }
  }

  lemma OthersSwallowed(db: Db, q: ResolveRequest, fs: set<int>)
    requires MatchIdsUnique(db) && q.fixture in db.fixtures && q.fixture !in fs
    ensures Swallowed(MarkResolved(db, q), q.team.id, fs) == Swallowed(db, q.team.id, fs)
  {
    var after := MarkResolved(db, q);
    forall f | f in fs && f in db.fixtures
      ensures f in Swallowed(after, q.team.id, fs) <==> f in Swallowed(db, q.team.id, fs)
    {
      FoundExempted(db.exemptions, q.team.id, db.fixtures[f].matchId);
      FoundExempted(after.exemptions, q.team.id, db.fixtures[f].matchId);
      OthersExempted(db, q, db.fixtures[f].matchId);
    }
  }

  /**
   * Accepting outstanding fixtures one by one, in any order, leaves those that were not accepted, and of
   * those that were exactly the ones for whose match there was an exemption before.
   */
  lemma {:induction false} ResolvingAllExactly(db: Db, team: Team, w: Week, fs: seq<int>)
    requires MatchIdsUnique(db) && Distinct(fs)
    requires forall f | f in Elements(fs) :: f > 0
    requires Elements(fs) <= Outstanding(db, team, w)
    ensures Outstanding(ResolveAll(db, team, w, fs), team, w)
      == Outstanding(db, team, w) - (Elements(fs) - Swallowed(db, team.id, Elements(fs)))
    decreases |fs|
  {
    if fs != [] {
      var q, rest := ResolveRequest(fs[0], team, w, ""), Elements(fs[1..]);
      DistinctElements(fs);
      ResolveEffect(db, q);
      OthersSwallowed(db, q, rest);
      ResolvingAllExactly(MarkResolved(db, q), team, w, fs[1..]);
      assert Swallowed(db, team.id, Elements(fs)) == Swallowed(db, team.id, {fs[0]}) + Swallowed(db, team.id, rest);
    }
  }

  lemma NoneLeft(before: set<int>, taken: set<int>, kept: set<int>)
    requires kept <= taken <= before
    ensures before - (taken - kept) == {} <==> taken == before && kept == {}
  {
    if before - (taken - kept) == {} {
      forall f | f in before ensures f in taken && f !in kept {
        assert f !in before - (taken - kept);
      }
    }
  }

  /** None is left if and only if all were accepted and none was swallowed. */
  lemma ResolvingLeavesNoneIff(db: Db, team: Team, w: Week, fs: seq<int>)
    requires MatchIdsUnique(db) && Distinct(fs)
    requires forall f | f in Elements(fs) :: f > 0
    requires Elements(fs) <= Outstanding(db, team, w)
    ensures Outstanding(ResolveAll(db, team, w, fs), team, w) == {}
      <==> Elements(fs) == Outstanding(db, team, w) && Swallowed(db, team.id, Elements(fs)) == {}
  {
    ResolvingAllExactly(db, team, w, fs);
    var before, taken := Outstanding(db, team, w), Elements(fs);
    NoneLeft(before, taken, Swallowed(db, team.id, taken));
  }

  /** While none of them has been moved, accepting outstanding fixtures in any order leaves exactly the others. */
  lemma ResolvingAllLeavesNone(db: Db, team: Team, w: Week, fs: seq<int>)
    requires DatesFixed(db, team.id, Elements(fs)) && MatchIdsUnique(db) && Distinct(fs)
    requires forall f | f in Elements(fs) :: f > 0
    requires Elements(fs) <= Outstanding(db, team, w)
    ensures Outstanding(ResolveAll(db, team, w, fs), team, w) == Outstanding(db, team, w) - Elements(fs)
  {
    ResolvingAllExactly(db, team, w, fs);
    forall f | f in Elements(fs) ensures f !in Swallowed(db, team.id, Elements(fs)) {
      RecordedMeansExempt(db, team.id, f);
    }
  }
}
