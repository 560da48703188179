/**
 * What the coverage queries come to, in terms of the stored fixtures, submissions and exemptions alone:
 * which fixtures are expected, covered and listed, and what the three updates store.
 */
module CoverageMeaning {
  import opened Common
  import opened Text
  import opened Sets
  import opened Coverage

  // -------- which fixtures a team owes --------

  predicate OnSide(side: Option<string>, team: Team) {
    side != None && team.pcId != None && SqlTrim(side.value) == SqlTrim(team.pcId.value)
  }

  /** The team plays, within the week with both its ends, not on a Friday, and the match was not given up. */
  predicate Owed(x: Fixture, team: Team, w: Week) {
    && (OnSide(x.home, team) || OnSide(x.away, team))
    && w.first <= x.date && x.date <= w.last && x.date % 7 != 5 && !x.bye
  }

  lemma CandidatesExactly(db: Db, team: Team, w: Week, f: int)
    ensures f in Candidates(db, team, w) <==> f in db.fixtures && Owed(db.fixtures[f], team, w)
    ensures f in Expected(db, team, w) <==>
      f in db.fixtures && Owed(db.fixtures[f], team, w) && team.pcId != None && team.pcId != Some("")
  {
  }

  lemma AllCandidates(db: Db, team: Team, w: Week)
    ensures Candidates(db, team, w) == set f | f in db.fixtures && Owed(db.fixtures[f], team, w)
    ensures Expected(db, team, w) == if team.pcId == None || team.pcId == Some("") then {} else Candidates(db, team, w)
  {
    forall f ensures f in Candidates(db, team, w) <==> f in db.fixtures && Owed(db.fixtures[f], team, w) {
      CandidatesExactly(db, team, w, f);
    }
  }

  /** The fixtures owed on the same day with a smaller match id. */
  function OwedBefore(db: Db, team: Team, w: Week, x: Fixture): set<int> {
    set g | g in db.fixtures && Owed(db.fixtures[g], team, w)
            && db.fixtures[g].date == x.date && db.fixtures[g].matchId < x.matchId
  }

  /** The team's submissions for the day that name no match. */
  function Unnamed(db: Db, team: Team, date: int): set<int> {
    set i | 0 <= i < |db.submissions|
            && db.submissions[i].teamId == team.id && db.submissions[i].date == date
            && db.submissions[i].matchId == None
  }

  predicate Names(match_: Option<int>, x: Fixture) {
    match_ == Some(x.matchId)
  }

  /**
   * Listed is what is owed, not submitted for, exempt neither alone nor with its whole day, and later in
   * the day than the submissions without a match reach.
   */
  lemma OutstandingExactly(db: Db, team: Team, w: Week, f: int)
    ensures f in Outstanding(db, team, w) <==>
      && f in db.fixtures && Owed(db.fixtures[f], team, w)
      && (forall s | s in db.submissions :: !(s.teamId == team.id && Names(s.matchId, db.fixtures[f])))
      && (forall e | e in db.exemptions ::
            !(e.teamId == team.id && e.date == db.fixtures[f].date
              && (e.matchId == None || Names(e.matchId, db.fixtures[f]))))
      && |OwedBefore(db, team, w, db.fixtures[f])| >= |Unnamed(db, team, db.fixtures[f].date)|
  {
    AllCandidates(db, team, w);
    if f in Candidates(db, team, w) {
      var x := db.fixtures[f];
      assert Earlier(db, Candidates(db, team, w), f) == OwedBefore(db, team, w, x);
      assert Legacy(db, team.id, x.date) == Unnamed(db, team, x.date);
      assert Submitted(db, team.id, x.matchId) <==>
        exists s :: s in db.submissions && s.teamId == team.id && Names(s.matchId, x);
      assert Exempt(db, team.id, x) <==>
        exists e :: e in db.exemptions && e.teamId == team.id && e.date == x.date
          && (e.matchId == None || Names(e.matchId, x));
    }
  }

  /** The same for the counts, which look at submissions and exemptions of this week only. */
  predicate CountsAsFiled(db: Db, team: Team, w: Week, f: int)
    requires f in db.fixtures
  {
    var x := db.fixtures[f];
    || (exists s :: s in db.submissions && s.teamId == team.id && s.weekId == w.id && Names(s.matchId, x))
    || (exists e :: e in db.exemptions && e.teamId == team.id && e.weekId == w.id && e.date == x.date
          && (e.matchId == None || Names(e.matchId, x)))
    || |OwedBefore(db, team, w, x)| < |UnnamedInWeek(db, team, w, x.date)|
  }

  function UnnamedInWeek(db: Db, team: Team, w: Week, date: int): set<int> {
    set i | i in Unnamed(db, team, date) && 0 <= i < |db.submissions| && db.submissions[i].weekId == w.id
  }

  lemma CountsExactly(db: Db, team: Team, w: Week)
    requires team.pcId != None && team.pcId != Some("")
    ensures FixtureCount(db, team, w) == |set f | f in db.fixtures && Owed(db.fixtures[f], team, w)|
    ensures SubmitCount(db, team, w)
      == |set f | f in db.fixtures && Owed(db.fixtures[f], team, w) && CountsAsFiled(db, team, w, f)|
  {
    AllCandidates(db, team, w);
    forall f | f in Expected(db, team, w) ensures Covered(db, team, w, f) <==> CountsAsFiled(db, team, w, f) {
      CoveredExactly(db, team, w, f);
    }
    assert (set f | f in Expected(db, team, w) && Covered(db, team, w, f))
        == set f | f in db.fixtures && Owed(db.fixtures[f], team, w) && CountsAsFiled(db, team, w, f);
  }

  lemma CoveredExactly(db: Db, team: Team, w: Week, f: int)
    requires f in Expected(db, team, w)
    ensures Covered(db, team, w, f) <==> CountsAsFiled(db, team, w, f)
  {
    var x := db.fixtures[f];
    AllCandidates(db, team, w);
    assert Earlier(db, Expected(db, team, w), f) == OwedBefore(db, team, w, x);
    assert LegacyOfWeek(db, team.id, {w.id}, x.date) == UnnamedInWeek(db, team, w, x.date);
    assert SubmittedInWeek(db, team.id, w.id, x.matchId) <==>
      exists s :: s in db.submissions && s.teamId == team.id && s.weekId == w.id && Names(s.matchId, x);
    assert ExemptInWeek(db, team.id, w.id, x) <==>
      exists e :: e in db.exemptions && e.teamId == team.id && e.weekId == w.id && e.date == x.date
        && (e.matchId == None || Names(e.matchId, x));
  }

  /** Without submissions and exemptions, a team's fixture is listed and counted exactly in its week. */
  lemma UnfiledFixture(db: Db, team: Team, w: Week, f: int)
    requires db.submissions == [] && db.exemptions == [] && f in db.fixtures
    requires team.pcId != None && team.pcId != Some("")
    requires db.fixtures[f].home == team.pcId || db.fixtures[f].away == team.pcId
    requires !db.fixtures[f].bye && db.fixtures[f].date % 7 != 5
    ensures f in Outstanding(db, team, w) <==> w.first <= db.fixtures[f].date <= w.last
    ensures f in Expected(db, team, w) <==> w.first <= db.fixtures[f].date <= w.last
    ensures SubmitCount(db, team, w) == 0
  {
    OutstandingExactly(db, team, w, f);
    assert Unnamed(db, team, db.fixtures[f].date) == {};
    forall g | g in Expected(db, team, w) ensures !Covered(db, team, w, g) {
      CoveredExactly(db, team, w, g);
      assert UnnamedInWeek(db, team, w, db.fixtures[g].date) == {};
    }
    assert (set g | g in Expected(db, team, w) && Covered(db, team, w, g)) == {};
  }

  // -------- what the updates store --------

  lemma ByeStores(db: Db, id: int)
    ensures var u := MarkBye(db, id);
      && u.submissions == db.submissions && u.exemptions == db.exemptions && u.fixtures.Keys == db.fixtures.Keys
      && forall f | f in db.fixtures ::
        && u.fixtures[f].matchId == db.fixtures[f].matchId && u.fixtures[f].date == db.fixtures[f].date
        && u.fixtures[f].home == db.fixtures[f].home && u.fixtures[f].away == db.fixtures[f].away
        && (u.fixtures[f].bye <==> db.fixtures[f].bye || (f == id && id >= 1))
  {
  }

  lemma SubmissionStores(db: Db, s: Submission)
    ensures AddSubmission(db, s).fixtures == db.fixtures && AddSubmission(db, s).exemptions == db.exemptions
    ensures |AddSubmission(db, s).submissions| == |db.submissions| + 1
    ensures AddSubmission(db, s).submissions[..|db.submissions|] == db.submissions
    ensures AddSubmission(db, s).submissions[|db.submissions|] == s
  {
  }

  /** The reason given, without blanks around it, or the standing one. */
  predicate ReasonFor(given: string, stored: string) {
    (Trim(given) == "" ==> stored == "Admin accepted") && (Trim(given) != "" ==> stored == Trim(given))
  }

  /** A request names a fixture of the team in the week. */
  predicate Acceptable(db: Db, q: ResolveRequest) {
    && q.fixture >= 1 && q.fixture in db.fixtures
    && (OnSide(db.fixtures[q.fixture].home, q.team) || OnSide(db.fixtures[q.fixture].away, q.team))
    && q.week.first <= db.fixtures[q.fixture].date && db.fixtures[q.fixture].date <= q.week.last
  }

  /** The first exemption of the team for the match gets the new reason and keeps the rest. */
  predicate Renewed(before: seq<Exemption>, after: seq<Exemption>, teamId: int, matchId: int, reason: string) {
    && |after| == |before|
    && exists i: nat | i < |before| ::
      && before[i].teamId == teamId && before[i].matchId == Some(matchId)
      && (forall j | 0 <= j < i :: before[j].teamId != teamId || before[j].matchId != Some(matchId))
      && ReasonFor(reason, after[i].reason)
      && after[i].teamId == before[i].teamId && after[i].weekId == before[i].weekId && after[i].date == before[i].date
      && after[i].matchId == before[i].matchId
      && forall j | 0 <= j < |before| && j != i :: after[j] == before[j]
  }

  predicate Added(before: seq<Exemption>, after: seq<Exemption>, q: ResolveRequest, x: Fixture) {
    && |after| == |before| + 1 && after[..|before|] == before
    && var e := after[|before|];
       && e.teamId == q.team.id && e.weekId == q.week.id && e.date == x.date && e.matchId == Some(x.matchId)
       && ReasonFor(q.reason, e.reason)
  }

  /** Accepting stores an exemption, or renews the one that the team has for the match. */
  lemma AcceptStores(db: Db, q: ResolveRequest)
    ensures var u := MarkResolved(db, q);
      && u.fixtures == db.fixtures && u.submissions == db.submissions
      && if !Acceptable(db, q) then u.exemptions == db.exemptions
         else if exists e :: e in db.exemptions && e.teamId == q.team.id
                            && e.matchId == Some(db.fixtures[q.fixture].matchId)
         then Renewed(db.exemptions, u.exemptions, q.team.id, db.fixtures[q.fixture].matchId, q.reason)
         else Added(db.exemptions, u.exemptions, q, db.fixtures[q.fixture])
  {
    if Acceptable(db, q) {
      var m := db.fixtures[q.fixture].matchId;
      var i := FindExemption(db.exemptions, q.team.id, m);
      if i < |db.exemptions| {
        assert db.exemptions[i] in db.exemptions;
      }
    }
  }
}
