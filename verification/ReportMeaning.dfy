/** What the rows, sums and summaries of the compliance pages hold, in terms of the stored tables. */
module ReportMeaning {
  import opened Common
  import opened Text
  import opened Sets
  import opened Coverage
  import opened CoverageMeaning
  import opened CoverageReports

  /** The team's submissions for a day that name no match, of the selected weeks. */
  function UnnamedInWeeks(db: Db, team: Team, weeks: seq<Week>, date: int): set<int> {
    set i | i in Unnamed(db, team, date) && 0 <= i < |db.submissions|
            && exists v :: v in weeks && v.id == db.submissions[i].weekId
  }

  /** What a row says of its fixture: was a report filed for it this week, or was it accepted without one. */
  lemma RowExactly(db: Db, weeks: seq<Week>, w: Week, team: Team, f: int)
    requires f in Expected(db, team, w)
    ensures var r, x := RowOf(db, weeks, w, team, f), db.fixtures[f];
      && r.weekId == w.id && r.teamId == team.id && r.fixture == f && r.date == x.date
      && (r.hasSubmission <==>
        || (exists s :: s in db.submissions && s.teamId == team.id && s.weekId == w.id && Names(s.matchId, x))
        || |OwedBefore(db, team, w, x)| < |UnnamedInWeeks(db, team, weeks, x.date)|)
      && (r.resolved <==>
        exists e :: e in db.exemptions && e.teamId == team.id && e.weekId == w.id && e.date == x.date
          && (e.matchId == None || Names(e.matchId, x)))
      && (Actionable(r) <==> !r.hasSubmission && !r.resolved)
  {
    var x := db.fixtures[f];
    AllCandidates(db, team, w);
    assert Earlier(db, Expected(db, team, w), f) == OwedBefore(db, team, w, x);
    forall i | 0 <= i < |db.submissions|
      ensures db.submissions[i].weekId in WeekIds(weeks) <==> exists v :: v in weeks && v.id == db.submissions[i].weekId
    {
    }
    assert LegacyOfWeek(db, team.id, WeekIds(weeks), x.date) == UnnamedInWeeks(db, team, weeks, x.date);
    assert SubmittedInWeek(db, team.id, w.id, x.matchId) <==>
      exists s :: s in db.submissions && s.teamId == team.id && s.weekId == w.id && Names(s.matchId, x);
    assert ExemptInWeek(db, team.id, w.id, x) <==>
      exists e :: e in db.exemptions && e.teamId == team.id && e.weekId == w.id && e.date == x.date
        && (e.matchId == None || Names(e.matchId, x));
  }

  /** The sums add up what each active team brings. */
  lemma SumsTakeEach(db: Db, teams: seq<Team>, w: Week, t: Team)
    ensures SumFixtures(db, [], w) == 0 && SumMissing(db, [], w) == 0 && SumOutstanding(db, [], w) == 0
    ensures SumFixtures(db, teams + [t], w)
      == SumFixtures(db, teams, w) + if t.active then FixtureCount(db, t, w) else 0
    ensures SumMissing(db, teams + [t], w)
      == SumMissing(db, teams, w) + if t.active then FixtureCount(db, t, w) - SubmitCount(db, t, w) else 0
    ensures SumOutstanding(db, teams + [t], w)
      == SumOutstanding(db, teams, w) + if t.active then |Outstanding(db, t, w)| else 0
  {
    assert (teams + [t])[..|teams|] == teams;
  }

  function Places(rows: seq<ReportRow>, p: ReportRow -> bool): set<int> {
    set i | 0 <= i < |rows| && p(rows[i])
  }

  lemma PlacesMore(rows: seq<ReportRow>, p: ReportRow -> bool)
    requires rows != []
    ensures var n := |rows| - 1;
      && n !in Places(rows[..n], p)
      && Places(rows, p) == Places(rows[..n], p) + if p(rows[n]) then {n} else {}
  {
    var n := |rows| - 1;
    assert forall i | 0 <= i < n :: rows[..n][i] == rows[i];
  }

  lemma {:induction false} CountExactly(rows: seq<ReportRow>, p: ReportRow -> bool)
    ensures CountIf(rows, p) == |Places(rows, p)|
    decreases |rows|
  {
    if rows != [] {
      CountExactly(rows[..|rows| - 1], p);
      PlacesMore(rows, p);
    }
  }

  lemma UnsubmittedExactly(rows: seq<ReportRow>, r: ReportRow)
    ensures Unsubmitted([]) == []
    ensures Unsubmitted(rows + [r]) == if r.hasSubmission then Unsubmitted(rows) else Unsubmitted(rows) + [r]
  {
    assert (rows + [r])[..|rows|] == rows;
  }

  /** A team's unsubmitted rows, of those with or without an acceptance. */
  function OfTeam(teamId: int, resolved: set<bool>): ReportRow -> bool {
    (r: ReportRow) => !r.hasSubmission && r.teamId == teamId && r.resolved in resolved
  }

  function DatesOf(rows: seq<ReportRow>, teamId: int): seq<int> {
    if rows == [] then []
    else
      var last := rows[|rows| - 1];
      DatesOf(rows[..|rows| - 1], teamId) + if !last.hasSubmission && last.teamId == teamId then [last.date] else []
  }

  /** A team's summary counts its unsubmitted rows, and lists their dates in order. */
  lemma {:induction false} SummaryExactly(rows: seq<ReportRow>, shown: seq<Shown>, teamId: int)
    requires |shown| == |rows|
    ensures var s := TeamSummary(rows, shown, teamId);
      && s.missing == CountIf(rows, OfTeam(teamId, {true, false}))
      && s.resolved == CountIf(rows, OfTeam(teamId, {true}))
      && s.actionable == CountIf(rows, OfTeam(teamId, {false}))
      && s.dates == DatesOf(rows, teamId)
    decreases |rows|
  {
    if rows != [] {
      SummaryExactly(rows[..|rows| - 1], shown[..|rows| - 1], teamId);
    }
  }

  /** The state shown is the label of the case where there is one, and else that of the card. */
  lemma StateExactly(sanction: string, caseLabel: string)
    ensures StateOf(Shown(sanction, Some(caseLabel))) == caseLabel && StateOf(Shown(sanction, None)) == sanction
  {
  }
}
