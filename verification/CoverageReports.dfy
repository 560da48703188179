/**
 * The pages built on the coverage queries: the compliance counters, the missing-submissions
 * report and its classification loop, and the handlers that mark byes and accepted reports.
 */
module CoverageReports {
  import opened Common
  import opened Text
  import opened Sets
  import opened Coverage

  class ComplianceStore {
    var fixtures: map<int, Fixture>
    var submissions: seq<Submission>
    var exemptions: seq<Exemption>

    constructor (fixtures: map<int, Fixture>)
      ensures View() == Db(fixtures, [], [])
    {
      this.fixtures, submissions, exemptions := fixtures, [], [];
    }

    function View(): Db
      reads this
    {
      Db(fixtures, submissions, exemptions)
    }

    method MarkBye(id: int)
      modifies this`fixtures
      ensures View() == Coverage.MarkBye(old(View()), id)
    {
      if id > 0 && id in fixtures {
        fixtures := fixtures[id := fixtures[id].(bye := true)];
      }
    }

    method MarkResolved(q: ResolveRequest) returns (accepted: bool)
      modifies this`exemptions
      ensures accepted <==> Resolvable(old(View()), q)
      ensures View() == Coverage.MarkResolved(old(View()), q)
    {
      accepted := Resolvable(View(), q);
      if !accepted { return; }
      var reason := Trim(q.reason);
      if reason == "" {
        reason := "Admin accepted";
      }
      var f := fixtures[q.fixture];
      var i := FindExemption(exemptions, q.team.id, f.matchId);
      if i < |exemptions| {
        exemptions := exemptions[i := exemptions[i].(reason := reason)];
      } else {
        exemptions := exemptions + [Exemption(q.team.id, q.week.id, f.date, Some(f.matchId), reason)];
      }
    }
  }

  // -------- sums over teams --------

  function SumOutstanding(db: Db, teams: seq<Team>, w: Week): nat {
    if teams == [] then 0
    else
      var last := teams[|teams| - 1];
      SumOutstanding(db, teams[..|teams| - 1], w) + if last.active then |Outstanding(db, last, w)| else 0
  }

  function SumMissing(db: Db, teams: seq<Team>, w: Week): int {
    if teams == [] then 0
    else
      var last := teams[|teams| - 1];
      SumMissing(db, teams[..|teams| - 1], w)
        + if last.active then FixtureCount(db, last, w) - SubmitCount(db, last, w) else 0
  }

  /** The fixtures of the active teams. */
  function SumFixtures(db: Db, teams: seq<Team>, w: Week): nat {
    if teams == [] then 0
    else
      var last := teams[|teams| - 1];
      SumFixtures(db, teams[..|teams| - 1], w) + if last.active then FixtureCount(db, last, w) else 0
  }

  lemma {:induction false} SumsAgree(db: Db, teams: seq<Team>, w: Week)
    requires WeekTagged(db, w) && forall t | t in teams && t.active :: t.pcId != Some("")
    ensures SumMissing(db, teams, w) == SumOutstanding(db, teams, w)
  {
    if teams != [] {
      var last := teams[|teams| - 1];
      assert last in teams;
      if last.active { CountsMatchListing(db, last, w); }
      SumsAgree(db, teams[..|teams| - 1], w);
    }
  }

  /**
   * The page's counters are in reports, not teams. The cap on a team's submitted reports never bites,
   * so what is missing is the sum of the teams' shortfalls.
   */
  method ComplianceCounters(db: Db, teams: seq<Team>, w: Week) returns (expected: nat, submitted: nat, missing: nat)
    ensures expected == submitted + missing && expected == SumFixtures(db, teams, w)
    ensures missing == SumMissing(db, teams, w)
    ensures WeekTagged(db, w) && (forall t | t in teams && t.active :: t.pcId != Some("")) ==>
      missing == SumOutstanding(db, teams, w)
  {
    expected, submitted, missing := 0, 0, 0;
    for k := 0 to |teams|
      invariant expected == submitted + missing && expected == SumFixtures(db, teams[..k], w)
      invariant missing == SumMissing(db, teams[..k], w)
    {
      assert teams[..k + 1][..k] == teams[..k];
      var team := teams[k];
      SubmitWithinFixtures(db, team, w);
      if team.active {
        var fixtureCount, submitCount := FixtureCount(db, team, w), SubmitCount(db, team, w);
        if fixtureCount > 0 {
          var reports := submitCount;
          if reports > fixtureCount {
            reports := fixtureCount;
          }
          expected := expected + fixtureCount;
          submitted := submitted + reports;
          missing := missing + fixtureCount - reports;
        }
      }
    }
    assert teams[..|teams|] == teams;
    if WeekTagged(db, w) && forall t | t in teams && t.active :: t.pcId != Some("") {
      SumsAgree(db, teams, w);
    }
  }

  // -------- the missing-submissions report --------

  datatype ReportRow = ReportRow(weekId: int, teamId: int, fixture: int, date: int, hasSubmission: bool, resolved: bool)

  function WeekIds(weeks: seq<Week>): set<int> {
    set w | w in weeks :: w.id
  }

  /** Legacy submissions are counted over both selected weeks together. */
  function RowOf(db: Db, weeks: seq<Week>, w: Week, team: Team, f: int): ReportRow
    requires f in db.fixtures
  {
    var fixture := db.fixtures[f];
    ReportRow(w.id, team.id, f, fixture.date,
      SubmittedInWeek(db, team.id, w.id, fixture.matchId)
        || Ordinal(db, Expected(db, team, w), f) <= |LegacyOfWeek(db, team.id, WeekIds(weeks), fixture.date)|,
      ExemptInWeek(db, team.id, w.id, fixture))
  }

  ghost predicate FromQuery(db: Db, teams: seq<Team>, weeks: seq<Week>, r: ReportRow) {
    exists w, t :: w in weeks && t in teams && t.active && r.fixture in Expected(db, t, w)
      && r == RowOf(db, weeks, w, t, r.fixture)
  }

  /** The query's result, in any order: one row for each selected week, active team and expected fixture. */
  ghost predicate IsReport(db: Db, teams: seq<Team>, weeks: seq<Week>, rows: seq<ReportRow>) {
    && Distinct(rows)
    && (forall r | r in rows :: FromQuery(db, teams, weeks, r))
    && (forall w, t, f | w in weeks && t in teams && t.active && f in Expected(db, t, w) ::
      RowOf(db, weeks, w, t, f) in rows)
  }

  predicate Actionable(r: ReportRow) {
    !r.hasSubmission && !r.resolved
  }

  ghost function ActionableRows(rows: seq<ReportRow>, weekId: int): set<int> {
    set i | 0 <= i < |rows| && rows[i].weekId == weekId && Actionable(rows[i])
  }

  lemma ActionableMeansOutstanding(db: Db, weeks: seq<Week>, w: Week, team: Team, f: int)
    requires WeekTagged(db, w) && w in weeks && team.pcId != Some("") && f in Expected(db, team, w)
    ensures Actionable(RowOf(db, weeks, w, team, f)) <==> f in Outstanding(db, team, w)
  {
    var date := db.fixtures[f].date;
    assert LegacyOfWeek(db, team.id, WeekIds(weeks), date) == Legacy(db, team.id, date);
  }

  ghost function PairsOf(db: Db, team: Team, w: Week): set<(int, int)> {
    if team.active then set f | f in Outstanding(db, team, w) :: (team.id, f) else {}
  }

  ghost function PairsByTeam(db: Db, teams: seq<Team>, w: Week): (r: seq<set<(int, int)>>)
    ensures |r| == |teams| && forall k | 0 <= k < |teams| :: r[k] == PairsOf(db, teams[k], w)
  {
    seq(|teams|, k requires 0 <= k < |teams| => PairsOf(db, teams[k], w))
  }

  lemma {:induction false} SizesByTeam(db: Db, teams: seq<Team>, w: Week)
    ensures Sizes(PairsByTeam(db, teams, w)) == SumOutstanding(db, teams, w)
  {
    if teams != [] {
      var init := teams[..|teams| - 1];
      SizesByTeam(db, init, w);
      PairsOfCount(db, teams[|teams| - 1], w);
      assert PairsByTeam(db, teams, w)[..|init|] == PairsByTeam(db, init, w);
    }
  }

  lemma PairsCount(db: Db, teams: seq<Team>, w: Week)
    requires forall i, j | 0 <= i < j < |teams| :: teams[i].id != teams[j].id
    ensures |Union(PairsByTeam(db, teams, w))| == SumOutstanding(db, teams, w)
  {
    var parts := PairsByTeam(db, teams, w);
    forall i, j | 0 <= i < j < |parts| ensures parts[i] !! parts[j] {
      PairsApart(db, teams[i], teams[j], w);
    }
    UnionSize(parts);
    SizesByTeam(db, teams, w);
  }

  lemma PairsApart(db: Db, s: Team, t: Team, w: Week)
    requires s.id != t.id
    ensures PairsOf(db, s, w) !! PairsOf(db, t, w)
  {
  }

  lemma PairsOfCount(db: Db, team: Team, w: Week)
    ensures |PairsOf(db, team, w)| == if team.active then |Outstanding(db, team, w)| else 0
  {
    if team.active {
      SameSize(Outstanding(db, team, w), PairsOf(db, team, w), f => (team.id, f));
    }
  }

  /** The team and the fixture of a row. */
  function PairAt(rows: seq<ReportRow>, i: int): (int, int) {
    if 0 <= i < |rows| then (rows[i].teamId, rows[i].fixture) else (0, 0)
  }

  /** The teams and fixtures that the compliance page lists for the week. */
  ghost function ListedPairs(db: Db, teams: seq<Team>, w: Week): set<(int, int)> {
    Union(PairsByTeam(db, teams, w))
  }

  lemma ListedPair(db: Db, teams: seq<Team>, w: Week, teamId: int, f: int)
    ensures (teamId, f) in ListedPairs(db, teams, w)
      <==> exists t :: t in teams && t.active && t.id == teamId && f in Outstanding(db, t, w)
  {
    var parts := PairsByTeam(db, teams, w);
    UnionMember(parts, (teamId, f));
    if InSome(parts, (teamId, f)) {
      var k :| 0 <= k < |parts| && (teamId, f) in parts[k];
      assert parts[k] == PairsOf(db, teams[k], w);
      assert teams[k] in teams;
    }
    if t :| t in teams && t.active && t.id == teamId && f in Outstanding(db, t, w) {
      var k :| 0 <= k < |teams| && teams[k] == t;
      assert parts[k] == PairsOf(db, t, w) && (teamId, f) in parts[k];
    }
  }

  /**
   * The report's actionable rows of a week are one for one the fixtures that the compliance page lists:
   * different rows name different pairs, the pairs are those listed, and so there are as many.
   */
  lemma ReportMatchesListing(db: Db, teams: seq<Team>, weeks: seq<Week>, w: Week, rows: seq<ReportRow>)
    requires IsReport(db, teams, weeks, rows) && WeekTagged(db, w) && w in weeks
    requires forall v | v in weeks && v.id == w.id :: v == w
    requires forall t | t in teams && t.active :: t.pcId != Some("")
    requires forall i, j | 0 <= i < j < |teams| :: teams[i].id != teams[j].id
    ensures (set i | i in ActionableRows(rows, w.id) :: PairAt(rows, i)) == ListedPairs(db, teams, w)
    ensures forall i, j | i in ActionableRows(rows, w.id) && j in ActionableRows(rows, w.id)
      && PairAt(rows, i) == PairAt(rows, j) :: i == j
    ensures |ActionableRows(rows, w.id)| == SumOutstanding(db, teams, w)
  {
    var pair := i => PairAt(rows, i);
    var indices, pairs := ActionableRows(rows, w.id), ListedPairs(db, teams, w);
    forall i | i in indices ensures pair(i) in pairs {
      RowIsListed(db, teams, weeks, w, rows, i);
    }
    forall i, j | i in indices && j in indices && pair(i) == pair(j) ensures i == j {
      SameRow(db, teams, weeks, w, rows, i, j);
    }
    forall p | p in pairs ensures exists i :: i in indices && pair(i) == p {
      var i := ListedHasRow(db, teams, weeks, w, rows, p);
      assert i in indices && pair(i) == p;
    }
    SameSize(indices, pairs, pair);
    PairsCount(db, teams, w);
  }

  lemma RowIsListed(db: Db, teams: seq<Team>, weeks: seq<Week>, w: Week, rows: seq<ReportRow>, i: nat)
    requires IsReport(db, teams, weeks, rows) && WeekTagged(db, w) && w in weeks
    requires forall v | v in weeks && v.id == w.id :: v == w
    requires forall t | t in teams && t.active :: t.pcId != Some("")
    requires i < |rows| && rows[i].weekId == w.id && Actionable(rows[i])
    ensures (rows[i].teamId, rows[i].fixture) in ListedPairs(db, teams, w)
  {
    assert FromQuery(db, teams, weeks, rows[i]);
    var v, t :| v in weeks && t in teams && t.active && rows[i].fixture in Expected(db, t, v)
                && rows[i] == RowOf(db, weeks, v, t, rows[i].fixture);
    ActionableMeansOutstanding(db, weeks, w, t, rows[i].fixture);
    var k :| 0 <= k < |teams| && teams[k] == t;
    assert (t.id, rows[i].fixture) in PairsOf(db, teams[k], w);
    assert InSome(PairsByTeam(db, teams, w), (t.id, rows[i].fixture)) by {
      assert (t.id, rows[i].fixture) in PairsByTeam(db, teams, w)[k];
    }
    UnionMember(PairsByTeam(db, teams, w), (t.id, rows[i].fixture));
  }

  lemma ListedHasRow(db: Db, teams: seq<Team>, weeks: seq<Week>, w: Week, rows: seq<ReportRow>, p: (int, int))
      returns (i: nat)
    requires IsReport(db, teams, weeks, rows) && WeekTagged(db, w) && w in weeks
    requires forall t | t in teams && t.active :: t.pcId != Some("")
    requires p in ListedPairs(db, teams, w)
    ensures i < |rows| && rows[i].weekId == w.id && Actionable(rows[i]) && (rows[i].teamId, rows[i].fixture) == p
  {
    UnionMember(PairsByTeam(db, teams, w), p);
    var k :| 0 <= k < |teams| && p in PairsByTeam(db, teams, w)[k];
    var t, f := teams[k], p.1;
    assert p in PairsOf(db, t, w);
    ListedIsExpected(db, t, w, f);
    ActionableMeansOutstanding(db, weeks, w, t, f);
    i :| 0 <= i < |rows| && rows[i] == RowOf(db, weeks, w, t, f);
  }

  lemma ListedIsExpected(db: Db, team: Team, w: Week, f: int)
    requires team.pcId != Some("") && f in Outstanding(db, team, w)
    ensures f in Expected(db, team, w)
  {
    assert Plays(db.fixtures[f], team);
  }

  lemma SameRow(db: Db, teams: seq<Team>, weeks: seq<Week>, w: Week, rows: seq<ReportRow>, i: nat, j: nat)
    requires IsReport(db, teams, weeks, rows) && w in weeks
    requires forall v | v in weeks && v.id == w.id :: v == w
    requires forall a, b | 0 <= a < b < |teams| :: teams[a].id != teams[b].id
    requires i < |rows| && j < |rows| && rows[i].weekId == w.id && rows[j].weekId == w.id
    requires rows[i].teamId == rows[j].teamId && rows[i].fixture == rows[j].fixture
    ensures i == j
  {
    assert FromQuery(db, teams, weeks, rows[i]) && FromQuery(db, teams, weeks, rows[j]);
    var v, t :| v in weeks && t in teams && t.active && rows[i].fixture in Expected(db, t, v)
                && rows[i] == RowOf(db, weeks, v, t, rows[i].fixture);
    var u, s :| u in weeks && s in teams && s.active && rows[j].fixture in Expected(db, s, u)
                && rows[j] == RowOf(db, weeks, u, s, rows[j].fixture);
    assert s == t;
    assert rows[i] == rows[j];
  }

  // -------- the classification loop --------

  /** What a row shows of a sanction: the state of an older card, and the label of a case where there is one. */
  datatype Shown = Shown(sanction: string, caseLabel: Option<string>)

  /** `state` is what the row with the newest date shows. */
  datatype Summary = Summary(missing: nat, resolved: nat, actionable: nat, dates: seq<int>, latest: int, state: string)

  datatype Counters = Counters(
    expected: nat, submitted: nat, noSubmission: nat, resolved: nat, actionable: nat, rows: seq<ReportRow>)

  function CountIf(rows: seq<ReportRow>, p: ReportRow -> bool): nat {
    if rows == [] then 0
    else CountIf(rows[..|rows| - 1], p) + if p(rows[|rows| - 1]) then 1 else 0
  }

  function Unsubmitted(rows: seq<ReportRow>): seq<ReportRow> {
    if rows == [] then []
    else Unsubmitted(rows[..|rows| - 1]) + if rows[|rows| - 1].hasSubmission then [] else [rows[|rows| - 1]]
  }

  const NOTHING := Summary(0, 0, 0, [], 0, "")

  function StateOf(shown: Shown): string {
    if shown.caseLabel.Some? then shown.caseLabel.value else shown.sanction
  }

  /** One more unsubmitted row of the team. */
  function WithRow(prior: Summary, row: ReportRow, shown: Shown): Summary {
    Summary(
      prior.missing + 1, prior.resolved + (if row.resolved then 1 else 0),
      prior.actionable + (if row.resolved then 0 else 1),
      prior.dates + [row.date], if row.date > prior.latest then row.date else prior.latest,
      if row.date > prior.latest then StateOf(shown) else prior.state)
  }

  /** What the summary of one team must say after these rows. */
  function TeamSummary(rows: seq<ReportRow>, shown: seq<Shown>, teamId: int): Summary
    requires |shown| == |rows|
  {
    if rows == [] then NOTHING
    else
      var n := |rows| - 1;
      var prior := TeamSummary(rows[..n], shown[..n], teamId);
      if rows[n].hasSubmission || rows[n].teamId != teamId then prior else WithRow(prior, rows[n], shown[n])
  }

  ghost predicate Listed(rows: seq<ReportRow>, teamId: int) {
    exists i | 0 <= i < |rows| :: !rows[i].hasSubmission && rows[i].teamId == teamId
  }

  /** The summaries as the loop builds them. */
  function SummaryMap(rows: seq<ReportRow>, shown: seq<Shown>): map<int, Summary>
    requires |shown| == |rows|
  {
    if rows == [] then map[]
    else var n := |rows| - 1; WithSummary(SummaryMap(rows[..n], shown[..n]), rows[n], shown[n])
  }

  function WithSummary(prior: map<int, Summary>, row: ReportRow, shown: Shown): map<int, Summary> {
    if row.hasSubmission then prior
    else prior[row.teamId := WithRow(if row.teamId in prior then prior[row.teamId] else NOTHING, row, shown)]
  }

  lemma ListedLast(rows: seq<ReportRow>, teamId: int)
    requires rows != []
    ensures Listed(rows, teamId) <==>
      Listed(rows[..|rows| - 1], teamId) || (!rows[|rows| - 1].hasSubmission && rows[|rows| - 1].teamId == teamId)
  {
    var earlier := rows[..|rows| - 1];
    if Listed(earlier, teamId) {
      var i :| 0 <= i < |earlier| && !earlier[i].hasSubmission && earlier[i].teamId == teamId;
      assert rows[i] == earlier[i];
    }
  }

  lemma {:induction false} SummaryOf(rows: seq<ReportRow>, shown: seq<Shown>, teamId: int)
    requires |shown| == |rows|
    ensures teamId in SummaryMap(rows, shown) <==> Listed(rows, teamId)
    ensures TeamSummary(rows, shown, teamId)
      == if teamId in SummaryMap(rows, shown) then SummaryMap(rows, shown)[teamId] else NOTHING
    decreases |rows|
  {
    if rows != [] {
      ListedLast(rows, teamId);
      SummaryOf(rows[..|rows| - 1], shown[..|rows| - 1], teamId);
    }
  }

  /** The row is the first of the team's unsubmitted rows with the newest date. */
  ghost predicate IsNewest(rows: seq<ReportRow>, teamId: int, i: nat) {
    && i < |rows| && !rows[i].hasSubmission && rows[i].teamId == teamId
    && forall j | 0 <= j < |rows| && !rows[j].hasSubmission && rows[j].teamId == teamId ::
      rows[j].date < rows[i].date || (rows[j].date == rows[i].date && i <= j)
  }

  /** A summary shows the date and the state of the team's newest unsubmitted row, in whatever order the rows come. */
  lemma {:induction false} SummaryShowsNewest(rows: seq<ReportRow>, shown: seq<Shown>, teamId: int, i: nat)
    requires |shown| == |rows| && IsNewest(rows, teamId, i) && rows[i].date > 0
    ensures TeamSummary(rows, shown, teamId).latest == rows[i].date
    ensures TeamSummary(rows, shown, teamId).state == StateOf(shown[i])
    decreases |rows|
  {
    var n := |rows| - 1;
    var earlier := rows[..n];
    if i == n {
      EarlierIsOlder(earlier, shown[..n], teamId, rows[n].date);
    } else {
      assert IsNewest(earlier, teamId, i) by {
        assert forall j | 0 <= j < n :: earlier[j] == rows[j];
      }
      SummaryShowsNewest(earlier, shown[..n], teamId, i);
    }
  }

  lemma {:induction false} EarlierIsOlder(rows: seq<ReportRow>, shown: seq<Shown>, teamId: int, date: int)
    requires |shown| == |rows| && date > 0
    requires forall j | 0 <= j < |rows| && !rows[j].hasSubmission && rows[j].teamId == teamId :: rows[j].date < date
    ensures TeamSummary(rows, shown, teamId).latest < date
    decreases |rows|
  {
    if rows != [] {
      EarlierIsOlder(rows[..|rows| - 1], shown[..|rows| - 1], teamId, date);
    }
  }

  function WithCounted(d: Counters, row: ReportRow): Counters {
    if row.hasSubmission then d.(expected := d.expected + 1, submitted := d.submitted + 1)
    else
      d.(
        expected := d.expected + 1, noSubmission := d.noSubmission + 1, rows := d.rows + [row],
        resolved := d.resolved + (if row.resolved then 1 else 0),
        actionable := d.actionable + if row.resolved then 0 else 1)
  }

  /** The counters as the loop adds them up. */
  function CountersOf(rows: seq<ReportRow>): Counters {
    if rows == [] then Counters(0, 0, 0, 0, 0, []) else WithCounted(CountersOf(rows[..|rows| - 1]), rows[|rows| - 1])
  }

  lemma {:induction false} Totals(rows: seq<ReportRow>)
    ensures var d := CountersOf(rows);
      && d.expected == |rows| == d.submitted + d.noSubmission && d.noSubmission == d.resolved + d.actionable
      && d.actionable == CountIf(rows, Actionable)
      && d.rows == Unsubmitted(rows) && |d.rows| == d.noSubmission
    decreases |rows|
  {
    if rows != [] {
      Totals(rows[..|rows| - 1]);
    }
  }

  lemma OneMore(rows: seq<ReportRow>, shown: seq<Shown>, k: nat)
    requires |shown| == |rows| && k < |rows|
    ensures CountersOf(rows[..k + 1]) == WithCounted(CountersOf(rows[..k]), rows[k])
    ensures SummaryMap(rows[..k + 1], shown[..k + 1])
      == WithSummary(SummaryMap(rows[..k], shown[..k]), rows[k], shown[k])
  {
    assert rows[..k + 1][..k] == rows[..k] && shown[..k + 1][..k] == shown[..k];
  }

  lemma SummariesOf(rows: seq<ReportRow>, shown: seq<Shown>)
    requires |shown| == |rows|
    ensures forall t :: t in SummaryMap(rows, shown) <==> Listed(rows, t)
    ensures forall t | t in SummaryMap(rows, shown) :: SummaryMap(rows, shown)[t] == TeamSummary(rows, shown, t)
  {
    forall t ensures t in SummaryMap(rows, shown) <==> Listed(rows, t)
      ensures t in SummaryMap(rows, shown) ==> SummaryMap(rows, shown)[t] == TeamSummary(rows, shown, t)
    {
      SummaryOf(rows, shown, t);
    }
  }

  method Classify(rows: seq<ReportRow>, shown: seq<Shown>) returns (d: Counters, summary: map<int, Summary>)
    requires |shown| == |rows|
    ensures d.expected == |rows| == d.submitted + d.noSubmission && d.noSubmission == d.resolved + d.actionable
    ensures d.actionable == CountIf(rows, Actionable)
    ensures d.rows == Unsubmitted(rows) && |d.rows| == d.noSubmission
    ensures forall t :: t in summary <==> Listed(rows, t)
    ensures forall t | t in summary :: summary[t] == TeamSummary(rows, shown, t)
  {
    d, summary := Counters(0, 0, 0, 0, 0, []), map[];
    for k := 0 to |rows|
      invariant d == CountersOf(rows[..k]) && summary == SummaryMap(rows[..k], shown[..k])
    {
      OneMore(rows, shown, k);
      var row := rows[k];
      d := d.(expected := d.expected + 1);
      if row.hasSubmission {
        d := d.(submitted := d.submitted + 1);
        continue;
      }
      d := d.(noSubmission := d.noSubmission + 1, rows := d.rows + [row]);
      if row.resolved {
        d := d.(resolved := d.resolved + 1);
      } else {
        d := d.(actionable := d.actionable + 1);
      }
      var s := if row.teamId in summary then summary[row.teamId] else NOTHING;
      s := s.(missing := s.missing + 1, dates := s.dates + [row.date]);
      if row.resolved {
        s := s.(resolved := s.resolved + 1);
      } else {
        s := s.(actionable := s.actionable + 1);
      }
      if row.date > s.latest {
        s := s.(latest := row.date, state := shown[k].sanction);
        if shown[k].caseLabel.Some? {
          s := s.(state := shown[k].caseLabel.value);
        }
      }
      assert s == WithRow(if row.teamId in summary then summary[row.teamId] else NOTHING, row, shown[k]);
      summary := summary[row.teamId := s];
    }
    assert rows[..|rows|] == rows && shown[..|rows|] == shown;
    Totals(rows);
    SummariesOf(rows, shown);
  }

  /** Each row is actionable in one week, so the report's actionable total splits by week. */
  lemma {:induction false} ActionableByWeek(rows: seq<ReportRow>, first: int, second: int)
    requires first != second && forall r | r in rows :: r.weekId in {first, second}
    ensures CountIf(rows, Actionable) == |ActionableRows(rows, first)| + |ActionableRows(rows, second)|
  {
    if rows != [] {
      var n := |rows| - 1;
      ActionableByWeek(rows[..n], first, second);
      forall w ensures ActionableRows(rows, w) == ActionableRows(rows[..n], w)
          + if rows[n].weekId == w && Actionable(rows[n]) then {n} else {}
      {
      }
      assert rows[n] in rows;
    }
  }
}
