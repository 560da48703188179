/**
 * Card escalation: which card a missed report is due, how the rows of the weekly card
 * report are filled, and what a season of cards issued exactly as due adds up to.
 */
module Cards {
  import opened Common
  import opened Coverage

  datatype Colour = Yellow | Red

  datatype Reason = NonSubmission | OtherReason

  /** Cards are kept in the order in which they were issued; `live` is an active or served status. */
  datatype Card = Card(
    id: int, team: int, season: int, week: int, reason: Reason, colour: Colour, live: bool, points: Option<int>)

  predicate Counted(c: Card, team: int, season: int) {
    c.team == team && c.season == season && c.reason == NonSubmission && c.live
  }

  /** Counted cards of the given colours, of every week or of every week but one. */
  function CountCards(cards: seq<Card>, team: int, season: int, colours: set<Colour>, exceptWeek: Option<int>): nat {
    if cards == [] then 0
    else
      var last := cards[|cards| - 1];
      CountCards(cards[..|cards| - 1], team, season, colours, exceptWeek)
      + if Counted(last, team, season) && last.colour in colours && Some(last.week) != exceptWeek then 1 else 0
  }

  function PriorOffences(cards: seq<Card>, team: int, season: int, week: int): nat {
    CountCards(cards, team, season, {Yellow, Red}, Some(week))
  }

  function PriorReds(cards: seq<Card>, team: int, season: int, week: int): nat {
    CountCards(cards, team, season, {Red}, Some(week))
  }

  function CardDueForOffence(offence: int, priorReds: int): (Colour, int) {
    if offence > 0 && offence % 3 == 0 then (Red, priorReds + 1) else (Yellow, 0)
  }

  function Due(cards: seq<Card>, team: int, season: int, week: int): (Colour, int) {
    CardDueForOffence(PriorOffences(cards, team, season, week) + 1, PriorReds(cards, team, season, week))
  }

  // -------- a season issued exactly as due --------

  function IssueDue(cards: seq<Card>, team: int, season: int, week: int): seq<Card> {
    var due := Due(cards, team, season, week);
    cards + [Card(|cards|, team, season, week, NonSubmission, due.0, true, if due.0 == Red then Some(due.1) else None)]
  }

  function IssueSeason(cards: seq<Card>, team: int, season: int, weeks: seq<int>): seq<Card> {
    if weeks == [] then cards
    else IssueDue(IssueSeason(cards, team, season, weeks[..|weeks| - 1]), team, season, weeks[|weeks| - 1])
  }

  /** The points that a team's counted red cards take away. */
  function Deductions(cards: seq<Card>, team: int, season: int): int {
    if cards == [] then 0
    else
      var last := cards[|cards| - 1];
      Deductions(cards[..|cards| - 1], team, season)
      + if Counted(last, team, season) && last.colour == Red && last.points.Some? then last.points.value else 0
  }

  lemma {:induction false} NoCardsOf(cards: seq<Card>, team: int, season: int, colours: set<Colour>, week: Option<int>)
    requires forall c | c in cards :: !Counted(c, team, season)
    ensures CountCards(cards, team, season, colours, week) == 0 && Deductions(cards, team, season) == 0
  {
    if cards != [] {
      assert cards[|cards| - 1] in cards;
      NoCardsOf(cards[..|cards| - 1], team, season, colours, week);
    }
  }

  /** Leaving out a week in which no card was counted leaves out nothing. */
  lemma {:induction false} WeekWithoutCard(cards: seq<Card>, team: int, season: int, colours: set<Colour>, week: int)
    requires forall c | c in cards && Counted(c, team, season) :: c.week != week
    ensures CountCards(cards, team, season, colours, Some(week)) == CountCards(cards, team, season, colours, None)
  {
    if cards != [] {
      assert cards[|cards| - 1] in cards;
      WeekWithoutCard(cards[..|cards| - 1], team, season, colours, week);
    }
  }

  lemma {:induction false} SeasonWeeks(cards: seq<Card>, team: int, season: int, weeks: seq<int>)
    requires forall c | c in cards :: !Counted(c, team, season)
    ensures forall c | c in IssueSeason(cards, team, season, weeks) && Counted(c, team, season) :: c.week in weeks
  {
    if weeks != [] {
      SeasonWeeks(cards, team, season, weeks[..|weeks| - 1]);
    }
  }

  /** The red cards among the first n offences, and the points they cost. */
  function Reds(n: nat): nat {
    if n == 0 then 0 else Reds(n - 1) + if n % 3 == 0 then 1 else 0
  }

  function Points(n: nat): nat {
    if n == 0 then 0 else Points(n - 1) + if n % 3 == 0 then Reds(n) else 0
  }

  lemma {:induction false} RedsAreThirds(n: nat)
    ensures Reds(n) == n / 3
    decreases n
  {
    if n > 0 {
      RedsAreThirds(n - 1);
    }
  }

  lemma {:induction false} PointsAddUp(n: nat)
    ensures 2 * Points(n) == Reds(n) * (Reds(n) + 1)
    decreases n
  {
    if n > 0 {
      PointsAddUp(n - 1);
      NextTriangle(Reds(n - 1));
    }
  }

  lemma NextTriangle(r: nat)
    ensures r * (r + 1) + 2 * (r + 1) == (r + 1) * (r + 1 + 1)
  {
  }

  /** One more card, in a week that has none yet. */
  lemma IssueAddsUp(before: seq<Card>, team: int, season: int, week: int)
    requires forall c | c in before && Counted(c, team, season) :: c.week != week
    ensures var all := IssueDue(before, team, season, week);
      var (n, reds) := (CountCards(before, team, season, {Yellow, Red}, None),
        CountCards(before, team, season, {Red}, None));
      var (red, points) := if (n + 1) % 3 == 0 then (1, reds + 1) else (0, 0);
      && CountCards(all, team, season, {Yellow, Red}, None) == n + 1
      && CountCards(all, team, season, {Red}, None) == reds + red
      && CountCards(all, team, season, {Yellow}, None) == CountCards(before, team, season, {Yellow}, None) + 1 - red
      && Deductions(all, team, season) == Deductions(before, team, season) + points
  {
    WeekWithoutCard(before, team, season, {Yellow, Red}, week);
    WeekWithoutCard(before, team, season, {Red}, week);
    assert IssueDue(before, team, season, week)[..|before|] == before;
  }

  ghost predicate SeasonTotals(all: seq<Card>, team: int, season: int, n: nat) {
    && CountCards(all, team, season, {Yellow, Red}, None) == n
    && CountCards(all, team, season, {Red}, None) == Reds(n)
    && CountCards(all, team, season, {Yellow}, None) == n - Reds(n)
    && Deductions(all, team, season) == Points(n)
  }

  lemma {:induction false} SeasonCounts(cards: seq<Card>, team: int, season: int, weeks: seq<int>)
    requires forall c | c in cards :: !Counted(c, team, season)
    requires forall i, j | 0 <= i < j < |weeks| :: weeks[i] != weeks[j]
    ensures SeasonTotals(IssueSeason(cards, team, season, weeks), team, season, |weeks|)
    decreases |weeks|
  {
    if weeks == [] {
      NoCardsOf(cards, team, season, {Yellow, Red}, None);
      NoCardsOf(cards, team, season, {Red}, None);
      NoCardsOf(cards, team, season, {Yellow}, None);
    } else {
      var n := |weeks| - 1;
      SeasonCounts(cards, team, season, weeks[..n]);
      SeasonWeeks(cards, team, season, weeks[..n]);
      assert weeks[n] !in weeks[..n];
      IssueAddsUp(IssueSeason(cards, team, season, weeks[..n]), team, season, weeks[n]);
    }
  }

  /**
   * After n offences in n different weeks, every third card was red and each red cost one point more
   * than the last: n/3 reds, the rest yellow, and r(r+1)/2 points for r reds.
   */
  lemma SeasonAddsUp(cards: seq<Card>, team: int, season: int, weeks: seq<int>)
    requires forall c | c in cards :: !Counted(c, team, season)
    requires forall i, j | 0 <= i < j < |weeks| :: weeks[i] != weeks[j]
    ensures var all, reds := IssueSeason(cards, team, season, weeks), |weeks| / 3;
      && CountCards(all, team, season, {Yellow, Red}, None) == |weeks|
      && CountCards(all, team, season, {Red}, None) == reds
      && CountCards(all, team, season, {Yellow}, None) == |weeks| - reds
      && 2 * Deductions(all, team, season) == reds * (reds + 1)
  {
    SeasonCounts(cards, team, season, weeks);
    RedsAreThirds(|weeks|);
    PointsAddUp(|weeks|);
  }

  // -------- the compliance page's suggestion --------

  /** The compliance page counts every week of the season, the current one included. */
  function Suggested(cards: seq<Card>, team: int, season: int): Colour {
    var yellow := CountCards(cards, team, season, {Yellow}, None);
    var red := CountCards(cards, team, season, {Red}, None);
    if (yellow + red + 1) % 3 == 0 then Red else Yellow
  }

  lemma {:induction false} ColoursAddUp(cards: seq<Card>, team: int, season: int, week: Option<int>)
    ensures CountCards(cards, team, season, {Yellow, Red}, week)
         == CountCards(cards, team, season, {Yellow}, week) + CountCards(cards, team, season, {Red}, week)
  {
    if cards != [] {
      ColoursAddUp(cards[..|cards| - 1], team, season, week);
    }
  }

  function CountedInWeek(cards: seq<Card>, team: int, season: int, week: int): nat {
    if cards == [] then 0
    else
      var last := cards[|cards| - 1];
      CountedInWeek(cards[..|cards| - 1], team, season, week)
      + if Counted(last, team, season) && last.week == week then 1 else 0
  }

  lemma {:induction false} WeekSplits(cards: seq<Card>, team: int, season: int, week: int)
    ensures CountCards(cards, team, season, {Yellow, Red}, None)
         == PriorOffences(cards, team, season, week) + CountedInWeek(cards, team, season, week)
  {
    if cards != [] {
      WeekSplits(cards[..|cards| - 1], team, season, week);
      var colour := cards[|cards| - 1].colour;
      assert colour.Yellow? || colour.Red?;
    }
  }

  /**
   * The two pages name the same colour exactly when the week's counted cards fill whole threes, or when
   * neither count, with the week's cards or without them, stands one short of a three.
   */
  lemma SuggestionMatchesDue(cards: seq<Card>, team: int, season: int, week: int)
    ensures var prior, counted := PriorOffences(cards, team, season, week), CountedInWeek(cards, team, season, week);
      (Suggested(cards, team, season) == Due(cards, team, season, week).0) ==
        (counted % 3 == 0 || (prior % 3 != 2 && (prior + counted) % 3 != 2))
  {
    ColoursAddUp(cards, team, season, None);
    WeekSplits(cards, team, season, week);
    SameThird(PriorOffences(cards, team, season, week), CountedInWeek(cards, team, season, week));
  }

  lemma SameThird(prior: nat, counted: nat)
    ensures (prior + 1) % 3 == 0 <==> prior % 3 == 2
    ensures (prior + counted + 1) % 3 == 0 <==> (prior + counted) % 3 == 2
    ensures prior % 3 == 2 && (prior + counted) % 3 == 2 ==> counted % 3 == 0
    ensures counted % 3 == 0 ==> (prior + counted) % 3 == prior % 3
  {
  }

  /** So they agree while the team has no card for the week; with one, when the earlier offences fill whole threes. */
  lemma SuggestionWithFewCards(cards: seq<Card>, team: int, season: int, week: int)
    ensures var same := Suggested(cards, team, season) == Due(cards, team, season, week).0;
      var counted := CountedInWeek(cards, team, season, week);
      && (counted == 0 ==> same)
      && (counted == 1 ==> (same <==> PriorOffences(cards, team, season, week) % 3 == 0))
  {
    SuggestionMatchesDue(cards, team, season, week);
  }

  // -------- the weekly card report --------

  datatype ReportRow = ReportRow(
    team: int, fixtures: nat, submitted: nat, missing: int, missingFixtures: set<int>,
    priorReds: nat, offence: nat, existing: Option<Card>, due: Colour, points: int)

  /** The newest live card of the week, for whatever reason it was issued. */
  function Current(cards: seq<Card>, team: int, season: int, week: int): (r: Option<Card>)
    ensures r.Some? ==> r.value in cards && r.value.team == team && r.value.week == week
  {
    if cards == [] then None
    else
      var last := cards[|cards| - 1];
      if last.team == team && last.season == season && last.week == week && last.live then Some(last)
      else Current(cards[..|cards| - 1], team, season, week)
  }

  predicate Reported(db: Db, cards: seq<Card>, season: int, w: Week, team: Team) {
    team.active && (SubmitCount(db, team, w) < FixtureCount(db, team, w) || Current(cards, team.id, season, w.id).Some?)
  }

  /** A card of another reason stands as it is; an existing red card keeps the points it was issued with. */
  function Adjusted(due: (Colour, int), existing: Option<Card>): (Colour, int) {
    if existing.None? then due else
    var c := existing.value;
    var colour := if c.reason != NonSubmission then c.colour else due.0;
    var kept := c.colour == Red && c.points.Some? && (c.reason != NonSubmission || c.colour == colour);
    var points := if kept then c.points.value else due.1;
    (colour, points)
  }

  method FillRow(db: Db, cards: seq<Card>, season: int, w: Week, team: Team) returns (row: ReportRow)
    ensures row.team == team.id && row.existing == Current(cards, team.id, season, w.id)
    ensures row.missing == FixtureCount(db, team, w) - SubmitCount(db, team, w) >= 0
    ensures row.missingFixtures == Outstanding(db, team, w)
    ensures team.pcId != Some("") && WeekTagged(db, w) ==> row.missing == |row.missingFixtures|
    ensures (row.due, row.points) == Adjusted(Due(cards, team.id, season, w.id), row.existing)
    ensures row.offence == PriorOffences(cards, team.id, season, w.id) + 1
    ensures row.fixtures == FixtureCount(db, team, w) && row.submitted == SubmitCount(db, team, w)
    ensures row.priorReds == PriorReds(cards, team.id, season, w.id)
  {
    var fixtures, submitted := FixtureCount(db, team, w), SubmitCount(db, team, w);
    var reds := PriorReds(cards, team.id, season, w.id);
    var offence := PriorOffences(cards, team.id, season, w.id) + 1;
    var due, points := CardDueForOffence(offence, reds).0, CardDueForOffence(offence, reds).1;
    var existing := Current(cards, team.id, season, w.id);
    SubmitWithinFixtures(db, team, w);
    row := ReportRow(team.id, fixtures, submitted, fixtures - submitted, {}, reds, offence, existing, due, points);
    if row.missing < 0 {
      row := row.(missing := 0);
    }
    if existing.Some? && existing.value.reason != NonSubmission {
      row := row.(due := existing.value.colour);
      if existing.value.colour == Red && existing.value.points.Some? {
        row := row.(points := existing.value.points.value);
      }
    }
    if existing.Some? && existing.value.colour == row.due && existing.value.colour == Red
        && existing.value.points.Some? {
      row := row.(points := existing.value.points.value);
    }
    row := row.(missingFixtures := Outstanding(db, team, w));
    if team.pcId != Some("") {
      CountsMatchListing(db, team, w);
    }
  }

  function ReportedTeams(db: Db, cards: seq<Card>, season: int, w: Week, teams: seq<Team>): seq<Team> {
    if teams == [] then []
    else
      var last := teams[|teams| - 1];
      ReportedTeams(db, cards, season, w, teams[..|teams| - 1])
        + if Reported(db, cards, season, w, last) then [last] else []
  }

  /** A row is listed for what is missing, or else for the card that the team already has. */
  ghost predicate RowSound(row: ReportRow) {
    row.missing == |row.missingFixtures| && (row.missing == 0 ==> row.existing.Some?)
  }

  /** A team's row: its counts, its listed fixtures, and the card due or issued. */
  ghost predicate IsRowOf(row: ReportRow, db: Db, cards: seq<Card>, season: int, w: Week, team: Team) {
    && row.team == team.id && row.existing == Current(cards, team.id, season, w.id)
    && row.fixtures == FixtureCount(db, team, w) && row.submitted == SubmitCount(db, team, w)
    && row.missing == row.fixtures - row.submitted && row.missingFixtures == Outstanding(db, team, w)
    && row.priorReds == PriorReds(cards, team.id, season, w.id)
    && row.offence == PriorOffences(cards, team.id, season, w.id) + 1
    && (row.due, row.points) == Adjusted(Due(cards, team.id, season, w.id), row.existing)
  }

  /** One row for each active team that still owes a report or already has a card this week. */
  method WeeklyReport(db: Db, cards: seq<Card>, season: int, w: Week, teams: seq<Team>) returns (rows: seq<ReportRow>)
    ensures |rows| == |ReportedTeams(db, cards, season, w, teams)|
    ensures forall k | 0 <= k < |rows| ::
      IsRowOf(rows[k], db, cards, season, w, ReportedTeams(db, cards, season, w, teams)[k])
    ensures WeekTagged(db, w) && (forall t | t in teams && t.active :: t.pcId != Some("")) ==>
      forall r | r in rows :: RowSound(r)
  {
    rows := [];
    ghost var sound := WeekTagged(db, w) && forall t | t in teams && t.active :: t.pcId != Some("");
    for n := 0 to |teams|
      invariant |rows| == |ReportedTeams(db, cards, season, w, teams[..n])|
      invariant forall k | 0 <= k < |rows| ::
        IsRowOf(rows[k], db, cards, season, w, ReportedTeams(db, cards, season, w, teams[..n])[k])
      invariant sound ==> forall r | r in rows :: RowSound(r)
    {
      assert teams[..n + 1][..n] == teams[..n];
      if Reported(db, cards, season, w, teams[n]) {
        assert teams[n] in teams;
        var row := FillRow(db, cards, season, w, teams[n]);
        assert sound ==> RowSound(row);
        rows := rows + [row];
      }
    }
    assert teams[..|teams|] == teams;
  }

  function CountRows(rows: seq<ReportRow>, p: ReportRow -> bool): nat {
    if rows == [] then 0 else CountRows(rows[..|rows| - 1], p) + if p(rows[|rows| - 1]) then 1 else 0
  }

  predicate IsRed(r: ReportRow) {
    r.due == Red
  }

  predicate IsIssued(r: ReportRow) {
    r.existing.Some?
  }

  method CardReportCounts(rows: seq<ReportRow>) returns (yellowDue: nat, redDue: nat, issued: nat)
    ensures yellowDue + redDue == |rows|
    ensures redDue == CountRows(rows, IsRed) && issued == CountRows(rows, IsIssued)
  {
    yellowDue, redDue, issued := 0, 0, 0;
    for k := 0 to |rows|
      invariant yellowDue + redDue == k
      invariant redDue == CountRows(rows[..k], IsRed) && issued == CountRows(rows[..k], IsIssued)
    {
      assert rows[..k + 1][..k] == rows[..k];
      if rows[k].due == Red {
        redDue := redDue + 1;
      } else {
        yellowDue := yellowDue + 1;
      }
      if rows[k].existing.Some? {
        issued := issued + 1;
      }
    }
    assert rows[..|rows|] == rows;
  }
}
