/** What the card report is filled from: which cards count, which card is due, and which teams have a row. */
module CardMeaning {
  import opened Common
  import opened Coverage
  import opened Cards

  /** The team's live cards of the season for a missed report, by their places. */
  function Counting(cards: seq<Card>, team: int, season: int): set<int> {
    set i | 0 <= i < |cards| && cards[i].team == team && cards[i].season == season && cards[i].live
            && cards[i].reason == NonSubmission
  }

  function Picked(cards: seq<Card>, team: int, season: int, colours: set<Colour>, exceptWeek: Option<int>): set<int> {
    set i | i in Counting(cards, team, season) && 0 <= i < |cards| && cards[i].colour in colours
            && (exceptWeek == None || cards[i].week != exceptWeek.value)
  }

  lemma PickedMore(cards: seq<Card>, team: int, season: int, colours: set<Colour>, exceptWeek: Option<int>)
    requires cards != []
    ensures var n := |cards| - 1;
      var c := cards[n];
      && n !in Picked(cards[..n], team, season, colours, exceptWeek)
      && Picked(cards, team, season, colours, exceptWeek) == Picked(cards[..n], team, season, colours, exceptWeek)
        + if c.team == team && c.season == season && c.live && c.reason == NonSubmission && c.colour in colours
             && (exceptWeek == None || c.week != exceptWeek.value) then {n} else {}
  {
    var n := |cards| - 1;
    assert forall i | 0 <= i < n :: cards[..n][i] == cards[i];
  }

  lemma {:induction false} CountsExactly(
    cards: seq<Card>, team: int, season: int, colours: set<Colour>, exceptWeek: Option<int>)
    ensures CountCards(cards, team, season, colours, exceptWeek) == |Picked(cards, team, season, colours, exceptWeek)|
    decreases |cards|
  {
    if cards != [] {
      CountsExactly(cards[..|cards| - 1], team, season, colours, exceptWeek);
      PickedMore(cards, team, season, colours, exceptWeek);
    }
  }

  /**
   * The card due is red for every third offence, counting this one and those of other weeks, and takes
   * one point more than there were reds; any other is yellow and takes none.
   */
  lemma DueExactly(cards: seq<Card>, team: int, season: int, week: int)
    ensures var offences := |Picked(cards, team, season, {Yellow, Red}, Some(week))|;
      var reds := |Picked(cards, team, season, {Red}, Some(week))|;
      Due(cards, team, season, week) == if offences % 3 == 2 then (Red, reds + 1) else (Yellow, 0)
  {
    CountsExactly(cards, team, season, {Yellow, Red}, Some(week));
    CountsExactly(cards, team, season, {Red}, Some(week));
    OneShort(|Picked(cards, team, season, {Yellow, Red}, Some(week))|);
  }

  lemma OneShort(n: nat)
    ensures (n + 1) % 3 == 0 <==> n % 3 == 2
  {
  }

  /** Only offences that are numbered 3, 6, 9, ... are red. */
  lemma ThirdsAreRed(offence: int, reds: int)
    ensures CardDueForOffence(offence, reds)
      == if exists k: nat :: k >= 1 && offence == 3 * k then (Red, reds + 1) else (Yellow, 0)
  {
    if offence > 0 && offence % 3 == 0 {
      assert offence == 3 * (offence / 3);
    }
  }

  /** Issuing the card due adds it as the newest row, with points if it is red. */
  lemma IssuedExactly(cards: seq<Card>, team: int, season: int, week: int)
    ensures var u := IssueDue(cards, team, season, week);
      var reds := |Picked(cards, team, season, {Red}, Some(week))|;
      && |u| == |cards| + 1 && u[..|cards|] == cards
      && var c := u[|cards|];
         && c.id == |cards| && c.team == team && c.season == season && c.week == week && c.live
         && c.reason == NonSubmission
         && (c.colour == Red <==> |Picked(cards, team, season, {Yellow, Red}, Some(week))| % 3 == 2)
         && c.points == if c.colour == Red then Some(reds + 1) else None
  {
    DueExactly(cards, team, season, week);
  }

  /** Only live red cards for a missed report take points away, each its own. */
  lemma DeductionsExactly(cards: seq<Card>, c: Card, team: int, season: int)
    ensures Deductions([], team, season) == 0
    ensures Deductions(cards + [c], team, season) - Deductions(cards, team, season)
      == if c.team == team && c.season == season && c.live && c.reason == NonSubmission && c.colour == Red
           && c.points != None
         then c.points.value else 0
  {
    assert (cards + [c])[..|cards|] == cards;
  }

  /** The compliance page leaves no week out. */
  lemma SuggestedExactly(cards: seq<Card>, team: int, season: int)
    ensures Suggested(cards, team, season)
      == if |Picked(cards, team, season, {Yellow, Red}, None)| % 3 == 2 then Red else Yellow
  {
    ColoursAddUp(cards, team, season, None);
    CountsExactly(cards, team, season, {Yellow, Red}, None);
    OneShort(|Picked(cards, team, season, {Yellow, Red}, None)|);
  }

  predicate OfWeek(c: Card, team: int, season: int, week: int) {
    c.team == team && c.season == season && c.week == week && c.live
  }

  /** The card shown is the last one issued of the week's live cards, whatever it was for. */
  lemma {:induction false} CurrentExactly(cards: seq<Card>, team: int, season: int, week: int)
    ensures Current(cards, team, season, week) == None ==>
      forall c | c in cards :: !OfWeek(c, team, season, week)
    ensures Current(cards, team, season, week) != None ==>
      exists i | 0 <= i < |cards| ::
        && cards[i] == Current(cards, team, season, week).value && OfWeek(cards[i], team, season, week)
        && forall j | i < j < |cards| :: !OfWeek(cards[j], team, season, week)
    decreases |cards|
  {
    if cards != [] {
      var n := |cards| - 1;
      CurrentExactly(cards[..n], team, season, week);
      if OfWeek(cards[n], team, season, week) {
        assert cards[n] == Current(cards, team, season, week).value;
      } else if Current(cards, team, season, week) != None {
        var i :| 0 <= i < n && cards[..n][i] == Current(cards, team, season, week).value
          && OfWeek(cards[..n][i], team, season, week)
          && forall j | i < j < n :: !OfWeek(cards[..n][j], team, season, week);
        assert cards[i] == cards[..n][i];
        forall j | i < j < |cards| ensures !OfWeek(cards[j], team, season, week) {
          assert j < n ==> cards[..n][j] == cards[j];
        }
      }
    }
  }

  /**
   * A card for something else is shown as it is, and any red card keeps its own points if it is the
   * colour shown; otherwise the row shows what is due.
   */
  lemma AdjustedExactly(due: (Colour, int), existing: Option<Card>)
    ensures existing == None ==> Adjusted(due, existing) == due
    ensures existing.Some? && existing.value.reason == OtherReason ==>
      && Adjusted(due, existing).0 == existing.value.colour
      && Adjusted(due, existing).1
         == if existing.value.colour == Red && existing.value.points != None then existing.value.points.value else due.1
    ensures existing.Some? && existing.value.reason == NonSubmission ==>
      && Adjusted(due, existing).0 == due.0
      && Adjusted(due, existing).1
         == if existing.value.colour == Red && due.0 == Red && existing.value.points != None
            then existing.value.points.value else due.1
  {
  }

  /** A team has a row if it is active and owes a report or has a card. */
  lemma RowsExactly(db: Db, cards: seq<Card>, season: int, w: Week, teams: seq<Team>, team: Team)
    ensures ReportedTeams(db, cards, season, w, []) == []
    ensures ReportedTeams(db, cards, season, w, teams + [team])
      == ReportedTeams(db, cards, season, w, teams) + if HasRow(db, cards, season, w, team) then [team] else []
  {
    assert (teams + [team])[..|teams|] == teams;
    CardOfWeek(cards, team.id, season, w.id);
  }

  predicate HasRow(db: Db, cards: seq<Card>, season: int, w: Week, team: Team) {
    && team.active
    && (FixtureCount(db, team, w) > SubmitCount(db, team, w)
        || exists c :: c in cards && OfWeek(c, team.id, season, w.id))
  }

  lemma CardOfWeek(cards: seq<Card>, team: int, season: int, week: int)
    ensures Current(cards, team, season, week) != None <==> exists c :: c in cards && OfWeek(c, team, season, week)
  {
    CurrentExactly(cards, team, season, week);
  }

  function RowPlaces(rows: seq<ReportRow>, p: ReportRow -> bool): set<int> {
    set i | 0 <= i < |rows| && p(rows[i])
  }

  lemma RowPlacesMore(rows: seq<ReportRow>, p: ReportRow -> bool)
    requires rows != []
    ensures var n := |rows| - 1;
      && n !in RowPlaces(rows[..n], p)
      && RowPlaces(rows, p) == RowPlaces(rows[..n], p) + if p(rows[n]) then {n} else {}
  {
    var n := |rows| - 1;
    assert forall i | 0 <= i < n :: rows[..n][i] == rows[i];
  }

  /** The page's numbers count rows. */
  lemma {:induction false} RowCountsExactly(rows: seq<ReportRow>, p: ReportRow -> bool)
    ensures CountRows(rows, p) == |RowPlaces(rows, p)|
    decreases |rows|
  {
    if rows != [] {
      RowCountsExactly(rows[..|rows| - 1], p);
      RowPlacesMore(rows, p);
    }
  }

  lemma RowKinds(r: ReportRow)
    ensures IsRed(r) <==> r.due == Red
    ensures IsIssued(r) <==> r.existing != None
  {
  }
}
