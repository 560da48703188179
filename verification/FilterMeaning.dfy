/** What each field of the page filters may hold and where it comes from, with every choice written out. */
module FilterMeaning {
  import opened Common
  import opened Text
  import opened Filters

  /** The text sent under a key, or none. */
  predicate Sent(v: Values, k: Key, text: string) {
    (k in v ==> text == v[k]) && (k !in v ==> text == "")
  }

  lemma SentExactly(v: Values, k: Key)
    ensures Sent(v, k, Get(v, k))
  {
  }

  // -------- dates --------

  const MONTHS := [31, 28, 31, 30, 31, 30, 31, 31, 30, 31, 30, 31]

  predicate Leap(year: int) {
    year % 4 == 0 && (year % 400 == 0 || year % 100 != 0)
  }

  function MonthLength(year: int, month: int): int
    requires 1 <= month <= 12
  {
    MONTHS[month - 1] + if month == 2 && Leap(year) then 1 else 0
  }

  lemma LengthsExactly(year: int, month: int)
    requires 1 <= month <= 12
    ensures DaysIn(year, month) == MonthLength(year, month)
  {
    var lengths := MONTHS;
    assert lengths[0] == 31 && lengths[1] == 28 && lengths[2] == 31 && lengths[3] == 30 && lengths[4] == 31;
    assert lengths[5] == 30 && lengths[6] == 31 && lengths[7] == 31 && lengths[8] == 30 && lengths[9] == 31;
    assert lengths[10] == 30 && lengths[11] == 31;
  }

  predicate AllDigits(s: string) {
    forall k | 0 <= k < |s| :: '0' <= s[k] <= '9'
  }

  /** Four digits, two and two, with hyphens between. */
  predicate Written(s: string, year: nat, month: nat, day: nat) {
    && |s| == 10 && s[4] == '-' && s[7] == '-'
    && AllDigits(s[..4]) && AllDigits(s[5..7]) && AllDigits(s[8..])
    && Digits(s[..4]) == year && Digits(s[5..7]) == month && Digits(s[8..]) == day
  }

  lemma TwoDigitsExactly(a: char, b: char)
    requires '0' <= a <= '9' && '0' <= b <= '9'
    ensures Digits([a]) == a as int - '0' as int && Digits([a, b]) == TwoDigits(a, b)
  {
    assert [a, b][..1] == [a] && [a][..0] == "";
  }

  lemma FourDigitsExactly(a: char, b: char, c: char, d: char)
    requires '0' <= a <= '9' && '0' <= b <= '9' && '0' <= c <= '9' && '0' <= d <= '9'
    ensures Digits([a, b, c, d]) == 100 * TwoDigits(a, b) + TwoDigits(c, d)
  {
    TwoDigitsExactly(a, b);
    assert [a, b, c, d][..3] == [a, b, c] && [a, b, c][..2] == [a, b];
  }

  lemma WrittenExactly(s: string)
    requires |s| == 10 && s[4] == '-' && s[7] == '-' && AllDigits(s[..4]) && AllDigits(s[5..7]) && AllDigits(s[8..])
    ensures forall k | 0 <= k < 10 && k != 4 && k != 7 :: IsDigit(s[k])
    ensures Digits(s[..4]) == 100 * TwoDigits(s[0], s[1]) + TwoDigits(s[2], s[3])
    ensures Digits(s[5..7]) == TwoDigits(s[5], s[6]) && Digits(s[8..]) == TwoDigits(s[8], s[9])
  {
    var year, month, day := s[..4], s[5..7], s[8..];
    assert year == [year[0], year[1], year[2], year[3]] && month == [month[0], month[1]] && day == [day[0], day[1]];
    assert forall k | 0 <= k < 4 :: s[k] == year[k];
    assert forall k | 0 <= k < 2 :: s[5 + k] == month[k] && s[8 + k] == day[k];
    FourDigitsExactly(year[0], year[1], year[2], year[3]);
    TwoDigitsExactly(month[0], month[1]);
    TwoDigitsExactly(day[0], day[1]);
  }

  /** A date is a day of the calendar, written so. */
  lemma DateExactly(s: string)
    ensures IsDate(s) <==>
      exists year: nat, month: nat, day: nat ::
        Written(s, year, month, day) && 1 <= month <= 12 && 1 <= day <= MonthLength(year, month)
  {
    if IsDate(s) {
      assert AllDigits(s[..4]) && AllDigits(s[5..7]) && AllDigits(s[8..]);
      WrittenExactly(s);
      var year, month, day := Digits(s[..4]), Digits(s[5..7]), Digits(s[8..]);
      LengthsExactly(year, month);
      assert Written(s, year, month, day);
    }
    if year: nat, month: nat, day: nat :|
      Written(s, year, month, day) && 1 <= month <= 12 && 1 <= day <= MonthLength(year, month) {
      WrittenExactly(s);
      LengthsExactly(year, month);
    }
  }

  /** A text stands before another at the first place where they differ, or by ending there. */
  predicate Earlier(a: string, b: string, k: nat) {
    && k <= |a| && k < |b| && a[..k] == b[..k] && (k == |a| || a[k] < b[k])
  }

  lemma {:induction false} BeforeExactly(a: string, b: string)
    ensures Before(a, b) <==> exists k :: Earlier(a, b, k)
    decreases |a|
  {
    if a == "" && b != "" {
      assert Earlier(a, b, 0);
    } else if b != "" {
      BeforeExactly(a[1..], b[1..]);
      if a[0] < b[0] {
        assert Earlier(a, b, 0);
      }
      if k: nat :| Earlier(a[1..], b[1..], k) && a[0] == b[0] {
        assert a[..k + 1] == [a[0]] + a[1..][..k] && b[..k + 1] == [b[0]] + b[1..][..k];
        assert Earlier(a, b, k + 1);
      }
      if k: nat :| Earlier(a, b, k) && k > 0 {
        assert a[0] == a[..k][0] && b[0] == b[..k][0];
        assert a[1..][..k - 1] == a[..k][1..] && b[1..][..k - 1] == b[..k][1..];
        assert Earlier(a[1..], b[1..], k - 1);
      }
    }
  }

  /** Two dates are exchanged if they stand the wrong way round; other texts count as none. */
  predicate Dates(first: string, second: string, from: string, to: string) {
    var a, b := if IsDate(Trim(first)) then Trim(first) else "", if IsDate(Trim(second)) then Trim(second) else "";
    if a != "" && b != "" && Before(b, a) then from == b && to == a else from == a && to == b
  }

  // -------- pages --------

  lemma NumberExactly(d: string)
    requires d != "" && AllDigits(d)
    ensures Atoi(d) == Some(Digits(d)) == Atoi("+" + d) && Atoi("-" + d) == Some(-(Digits(d) as int))
  {
    assert ("+" + d)[1..] == d && ("-" + d)[1..] == d;
    assert d[0] != '+' && d[0] != '-';
    assert IsNumber(d);
  }

  /** A number of digits, with a plus sign or without, from one to a million; anything else is the first page. */
  lemma PageExactly(d: string)
    requires d != "" && AllDigits(d)
    ensures ParsePage(d) == if 1 <= Digits(d) <= 1000000 then Digits(d) else 1
    ensures ParsePage("+" + d) == ParsePage(d) && ParsePage("-" + d) == 1 && ParsePage("") == 1
  {
    NumberExactly(d);
  }

  lemma NoPage(s: string, k: nat)
    requires k < |s| && !('0' <= s[k] <= '9') && (k == 0 ==> s[0] != '+' && s[0] != '-')
    ensures ParsePage(s) == 1
  {
    var signed := s[0] == '-' || s[0] == '+';
    var digits := if signed then s[1..] else s;
    assert digits[if signed then k - 1 else k] == s[k];
    assert !IsNumber(digits) && Atoi(s) == None;
  }

  // -------- the filter of the case list --------

  /** One of the listed texts, or else the standing one. */
  predicate Chosen(s: string, allowed: seq<string>, otherwise: string, r: string) {
    (s in allowed ==> r == s) && (s !in allowed ==> r == otherwise)
  }

  lemma ChosenExactly(s: string, allowed: seq<string>, otherwise: string)
    ensures Chosen(s, allowed, otherwise, Pick(s, allowed, otherwise))
  {
  }

  lemma GroupsExactly(s: string)
    ensures s in GROUPS <==>
      || s == "" || s == "live" || s == "investigating" || s == "new_replies" || s == "owner_review"
      || s == "awaiting_decision" || s == "awaiting_denver" || s == "responses_due" || s == "responses_overdue"
      || s == "delivery_exceptions" || s == "closed"
  {
    var g := GROUPS;
    assert g[0] == "" && g[1] == "live" && g[2] == "investigating" && g[3] == "new_replies" && g[4] == "owner_review";
    assert g[5] == "awaiting_decision" && g[6] == "awaiting_denver" && g[7] == "responses_due";
    assert g[8] == "responses_overdue" && g[9] == "delivery_exceptions" && g[10] == "closed";
  }

  lemma StatusesExactly(s: string)
    ensures s in STATUSES <==>
      || s == "" || s == "submitted" || s == "triage" || s == "investigating" || s == "response_pending"
      || s == "decision_proposed" || s == "approved" || s == "published" || s == "appealed" || s == "closed"
      || s == "rejected" || s == "withdrawn"
  {
    var c := STATUSES;
    assert c[0] == "" && c[1] == "submitted" && c[2] == "triage" && c[3] == "investigating";
    assert c[4] == "response_pending";
    assert c[5] == "decision_proposed" && c[6] == "approved" && c[7] == "published" && c[8] == "appealed";
    assert c[9] == "closed" && c[10] == "rejected" && c[11] == "withdrawn";
  }

  /** Where the group comes from: an old link to the unreviewed replies leads to that group. */
  function GroupAsked(v: Values): string {
    if Get(v, Group) == "" && Get(v, ReplyStatus) == "unreviewed" then "new_replies" else Get(v, Group)
  }

  lemma CaseFields(v: Values)
    ensures var f := ParseCase(v);
      && f.view == (if Get(v, View) == "history" then "history" else "cases")
      && f.scope == (if Get(v, Scope) == "mine" then "mine" else if Get(v, Scope) == "action" then "action" else "all")
      && Chosen(GroupAsked(v), GROUPS, "", f.group)
      && f.query == Trim(Get(v, Query)) && Chosen(Trim(Get(v, CaseStatus)), STATUSES, "", f.status)
      && Dates(Get(v, FixtureFrom), Get(v, FixtureTo), f.from, f.to)
      && (f.training <==> Get(v, Training) == "1") && f.page == ParsePage(Get(v, Page))
  {
  }

  // -------- the filter of the report queue --------

  lemma QueueFields(v: Values)
    ensures var f := Tidied(CHOICES, Raw(v));
      && f.search == Trim(Get(v, Query)) && f.reportingClub == Trim(Get(v, ReportingClub))
      && f.offendingClub == Trim(Get(v, OffendingClub)) && f.team == Trim(Get(v, Team))
      && f.player == Trim(Get(v, Player)) && f.assignee == Trim(Get(v, Assignee))
      && (f.live <==> Get(v, Live) == "1") && (f.training <==> Get(v, Training) == "1")
      && (f.pending <==> Get(v, PendingSelection) == "1")
      && Dates(Get(v, FixtureFrom), Get(v, FixtureTo), f.from, f.to)
  {
    DatesOnce(Get(v, FixtureFrom), Get(v, FixtureTo));
  }

  lemma DatesOnce(first: string, second: string)
    ensures var (from, to) := InOrder(ParseDate(first), ParseDate(second)); Dates(first, second, from, to)
  {
    assert ParseDate("") == "";
  }

  lemma QueueChoices(v: Values)
    ensures var f := Tidied(CHOICES, Raw(v));
      && Chosen(Trim(Get(v, State)), CHOICES.states, "open", f.state)
      && Chosen(Trim(Get(v, Origin)), CHOICES.origins, "", f.origin)
      && Chosen(Trim(Get(v, CaseStatus)), STATUSES, "", f.caseStatus)
      && Chosen(Trim(Get(v, ReplyStatus)), CHOICES.replies, "", f.replyStatus)
      && Chosen(Trim(Get(v, Age)), CHOICES.ages, "", f.age)
      && Chosen(Trim(Get(v, Worklist)), CHOICES.worklists, "visible", f.worklist)
      && Chosen(Trim(Get(v, Sort)), CHOICES.sorts, "newest", f.sort)
      && f.scope == if Trim(Get(v, Scope)) == "mine" && Trim(Get(v, Worklist)) != "deferred" then "mine" else "all"
  {
    WorklistsExactly(Trim(Get(v, Worklist)));
  }

  lemma StatesExactly(s: string)
    ensures s in CHOICES.states <==>
      || s == "open" || s == "all" || s == "new" || s == "reviewing" || s == "linked" || s == "duplicate"
      || s == "ignored" || s == "exception"
    ensures s in CHOICES.origins <==>
      s == "" || s == "google_form" || s == "native_form" || s == "starred_player" || s == "tracker_backfill"
  {
    var c, o := CHOICES.states, CHOICES.origins;
    assert c[0] == "open" && c[1] == "all" && c[2] == "new" && c[3] == "reviewing" && c[4] == "linked";
    assert c[5] == "duplicate" && c[6] == "ignored" && c[7] == "exception";
    assert o[0] == "" && o[1] == "google_form" && o[2] == "native_form" && o[3] == "starred_player";
    assert o[4] == "tracker_backfill";
  }

  lemma RepliesExactly(s: string)
    ensures s in CHOICES.replies <==> s == "" || s == "unreviewed" || s == "received"
    ensures s in CHOICES.ages <==> s == "" || s == "2d" || s == "7d" || s == "14d" || s == "30d"
  {
    var r, a := CHOICES.replies, CHOICES.ages;
    assert r[0] == "" && r[1] == "unreviewed" && r[2] == "received";
    assert a[0] == "" && a[1] == "2d" && a[2] == "7d" && a[3] == "14d" && a[4] == "30d";
  }

  lemma WorklistsExactly(s: string)
    ensures s in CHOICES.worklists <==> s == "visible" || s == "deferred" || s == "all"
    ensures s in CHOICES.sorts <==> s == "newest" || s == "oldest" || s == "fixture_newest" || s == "fixture_oldest"
    ensures CHOICES.statuses == STATUSES
  {
    var w, o := CHOICES.worklists, CHOICES.sorts;
    assert w[0] == "visible" && w[1] == "deferred" && w[2] == "all";
    assert o[0] == "newest" && o[1] == "oldest" && o[2] == "fixture_newest" && o[3] == "fixture_oldest";
  }

  // -------- the links --------

  /** The case list's link carries the view and the scope, and the other texts where they say something. */
  lemma CaseLink(f: CaseFilter, page: int)
    ensures CaseText(f, page, View) == f.view && CaseText(f, page, Scope) == f.scope
    ensures CaseText(f, page, Group) == f.group && CaseText(f, page, Query) == f.query
    ensures CaseText(f, page, CaseStatus) == f.status
    ensures CaseText(f, page, FixtureFrom) == f.from && CaseText(f, page, FixtureTo) == f.to
    ensures CaseText(f, page, Training) == if f.training then "1" else ""
    ensures CaseText(f, page, Page) == if page >= 2 then Itoa(page) else ""
    ensures forall k: Key | k.ReplyStatus? || k.State? || k.Worklist? || k.Sort? || k.Origin? || k.ReportingClub?
      || k.OffendingClub? || k.Team? || k.Player? || k.Assignee? || k.Age? || k.Live? || k.PendingSelection? ::
      CaseText(f, page, k) == ""
  {
  }

  /** A tab's link carries what the tab sets, the switches, and no page and no group. */
  lemma QueueLink(f: QueueFilter, scope: string, state: string, worklist: string)
    ensures QueueText(f, scope, state, worklist, View) == "reports"
    ensures QueueText(f, scope, state, worklist, Scope) == scope
    ensures QueueText(f, scope, state, worklist, State) == state
    ensures QueueText(f, scope, state, worklist, Worklist) == worklist
    ensures QueueText(f, scope, state, worklist, Training) == if f.training then "1" else ""
    ensures QueueText(f, scope, state, worklist, Live) == if f.live then "1" else ""
    ensures QueueText(f, scope, state, worklist, PendingSelection) == if f.pending then "1" else ""
    ensures QueueText(f, scope, state, worklist, Page) == "" == QueueText(f, scope, state, worklist, Group)
  {
  }

  /** And the filter's own texts. */
  lemma QueueLinkTexts(f: QueueFilter, scope: string, state: string, worklist: string)
    ensures QueueText(f, scope, state, worklist, Sort) == f.sort
    ensures QueueText(f, scope, state, worklist, Origin) == f.origin
    ensures QueueText(f, scope, state, worklist, Query) == f.search
    ensures QueueText(f, scope, state, worklist, ReportingClub) == f.reportingClub
    ensures QueueText(f, scope, state, worklist, OffendingClub) == f.offendingClub
    ensures QueueText(f, scope, state, worklist, Team) == f.team
    ensures QueueText(f, scope, state, worklist, Player) == f.player
    ensures QueueText(f, scope, state, worklist, Assignee) == f.assignee
    ensures QueueText(f, scope, state, worklist, CaseStatus) == f.caseStatus
    ensures QueueText(f, scope, state, worklist, ReplyStatus) == f.replyStatus
    ensures QueueText(f, scope, state, worklist, Age) == f.age
    ensures QueueText(f, scope, state, worklist, FixtureFrom) == f.from
    ensures QueueText(f, scope, state, worklist, FixtureTo) == f.to
  {
  }
}
