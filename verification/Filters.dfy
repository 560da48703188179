/** The filters of the ineligible-player pages: read from a query string, normalised, and printed into links. */
module Filters {
  import opened Common
  import opened Text

  datatype Key =
    | View | Scope | Group | Query | CaseStatus | FixtureFrom | FixtureTo | Training | Page | ReplyStatus
    | State | Worklist | Sort | Origin | ReportingClub | OffendingClub | Team | Player | Assignee | Age | Live
    | PendingSelection

  /** The decoded query string, one value for each key. */
  type Values = map<Key, string>

  function Get(v: Values, k: Key): string {
    if k in v then v[k] else ""
  }

  function Flag(on: bool): string {
    if on then "1" else ""
  }

  function Pick(s: string, allowed: seq<string>, otherwise: string): string {
    if s in allowed then s else otherwise
  }

  // -------- dates --------

  function TwoDigits(a: char, b: char): int {
    10 * (a as int - '0' as int) + (b as int - '0' as int)
  }

  function DaysIn(year: int, month: int): int {
    if month == 2 then (if year % 4 == 0 && (year % 100 != 0 || year % 400 == 0) then 29 else 28)
    else if month == 4 || month == 6 || month == 9 || month == 11 then 30 else 31
  }

  /** A calendar date written as year, month and day. */
  predicate IsDate(s: string) {
    && |s| == 10 && s[4] == '-' && s[7] == '-'
    && (forall k | 0 <= k < 10 && k != 4 && k != 7 :: IsDigit(s[k]))
    && var year := 100 * TwoDigits(s[0], s[1]) + TwoDigits(s[2], s[3]);
    var month, day := TwoDigits(s[5], s[6]), TwoDigits(s[8], s[9]);
      1 <= month <= 12 && 1 <= day <= DaysIn(year, month)
  }

  /** A date is printed as it was written, and anything else is no date. */
  function ParseDate(s: string): (d: string)
    ensures d == "" || IsDate(d)
    ensures IsDate(s) ==> d == s
  {
    if IsDate(Trim(s)) then Trim(s) else ""
  }

  /** Go's order on strings. */
  predicate Before(a: string, b: string) {
    b != "" && (a == "" || a[0] < b[0] || (a[0] == b[0] && Before(a[1..], b[1..])))
  }

  lemma {:induction false} BeforeIsStrict(a: string, b: string)
    ensures !(Before(a, b) && Before(b, a))
    decreases |a|
  {
    if a != "" && b != "" {
      BeforeIsStrict(a[1..], b[1..]);
    }
  }

  /** Two dates that are both given are put in order. */
  function InOrder(from: string, to: string): (string, string) {
    if from != "" && to != "" && Before(to, from) then (to, from) else (from, to)
  }

  predicate Ordered(from: string, to: string) {
    && (from == "" || IsDate(from)) && (to == "" || IsDate(to))
    && (from != "" && to != "" ==> !Before(to, from))
  }

  lemma DatesInOrder(from: string, to: string)
    ensures var (a, b) := InOrder(ParseDate(from), ParseDate(to)); Ordered(a, b)
    ensures Ordered(from, to) ==> InOrder(ParseDate(from), ParseDate(to)) == (from, to)
  {
    BeforeIsStrict(ParseDate(from), ParseDate(to));
    assert ParseDate("") == "";
  }

  // -------- page numbers --------

  predicate IsNumber(s: string) {
    s != "" && forall k | 0 <= k < |s| :: IsDigit(s[k])
  }

  /** strconv.Atoi, for numbers of any size: a sign is allowed, and nothing but digits after it. */
  function Atoi(s: string): Option<int> {
    var signed := s != "" && (s[0] == '-' || s[0] == '+');
    var digits := if signed then s[1..] else s;
    if !IsNumber(digits) then None
    else Some(if signed && s[0] == '-' then -(Digits(digits) as int) else Digits(digits))
  }

  const LAST_PAGE := 1000000

  function ParsePage(s: string): (page: int)
    ensures 1 <= page <= LAST_PAGE
  {
    var n := Atoi(s);
    if n.Some? && 0 < n.value <= LAST_PAGE then n.value else 1
  }

  function PrintPage(page: int): string {
    if page > 1 then Itoa(page) else ""
  }

  /** A page number survives exactly when it is one that the page accepts. */
  lemma PageRoundTrip(page: int)
    ensures ParsePage(PrintPage(page)) == page <==> 1 <= page <= LAST_PAGE
  {
    if page > 1 {
      DigitsOfItoa(page);
      assert IsNumber(Itoa(page));
      assert IsDigit(Itoa(page)[0]);
      assert Atoi(Itoa(page)) == Some(page);
    } else {
      assert Atoi("").None?;
    }
  }

  // -------- the filter of the case list --------

  datatype CaseFilter = CaseFilter(
    view: string, scope: string, group: string, query: string, status: string,
    from: string, to: string, training: bool, page: int)

  const GROUPS := [
    "", "live", "investigating", "new_replies", "owner_review", "awaiting_decision", "awaiting_denver",
    "responses_due", "responses_overdue", "delivery_exceptions", "closed"]

  const STATUSES := [
    "", "submitted", "triage", "investigating", "response_pending", "decision_proposed", "approved", "published",
    "appealed", "closed", "rejected", "withdrawn"]

  function ParseCase(v: Values): CaseFilter {
    var group := if Get(v, Group) == "" && Get(v, ReplyStatus) == "unreviewed" then "new_replies" else Get(v, Group);
    var (from, to) := InOrder(ParseDate(Get(v, FixtureFrom)), ParseDate(Get(v, FixtureTo)));
    CaseFilter(
      Pick(Get(v, View), ["history"], "cases"), Pick(Get(v, Scope), ["mine", "action"], "all"), Pick(group, GROUPS, ""),
      Trim(Get(v, Query)), Pick(Trim(Get(v, CaseStatus)), STATUSES, ""), from, to, Get(v, Training) == "1",
      ParsePage(Get(v, Page)))
  }

  /** The text a link carries under each key. */
  function CaseText(f: CaseFilter, page: int, k: Key): string {
    match k
    case View => f.view
    case Scope => f.scope
    case Group => f.group
    case Query => f.query
    case CaseStatus => f.status
    case FixtureFrom => f.from
    case FixtureTo => f.to
    case Training => Flag(f.training)
    case Page => PrintPage(page)
    case _ => ""
  }

  const CASE_KEYS := [View, Scope, Group, Query, CaseStatus, FixtureFrom, FixtureTo, Training, Page, ReplyStatus]
  const QUEUE_KEYS := [
    State, Worklist, Sort, Origin, ReportingClub, OffendingClub, Team, Player, Assignee, Age, Live, PendingSelection]

  lemma AllKeys(k: Key)
    ensures k in CASE_KEYS || k in QUEUE_KEYS
  {
    var c, q := CASE_KEYS, QUEUE_KEYS;
    assert c[0] == View && c[1] == Scope && c[2] == Group && c[3] == Query && c[4] == CaseStatus;
    assert c[5] == FixtureFrom && c[6] == FixtureTo && c[7] == Training && c[8] == Page && c[9] == ReplyStatus;
    assert q[0] == State && q[1] == Worklist && q[2] == Sort && q[3] == Origin && q[4] == ReportingClub;
    assert q[5] == OffendingClub && q[6] == Team && q[7] == Player && q[8] == Assignee && q[9] == Age;
    assert q[10] == Live && q[11] == PendingSelection;
  }

  /** The loop of the two printers: every text that is not empty is set. */
  method SetAll(texts: Key -> string) returns (v: Values)
    ensures forall k: Key :: Get(v, k) == texts(k)
  {
    v := map[];
    var keys := CASE_KEYS + QUEUE_KEYS;
    for i := 0 to |keys|
      invariant forall k: Key :: Get(v, k) == if k in keys[..i] then texts(k) else ""
    {
      if texts(keys[i]) != "" {
        v := v[keys[i] := texts(keys[i])];
      }
      assert keys[..i + 1] == keys[..i] + [keys[i]];
    }
    assert keys[..|keys|] == keys;
    forall k: Key ensures k in keys {
      AllKeys(k);
    }
  }

  /** ineligibleCaseFilterURL */
  method PrintCase(f: CaseFilter, page: int) returns (v: Values)
    ensures forall k: Key :: Get(v, k) == CaseText(f, page, k)
  {
    v := SetAll(k => CaseText(f, page, k));
  }

  /** The filters that parsing can yield. */
  predicate NormalCase(f: CaseFilter) {
    && f.view in ["history", "cases"] && f.scope in ["mine", "action", "all"] && f.group in GROUPS
      && f.status in STATUSES
    && Trimmed(f.query) && Trimmed(f.status) && Ordered(f.from, f.to) && 1 <= f.page <= LAST_PAGE
  }

  lemma CaseParsesNormal(v: Values)
    ensures NormalCase(ParseCase(v))
  {
    TrimStable(Get(v, Query));
    TrimStable(Get(v, CaseStatus));
    DatesInOrder(Get(v, FixtureFrom), Get(v, FixtureTo));
    assert "" == GROUPS[0] && "" == STATUSES[0];
  }

  /**
   * A printed filter reads back as it was, with the page that the link is for, exactly when that is a
   * page. Only the texts under the keys matter.
   */
  lemma CaseRoundTrip(f: CaseFilter, page: int, v: Values)
    requires NormalCase(f)
    requires forall k: Key :: Get(v, k) == CaseText(f, page, k)
    ensures ParseCase(v) == f.(page := page) <==> 1 <= page <= LAST_PAGE
  {
    CaseTexts(f, page, v);
    ReadsBack(f, PrintPage(page), v);
    PageRoundTrip(page);
  }

  lemma CaseTexts(f: CaseFilter, page: int, v: Values)
    requires forall k: Key :: Get(v, k) == CaseText(f, page, k)
    ensures Get(v, View) == f.view && Get(v, Scope) == f.scope && Get(v, Group) == f.group
    ensures Get(v, Query) == f.query && Get(v, CaseStatus) == f.status && Get(v, ReplyStatus) == ""
    ensures Get(v, FixtureFrom) == f.from && Get(v, FixtureTo) == f.to
    ensures Get(v, Training) == Flag(f.training) && Get(v, Page) == PrintPage(page)
  {
  }

  lemma ReadsBack(f: CaseFilter, page: string, v: Values)
    requires NormalCase(f)
    requires Get(v, View) == f.view && Get(v, Scope) == f.scope && Get(v, Group) == f.group
    requires Get(v, Query) == f.query && Get(v, CaseStatus) == f.status && Get(v, ReplyStatus) == ""
    requires Get(v, FixtureFrom) == f.from && Get(v, FixtureTo) == f.to
    requires Get(v, Training) == Flag(f.training) && Get(v, Page) == page
    ensures ParseCase(v) == f.(page := ParsePage(page))
  {
    TrimStable(f.query);
    TrimStable(f.status);
    DatesInOrder(f.from, f.to);
  }

  // -------- the filter of the report queue --------

  datatype QueueFilter = QueueFilter(
    state: string, origin: string, reportingClub: string, offendingClub: string, team: string, player: string,
    search: string, assignee: string, caseStatus: string, replyStatus: string, age: string, scope: string,
    worklist: string, sort: string, from: string, to: string, live: bool, training: bool, pending: bool)

  /** The values that each of the choices may have. */
  datatype Choices = Choices(
    states: seq<string>, origins: seq<string>, statuses: seq<string>, replies: seq<string>, ages: seq<string>,
    worklists: seq<string>, sorts: seq<string>)

  const CHOICES := Choices(
    ["open", "all", "new", "reviewing", "linked", "duplicate", "ignored", "exception"],
    ["", "google_form", "native_form", "starred_player", "tracker_backfill"],
    STATUSES,
    ["", "unreviewed", "received"],
    ["", "2d", "7d", "14d", "30d"],
    ["visible", "deferred", "all"],
    ["newest", "oldest", "fixture_newest", "fixture_oldest"])

  /** The filter as it was typed. */
  function Typed(v: Values): QueueFilter {
    QueueFilter(
      Get(v, State), Get(v, Origin), Get(v, ReportingClub), Get(v, OffendingClub), Get(v, Team), Get(v, Player),
      Get(v, Query), Get(v, Assignee), Get(v, CaseStatus), Get(v, ReplyStatus), Get(v, Age), Get(v, Scope),
      Get(v, Worklist), Get(v, Sort), Get(v, FixtureFrom), Get(v, FixtureTo),
      Get(v, Live) == "1", Get(v, Training) == "1", Get(v, PendingSelection) == "1")
  }

  /** Texts without blanks around them, and dates only. */
  function Cleaned(f: QueueFilter): QueueFilter {
    QueueFilter(
      Trim(f.state), Trim(f.origin), Trim(f.reportingClub), Trim(f.offendingClub), Trim(f.team), Trim(f.player),
      Trim(f.search), Trim(f.assignee), Trim(f.caseStatus), Trim(f.replyStatus), Trim(f.age), Trim(f.scope),
      Trim(f.worklist), Trim(f.sort), ParseDate(f.from), ParseDate(f.to), f.live, f.training, f.pending)
  }

  function Raw(v: Values): QueueFilter {
    Cleaned(Typed(v))
  }

  /** Hidden reports belong to no case, so that nobody's own hidden reports are all hidden reports. */
  function TidyScope(scope: string, worklist: string): string {
    if scope == "mine" && worklist != "deferred" then "mine" else "all"
  }

  function Tidied(c: Choices, f: QueueFilter): QueueFilter {
    var (from, to) := InOrder(f.from, f.to);
    var worklist := Pick(f.worklist, c.worklists, "visible");
    f.(
      state := Pick(f.state, c.states, "open"), origin := Pick(f.origin, c.origins, ""),
      caseStatus := Pick(f.caseStatus, c.statuses, ""), replyStatus := Pick(f.replyStatus, c.replies, ""),
      age := Pick(f.age, c.ages, ""), worklist := worklist, scope := TidyScope(f.scope, worklist),
      sort := Pick(f.sort, c.sorts, "newest"), from := from, to := to)
  }

  /** parseIneligibleQueueFilters, which puts one field after another right. */
  method ParseQueueFilters(v: Values) returns (f: QueueFilter)
    ensures f == Tidied(CHOICES, Raw(v))
  {
    f := Tidy(CHOICES, Raw(v));
  }

  method Tidy(c: Choices, raw: QueueFilter) returns (f: QueueFilter)
    ensures f == Tidied(c, raw)
  {
    f := raw;
    f := f.(state := Pick(f.state, c.states, "open"));
    f := f.(origin := Pick(f.origin, c.origins, ""));
    f := f.(caseStatus := Pick(f.caseStatus, c.statuses, ""));
    f := f.(replyStatus := Pick(f.replyStatus, c.replies, ""));
    f := f.(age := Pick(f.age, c.ages, ""));
    f := f.(worklist := Pick(f.worklist, c.worklists, "visible"));
    if f.scope != "mine" && f.scope != "all" {
      f := f.(scope := "all");
    }
    if f.scope == "mine" && f.worklist == "deferred" {
      f := f.(scope := "all");
    }
    f := f.(sort := Pick(f.sort, c.sorts, "newest"));
    if f.from != "" && f.to != "" && Before(f.to, f.from) {
      f := f.(from := f.to, to := f.from);
    }
  }

  function QueueText(f: QueueFilter, scope: string, state: string, worklist: string, k: Key): string {
    match k
    case View => "reports"
    case Scope => scope
    case State => state
    case Worklist => worklist
    case Sort => f.sort
    case Origin => f.origin
    case Query => f.search
    case ReportingClub => f.reportingClub
    case OffendingClub => f.offendingClub
    case Team => f.team
    case Player => f.player
    case Assignee => f.assignee
    case CaseStatus => f.caseStatus
    case ReplyStatus => f.replyStatus
    case Age => f.age
    case Training => Flag(f.training)
    case Live => Flag(f.live)
    case PendingSelection => Flag(f.pending)
    case FixtureFrom => f.from
    case FixtureTo => f.to
    case _ => ""
  }

  /** The values carry the texts of a tab's link. */
  ghost predicate Carries(v: Values, f: QueueFilter, scope: string, state: string, worklist: string) {
    forall k: Key :: Get(v, k) == QueueText(f, scope, state, worklist, k)
  }

  /** ineligibleQueueTabURL */
  method PrintTab(f: QueueFilter, scope: string, state: string, worklist: string) returns (v: Values)
    ensures Carries(v, f, scope, state, worklist)
  {
    v := SetAll(k => QueueText(f, scope, state, worklist, k));
  }

  ghost predicate Sane(c: Choices) {
    && "open" in c.states && "" in c.origins && "" in c.statuses && "" in c.replies && "" in c.ages
    && "visible" in c.worklists && "newest" in c.sorts
  }

  ghost predicate AllTrimmed(f: QueueFilter) {
    && Trimmed(f.state) && Trimmed(f.origin) && Trimmed(f.reportingClub) && Trimmed(f.offendingClub) && Trimmed(f.team)
    && Trimmed(f.player) && Trimmed(f.search) && Trimmed(f.assignee) && Trimmed(f.caseStatus) && Trimmed(f.replyStatus)
    && Trimmed(f.age) && Trimmed(f.scope) && Trimmed(f.worklist) && Trimmed(f.sort)
  }

  /** The filters that parsing can yield. */
  ghost predicate NormalQueue(c: Choices, f: QueueFilter) {
    && f.state in c.states && f.origin in c.origins && f.caseStatus in c.statuses && f.replyStatus in c.replies
    && f.age in c.ages && f.worklist in c.worklists && f.sort in c.sorts
    && (f.scope == "all" || (f.scope == "mine" && f.worklist != "deferred"))
    && AllTrimmed(f) && Ordered(f.from, f.to)
  }

  lemma TidiedIsNormal(c: Choices, f: QueueFilter)
    requires Sane(c) && AllTrimmed(f) && ParseDate(f.from) == f.from && ParseDate(f.to) == f.to
    ensures NormalQueue(c, Tidied(c, f))
  {
    DatesInOrder(f.from, f.to);
  }

  lemma QueueParsesNormal(v: Values)
    ensures NormalQueue(CHOICES, Tidied(CHOICES, Raw(v)))
  {
    var raw := Raw(v);
    RawIsTrimmed(v);
    ChoicesAreSane();
    TidiedIsNormal(CHOICES, raw);
  }

  lemma RawIsTrimmed(v: Values)
    ensures AllTrimmed(Raw(v)) && ParseDate(Raw(v).from) == Raw(v).from && ParseDate(Raw(v).to) == Raw(v).to
  {
    assert ParseDate("") == "";
  }

  lemma ChoicesAreSane()
    ensures Sane(CHOICES)
  {
    var c := CHOICES;
    assert c.states[0] == "open" && c.origins[0] == "" && c.statuses[0] == "" && c.replies[0] == "" && c.ages[0] == "";
    assert c.worklists[0] == "visible" && c.sorts[0] == "newest";
  }

  lemma TidiedStays(c: Choices, f: QueueFilter, scope: string, state: string, worklist: string)
    requires NormalQueue(c, f)
    ensures var list := Pick(worklist, c.worklists, "visible");
      Tidied(c, f.(state := state, worklist := worklist, scope := scope))
        == f.(state := Pick(state, c.states, "open"), worklist := list, scope := TidyScope(scope, list))
  {
    DatesInOrder(f.from, f.to);
  }

  lemma ChoicesStay(f: QueueFilter, scope: string, state: string, worklist: string, v: Values)
    requires Carries(v, f, scope, state, worklist)
    ensures var typed := Typed(v);
      && typed.state == state && typed.scope == scope && typed.worklist == worklist && typed.sort == f.sort
      && typed.origin == f.origin && typed.caseStatus == f.caseStatus && typed.replyStatus == f.replyStatus
        && typed.age == f.age
  {
  }

  lemma TextsStay(f: QueueFilter, scope: string, state: string, worklist: string, v: Values)
    requires Carries(v, f, scope, state, worklist)
    ensures var typed := Typed(v);
      && typed.search == f.search && typed.reportingClub == f.reportingClub && typed.offendingClub == f.offendingClub
      && typed.team == f.team && typed.player == f.player && typed.assignee == f.assignee
      && typed.from == f.from && typed.to == f.to
  {
  }

  lemma FlagReads(on: bool)
    ensures Flag(on) == "1" <==> on
  {
  }

  lemma FlagsStay(f: QueueFilter, scope: string, state: string, worklist: string, v: Values)
    requires Carries(v, f, scope, state, worklist)
    ensures Typed(v).live == f.live && Typed(v).training == f.training && Typed(v).pending == f.pending
  {
    FlagReads(f.live);
    FlagReads(f.training);
    FlagReads(f.pending);
    assert Get(v, Live) == Flag(f.live) && Get(v, Training) == Flag(f.training);
    assert Get(v, PendingSelection) == Flag(f.pending);
  }

  lemma TypedStays(f: QueueFilter, scope: string, state: string, worklist: string, v: Values)
    requires Carries(v, f, scope, state, worklist)
    ensures Typed(v) == f.(state := state, worklist := worklist, scope := scope)
  {
    ChoicesStay(f, scope, state, worklist, v);
    TextsStay(f, scope, state, worklist, v);
    FlagsStay(f, scope, state, worklist, v);
  }

  lemma CleanedStays(f: QueueFilter, scope: string, state: string, worklist: string)
    requires AllTrimmed(f) && Ordered(f.from, f.to)
    ensures Cleaned(f.(state := state, worklist := worklist, scope := scope))
      == f.(state := Trim(state), worklist := Trim(worklist), scope := Trim(scope))
  {
    DatesInOrder(f.from, f.to);
    forall s: string ensures Trimmed(s) ==> Trim(s) == s {
      TrimStable(s);
    }
  }

  /** A tab's link reads back as the filter with the tab's own scope, state and worklist put right. */
  lemma QueueRoundTrip(f: QueueFilter, scope: string, state: string, worklist: string, v: Values)
    requires NormalQueue(CHOICES, f)
    requires Carries(v, f, scope, state, worklist)
    ensures var list := Pick(Trim(worklist), CHOICES.worklists, "visible");
      Tidied(CHOICES, Raw(v))
        == f.(state := Pick(Trim(state), CHOICES.states, "open"), worklist := list,
             scope := TidyScope(Trim(scope), list))
  {
    TypedStays(f, scope, state, worklist, v);
    CleanedStays(f, scope, state, worklist);
    TidiedStays(CHOICES, f, Trim(scope), Trim(state), Trim(worklist));
  }
}
