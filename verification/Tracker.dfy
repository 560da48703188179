/**
 * The reconciliation of an uploaded tracker: every staged row is reviewed, a correction supersedes the
 * review before it, and a named sign-off keeps a snapshot of the reviews it was given for.
 */
module Tracker {
  import opened Common
  import opened Text
  import Sets

  datatype MatchStatus = MatchedExact | MatchedNormalized | Unmatched | Ambiguous | Unreadable

  datatype CaseState = Open | Closed | NeedsInterpretation

  datatype Disposition = AcceptMatch | LeaveUnmatched | ExcludeRow

  datatype Effects = NotApplicable | PendingInterpretation | Interpreted | NoEffect

  /** A staged row. `hint` is the tracker's own state, unless it is unknown. */
  datatype Row = Row(
    run: nat, status: MatchStatus, matched: Option<int>, hint: Option<CaseState>, needsEffects: bool, exception: string)

  /** A review; its id is its place in the table. */
  datatype Review = Review(
    row: nat, supersedes: Option<nat>, disposition: Disposition, intake: Option<int>,
    state: CaseState, effects: Effects)

  datatype Signoff = Signoff(run: nat, snapshot: map<nat, nat>)

  datatype Ledger = Ledger(rows: seq<Row>, reviews: seq<Review>, signoffs: seq<Signoff>)

  // -------- reviews --------

  /** The newest review of a row. */
  function Latest(reviews: seq<Review>, row: nat): (id: Option<nat>)
    ensures id.Some? ==> id.value < |reviews| && reviews[id.value].row == row
    ensures id.Some? ==> forall k | id.value < k < |reviews| :: reviews[k].row != row
    ensures id.None? ==> forall k | 0 <= k < |reviews| :: reviews[k].row != row
  {
    if reviews == [] then None
    else if reviews[|reviews| - 1].row == row then Some(|reviews| - 1)
    else Latest(reviews[..|reviews| - 1], row)
  }

  /** What the review form submits; a choice that is none of the options is None. */
  datatype Input = Input(
    disposition: Option<Disposition>, intake: int, state: Option<CaseState>, effects: Option<Effects>,
    interpretation: string, reason: string, reviewer: string)

  datatype Problem =
    | NotFound | NeedsIntake | UnexpectedIntake | BadDisposition | BadState | NeedsReading | BadEffects
    | NeedsReason | LongReason | NeedsReviewer | LongReviewer | LongReading | NotGoogleForm | AlreadyAccepted

  /** ValidateBackfillReview */
  function Validate(needsEffects: bool, input: Input): Option<Problem> {
    var reading, reason, reviewer := Trim(input.interpretation), Trim(input.reason), Trim(input.reviewer);
    if input.disposition.None? then Some(BadDisposition)
    else if input.disposition.value.AcceptMatch? && input.intake <= 0 then Some(NeedsIntake)
    else if !input.disposition.value.AcceptMatch? && input.intake != 0 then Some(UnexpectedIntake)
    else if input.state.None? then Some(BadState)
    else if input.effects.None? then Some(BadEffects)
    else if needsEffects && input.effects.value.NotApplicable? then Some(BadEffects)
    else if needsEffects && !input.effects.value.PendingInterpretation? && reading == "" then Some(NeedsReading)
    else if !needsEffects && !input.effects.value.NotApplicable? then Some(BadEffects)
    else if reason == "" then Some(NeedsReason)
    else if Bytes(reason) > 5000 then Some(LongReason)
    else if reviewer == "" then Some(NeedsReviewer)
    else if Bytes(reviewer) > 200 then Some(LongReviewer)
    else if Bytes(reading) > 5000 then Some(LongReading)
    else None
  }

  /** The newest review of a row accepts an intake. */
  predicate Accepts(reviews: seq<Review>, row: nat, intake: int) {
    var latest := Latest(reviews, row);
    latest.Some? && reviews[latest.value].disposition.AcceptMatch? && reviews[latest.value].intake == Some(intake)
  }

  predicate InRun(l: Ledger, run: nat, row: nat) {
    row < |l.rows| && l.rows[row].run == run
  }

  predicate TakenByOther(l: Ledger, run: nat, row: nat, intake: int) {
    exists other :: 0 <= other < |l.rows| && InRun(l, run, other) && other != row && Accepts(l.reviews, other, intake)
  }

  function ProblemOf(l: Ledger, run: nat, row: nat, input: Input, google: set<int>): Option<Problem> {
    if !InRun(l, run, row) then Some(NotFound)
    else if Validate(l.rows[row].needsEffects, input).Some? then Validate(l.rows[row].needsEffects, input)
    else if input.disposition.value.AcceptMatch? && input.intake !in google then Some(NotGoogleForm)
    else if input.disposition.value.AcceptMatch? && TakenByOther(l, run, row, input.intake) then Some(AlreadyAccepted)
    else None
  }

  /** The row that a valid review adds. */
  function NewReview(reviews: seq<Review>, row: nat, input: Input): Review
    requires input.disposition.Some? && input.state.Some? && input.effects.Some?
  {
    Review(
      row, Latest(reviews, row), input.disposition.value,
      if input.disposition.value.AcceptMatch? then Some(input.intake) else None, input.state.value, input.effects.value)
  }

  function Reviewed(l: Ledger, run: nat, row: nat, input: Input, google: set<int>): Result<Ledger, Problem> {
    var problem := ProblemOf(l, run, row, input, google);
    if problem.Some? then Err(problem.value) else Ok(l.(reviews := l.reviews + [NewReview(l.reviews, row, input)]))
  }

  // -------- sign-off --------

  datatype Readiness = Readiness(total: nat, reviewed: nat, excluded: nat, needState: nat, needEffects: nat)

  function RowsOf(l: Ledger, run: nat): set<nat> {
    set row | 0 <= row < |l.rows| && InRun(l, run, row)
  }

  function ReviewOf(l: Ledger, row: nat): Option<Review> {
    var latest := Latest(l.reviews, row);
    if latest.None? then None else Some(l.reviews[latest.value])
  }

  predicate IsReviewed(l: Ledger, row: nat) {
    ReviewOf(l, row).Some?
  }

  predicate Excluded(l: Ledger, row: nat) {
    var r := ReviewOf(l, row);
    r.Some? && r.value.disposition.ExcludeRow?
  }

  /** A row without a review has a NULL disposition and is counted in no column but the first. */
  predicate NeedsState(l: Ledger, row: nat) {
    var r := ReviewOf(l, row);
    r.Some? && !r.value.disposition.ExcludeRow? && r.value.state.NeedsInterpretation?
  }

  predicate NeedsEffects(l: Ledger, row: nat) {
    var r := ReviewOf(l, row);
    row < |l.rows| && r.Some? && !r.value.disposition.ExcludeRow? && l.rows[row].needsEffects
    && !r.value.effects.Interpreted? && !r.value.effects.NoEffect?
  }

  function ReadinessOf(l: Ledger, run: nat): Readiness {
    var rows := RowsOf(l, run);
    Readiness(
      |rows|, |set row | row in rows && IsReviewed(l, row)|, |set row | row in rows && Excluded(l, row)|,
      |set row | row in rows && NeedsState(l, row)|, |set row | row in rows && NeedsEffects(l, row)|)
  }

  predicate Ready(r: Readiness) {
    r.total > 0 && r.reviewed == r.total && r.needState == 0 && r.needEffects == 0
  }

  /** The newest review of every row of the run that has one. */
  function Snapshot(l: Ledger, run: nat): map<nat, nat> {
    map row | row in RowsOf(l, run) && IsReviewed(l, row) :: Latest(l.reviews, row).value
  }

  predicate ValidSignature(confirmed: bool, signatory: string, statement: string) {
    confirmed && Trim(signatory) != "" && Trim(statement) != "" && Bytes(Trim(signatory)) <= 200
    && Bytes(Trim(statement)) <= 2000
  }

  function SignedOff(l: Ledger, run: nat, confirmed: bool, signatory: string, statement: string): Option<Ledger> {
    if ValidSignature(confirmed, signatory, statement) && Ready(ReadinessOf(l, run)) then
      Some(l.(signoffs := l.signoffs + [Signoff(run, Snapshot(l, run))]))
    else None
  }

  // -------- runs --------

  datatype Action =
    | ReviewRow(run: nat, row: nat, input: Input, google: set<int>)
    | SignOff(run: nat, confirmed: bool, signatory: string, statement: string)

  /** A refused request changes nothing. */
  function Apply(l: Ledger, a: Action): Ledger {
    match a
    case ReviewRow(run, row, input, google) =>
      var r := Reviewed(l, run, row, input, google);
      if r.Ok? then r.value else l
    case SignOff(run, confirmed, signatory, statement) =>
      var r := SignedOff(l, run, confirmed, signatory, statement);
      if r.Some? then r.value else l
  }

  function Run(l: Ledger, actions: seq<Action>): Ledger
    decreases |actions|
  {
    if actions == [] then l else Apply(Run(l, actions[..|actions| - 1]), actions[|actions| - 1])
  }

  /** No two rows of a run accept the same intake. */
  ghost predicate Injective(l: Ledger) {
    forall a, b, intake | 0 <= a < |l.rows| && 0 <= b < |l.rows| && l.rows[a].run == l.rows[b].run
      && Accepts(l.reviews, a, intake) && Accepts(l.reviews, b, intake) :: a == b
  }

  /** Every review supersedes the one that was the newest of its row. */
  ghost predicate Chained(reviews: seq<Review>) {
    forall k | 0 <= k < |reviews| :: reviews[k].supersedes == Latest(reviews[..k], reviews[k].row)
  }

  lemma LatestMore(reviews: seq<Review>, more: Review, row: nat)
    ensures Latest(reviews + [more], row) == if more.row == row then Some(|reviews|) else Latest(reviews, row)
  {
    assert (reviews + [more])[..|reviews|] == reviews;
  }

  lemma ReviewKeeps(l: Ledger, run: nat, row: nat, input: Input, google: set<int>)
    requires Injective(l) && Chained(l.reviews) && Reviewed(l, run, row, input, google).Ok?
    ensures Injective(Reviewed(l, run, row, input, google).value)
    ensures Chained(Reviewed(l, run, row, input, google).value.reviews)
  {
    var more := NewReview(l.reviews, row, input);
    var next := l.(reviews := l.reviews + [more]);
    forall r ensures Latest(next.reviews, r) == if row == r then Some(|l.reviews|) else Latest(l.reviews, r) {
      LatestMore(l.reviews, more, r);
    }
    forall r, intake | r != row ensures Accepts(next.reviews, r, intake) == Accepts(l.reviews, r, intake) {
    }
    forall k | 0 <= k < |next.reviews|
      ensures next.reviews[k].supersedes == Latest(next.reviews[..k], next.reviews[k].row)
    {
      assert next.reviews[..k] == l.reviews[..k];
      assert l.reviews[..|l.reviews|] == l.reviews;
    }
  }

  lemma {:induction false} RunGrows(l: Ledger, actions: seq<Action>)
    ensures Run(l, actions).rows == l.rows && l.reviews <= Run(l, actions).reviews
    decreases |actions|
  {
    if actions != [] {
      RunGrows(l, actions[..|actions| - 1]);
    }
  }

  lemma {:induction false} RunKeeps(l: Ledger, actions: seq<Action>)
    requires Injective(l) && Chained(l.reviews)
    ensures Injective(Run(l, actions)) && Chained(Run(l, actions).reviews)
    decreases |actions|
  {
    if actions != [] {
      var mid, last := Run(l, actions[..|actions| - 1]), actions[|actions| - 1];
      RunKeeps(l, actions[..|actions| - 1]);
      if last.ReviewRow? && Reviewed(mid, last.run, last.row, last.input, last.google).Ok? {
        ReviewKeeps(mid, last.run, last.row, last.input, last.google);
      }
    }
  }

  /**
   * After any run of reviews and sign-offs, with rows releasing and retaking intakes as they like, no
   * intake is the accepted match of two rows of one upload.
   */
  lemma AcceptedMatchesAreInjective(rows: seq<Row>, actions: seq<Action>)
    ensures Injective(Run(Ledger(rows, [], []), actions)) && Chained(Run(Ledger(rows, [], []), actions).reviews)
  {
    RunKeeps(Ledger(rows, [], []), actions);
  }

  lemma SupersededByNext(reviews: seq<Review>, k: nat, j: nat)
    requires Chained(reviews) && k < |reviews| && j < |reviews|
    ensures reviews[j].supersedes == Some(k) <==>
      && j > k && reviews[j].row == reviews[k].row
      && forall i | k < i < j :: reviews[i].row != reviews[k].row
  {
    var before := reviews[..j];
    assert reviews[j].supersedes == Latest(before, reviews[j].row);
    assert forall i | 0 <= i < j :: before[i] == reviews[i];
  }

  /**
   * The reviews of a row form one line: each one but the newest is superseded exactly once, by a later
   * review of the same row.
   */
  lemma ReviewsFormALine(reviews: seq<Review>, k: nat)
    requires Chained(reviews) && k < |reviews|
    ensures Latest(reviews, reviews[k].row) != Some(k)
      <==> exists j :: k < j < |reviews| && reviews[j].supersedes == Some(k)
    ensures forall i, j | 0 <= i < j < |reviews| && reviews[i].supersedes == Some(k) :: reviews[j].supersedes != Some(k)
    ensures forall j | 0 <= j < |reviews| && reviews[j].supersedes == Some(k) ::
      j > k && reviews[j].row == reviews[k].row
  {
    forall j | 0 <= j < |reviews| ensures reviews[j].supersedes == Some(k) <==>
      (j > k && reviews[j].row == reviews[k].row && forall i | k < i < j :: reviews[i].row != reviews[k].row)
    {
      SupersededByNext(reviews, k, j);
    }
    if Latest(reviews, reviews[k].row) != Some(k) {
      var j := NextOf(reviews, k);
      assert reviews[j].supersedes == Some(k);
    }
  }

  /** The first later review of the same row. */
  lemma NextOf(reviews: seq<Review>, k: nat) returns (j: nat)
    requires k < |reviews| && Latest(reviews, reviews[k].row) != Some(k)
    ensures k < j < |reviews| && reviews[j].row == reviews[k].row
    ensures forall i | k < i < j :: reviews[i].row != reviews[k].row
  {
    j := k + 1;
    while reviews[j].row != reviews[k].row
      invariant k < j < |reviews| && j <= Latest(reviews, reviews[k].row).value
      invariant forall i | k < i < j :: reviews[i].row != reviews[k].row
      decreases |reviews| - j
    {
      j := j + 1;
    }
  }

  // -------- what a sign-off is worth --------

  /** A row whose newest review leaves nothing open. */
  predicate Settled(l: Ledger, row: nat) {
    var r := ReviewOf(l, row);
    row < |l.rows| && r.Some? && (r.value.disposition.ExcludeRow? ||
      (!r.value.state.NeedsInterpretation?
       && (l.rows[row].needsEffects ==> r.value.effects.Interpreted? || r.value.effects.NoEffect?)))
  }

  /** The gate opens exactly when the upload has rows and every one of them is settled. */
  lemma ReadyExactly(l: Ledger, run: nat)
    ensures Ready(ReadinessOf(l, run)) <==>
      RowsOf(l, run) != {} && forall row | row in RowsOf(l, run) :: Settled(l, row)
  {
    var rows := RowsOf(l, run);
    var reviewed := set row | row in rows && IsReviewed(l, row);
    var needState := set row | row in rows && NeedsState(l, row);
    var needEffects := set row | row in rows && NeedsEffects(l, row);
    Sets.SubsetSize(reviewed, rows);
    if forall row | row in rows :: Settled(l, row) {
      assert reviewed == rows && needState == {} && needEffects == {};
    }
    if reviewed == rows && needState == {} && needEffects == {} {
      forall row | row in rows ensures Settled(l, row) {
        assert row in reviewed && row !in needState && row !in needEffects;
      }
    }
  }

  /** A sign-off that passed the gate names exactly one review for every row, and it is the newest. */
  lemma SnapshotIsComplete(l: Ledger, run: nat)
    requires Ready(ReadinessOf(l, run))
    ensures Snapshot(l, run).Keys == RowsOf(l, run)
    ensures forall row | row in RowsOf(l, run) :: Some(Snapshot(l, run)[row]) == Latest(l.reviews, row)
  {
    ReadyExactly(l, run);
  }

  lemma LatestOfLonger(reviews: seq<Review>, longer: seq<Review>, row: nat)
    requires reviews <= longer
    ensures Latest(longer, row) == Latest(reviews, row)
      <==> forall k | |reviews| <= k < |longer| :: longer[k].row != row
  {
    var latest := Latest(reviews, row);
    assert forall k | 0 <= k < |reviews| :: longer[k] == reviews[k];
  }

  /** The snapshot is still that of the newest reviews exactly when no row of the upload was reviewed since. */
  lemma SnapshotStaysCurrent(l: Ledger, run: nat, actions: seq<Action>)
    ensures var later := Run(l, actions);
      (Snapshot(later, run) == Snapshot(l, run)) ==
        (forall k | |l.reviews| <= k < |later.reviews| :: !InRun(l, run, later.reviews[k].row))
  {
    RunGrows(l, actions);
    var later := Run(l, actions);
    forall row ensures Latest(later.reviews, row) == Latest(l.reviews, row)
      <==> forall k | |l.reviews| <= k < |later.reviews| :: later.reviews[k].row != row
    {
      LatestOfLonger(l.reviews, later.reviews, row);
    }
    assert RowsOf(later, run) == RowsOf(l, run);
    if Snapshot(later, run) == Snapshot(l, run) {
      forall row | row in RowsOf(l, run) ensures Latest(later.reviews, row) == Latest(l.reviews, row) {
        assert row in Snapshot(later, run) <==> row in Snapshot(l, run);
      }
      forall k | |l.reviews| <= k < |later.reviews| ensures !InRun(l, run, later.reviews[k].row) {
        assert later.reviews[k].row in RowsOf(l, run) <==> InRun(l, run, later.reviews[k].row);
      }
    }
  }

  // -------- quick reviews --------

  /** The state that the page suggests for a row. */
  function SuggestedState(l: Ledger, row: nat): CaseState {
    var r := ReviewOf(l, row);
    if r.Some? then r.value.state
    else if row >= |l.rows| || l.rows[row].hint.None? then NeedsInterpretation
    else l.rows[row].hint.value
  }

  predicate CanUseQuickReview(l: Ledger, row: nat) {
    row < |l.rows| && var staged := l.rows[row];
    && ReviewOf(l, row).None? && staged.matched.Some? && staged.matched.value > 0
    && (staged.status.MatchedExact? || staged.status.MatchedNormalized?)
    && !SuggestedState(l, row).NeedsInterpretation? && !staged.needsEffects && Trim(staged.exception) == ""
  }

  /** The texts of the quick form: its fixed reason and the name of the person who reviews. */
  datatype Signature = Signature(reason: string, reviewer: string)

  predicate ValidTexts(texts: Signature) {
    && Trim(texts.reason) != "" && Bytes(Trim(texts.reason)) <= 5000
    && Trim(texts.reviewer) != "" && Bytes(Trim(texts.reviewer)) <= 200
  }

  /** The hidden fields of the quick form. */
  function QuickInput(l: Ledger, row: nat, texts: Signature): Input {
    var matched := if row < |l.rows| && l.rows[row].matched.Some? then l.rows[row].matched.value else 0;
    Input(
      Some(AcceptMatch), matched, Some(SuggestedState(l, row)), Some(NotApplicable), "", texts.reason,
      texts.reviewer)
  }

  lemma QuickInputIsValid(l: Ledger, row: nat, texts: Signature)
    requires CanUseQuickReview(l, row) && ValidTexts(texts)
    ensures Validate(false, QuickInput(l, row, texts)).None?
  {
    TrimStable("");
  }

  /** Quick reviews of some rows, one after another. */
  function ConfirmAll(l: Ledger, run: nat, order: seq<nat>, texts: Signature, google: set<int>): Result<Ledger, Problem>
    decreases |order|
  {
    if order == [] then Ok(l)
    else
      var done := ConfirmAll(l, run, order[..|order| - 1], texts, google);
      if done.Err? then done
      else
        var row := order[|order| - 1];
        Reviewed(done.value, run, row, QuickInput(done.value, row, texts), google)
  }

  /** All rows of the upload can be confirmed as suggested, with different intakes that are all there. */
  ghost predicate Confirmable(l: Ledger, run: nat, google: set<int>) {
    && (forall row | row in RowsOf(l, run) :: CanUseQuickReview(l, row) && l.rows[row].matched.value in google)
    && forall a, b | a in RowsOf(l, run) && b in RowsOf(l, run) && a != b :: l.rows[a].matched != l.rows[b].matched
  }

  /** The rows confirmed so far accept what was suggested, and the others have no review. */
  ghost predicate Progress(l: Ledger, run: nat, confirmed: seq<nat>, now: Ledger) {
    && now.rows == l.rows && now.signoffs == l.signoffs && l.reviews <= now.reviews
    && forall row | row in RowsOf(l, run) ::
      if row in confirmed then
        ReviewOf(now, row).Some? && ReviewOf(now, row).value.disposition.AcceptMatch?
        && ReviewOf(now, row).value.intake == l.rows[row].matched
        && ReviewOf(now, row).value.state == SuggestedState(l, row)
      else ReviewOf(now, row).None?
  }

  lemma ConfirmNext(l: Ledger, run: nat, confirmed: seq<nat>, now: Ledger, row: nat, texts: Signature, google: set<int>)
    requires Confirmable(l, run, google) && ValidTexts(texts) && Progress(l, run, confirmed, now)
    requires row in RowsOf(l, run) && row !in confirmed
    ensures var r := Reviewed(now, run, row, QuickInput(now, row, texts), google);
      r.Ok? && Progress(l, run, confirmed + [row], r.value)
  {
    var input := QuickInput(now, row, texts);
    assert CanUseQuickReview(now, row);
    QuickInputIsValid(now, row, texts);
    forall other | 0 <= other < |l.rows| && InRun(now, run, other) && other != row
      ensures !Accepts(now.reviews, other, input.intake)
    {
      assert other in RowsOf(l, run);
      assert l.rows[other].matched != l.rows[row].matched;
    }
    var more := NewReview(now.reviews, row, input);
    forall r
      ensures Latest(now.reviews + [more], r) == if row == r then Some(|now.reviews|) else Latest(now.reviews, r)
    {
      LatestMore(now.reviews, more, r);
    }
  }

  lemma {:induction false} ConfirmSome(l: Ledger, run: nat, order: seq<nat>, texts: Signature, google: set<int>)
    requires Confirmable(l, run, google) && ValidTexts(texts)
    requires Sets.Distinct(order) && forall k | 0 <= k < |order| :: order[k] in RowsOf(l, run)
    ensures var r := ConfirmAll(l, run, order, texts, google); r.Ok? && Progress(l, run, order, r.value)
    decreases |order|
  {
    if order != [] {
      var earlier, row := order[..|order| - 1], order[|order| - 1];
      ConfirmSome(l, run, earlier, texts, google);
      ConfirmNext(l, run, earlier, ConfirmAll(l, run, earlier, texts, google).value, row, texts, google);
      assert order == earlier + [row];
    }
  }

  /**
   * If every row can be confirmed as suggested, then confirming them in any order succeeds, and nothing
   * is left between the upload and its sign-off.
   */
  lemma QuickReviewsSuffice(l: Ledger, run: nat, order: seq<nat>, texts: Signature, google: set<int>)
    requires Confirmable(l, run, google) && ValidTexts(texts) && RowsOf(l, run) != {}
    requires Sets.Distinct(order) && forall row :: row in order <==> row in RowsOf(l, run)
    ensures var r := ConfirmAll(l, run, order, texts, google);
      && r.Ok? && Ready(ReadinessOf(r.value, run))
      && ReadinessOf(r.value, run) == Readiness(|RowsOf(l, run)|, |RowsOf(l, run)|, 0, 0, 0)
  {
    ConfirmSome(l, run, order, texts, google);
    var now := ConfirmAll(l, run, order, texts, google).value;
    var rows := RowsOf(now, run);
    assert rows == RowsOf(l, run);
    assert (set row | row in rows && IsReviewed(now, row)) == rows;
    assert (set row | row in rows && Excluded(now, row)) == {};
    assert (set row | row in rows && NeedsState(now, row)) == {};
    assert (set row | row in rows && NeedsEffects(now, row)) == {};
  }

  // -------- the page's counters --------

  function CountIf(rows: seq<nat>, keep: nat -> bool): nat {
    if rows == [] then 0 else CountIf(rows[..|rows| - 1], keep) + if keep(rows[|rows| - 1]) then 1 else 0
  }

  /** ineligibleBackfillRowCounts: the rows fall into reviewed, suggested and difficult ones. */
  method RowCounts(l: Ledger, rows: seq<nat>) returns (pending: nat, verified: nat, suggested: nat, needsHelp: nat)
    requires forall row | row in rows :: row < |l.rows|
    ensures pending + verified == |rows| && suggested + needsHelp == pending
    ensures verified == CountIf(rows, (row: nat) => IsReviewed(l, row))
    ensures suggested == CountIf(rows, (row: nat) => CanUseQuickReview(l, row))
  {
    pending, verified, suggested, needsHelp := 0, 0, 0, 0;
    for k := 0 to |rows|
      invariant pending + verified == k && suggested + needsHelp == pending
      invariant verified == CountIf(rows[..k], (row: nat) => IsReviewed(l, row))
      invariant suggested == CountIf(rows[..k], (row: nat) => CanUseQuickReview(l, row))
    {
      assert rows[..k + 1][..k] == rows[..k];
      if IsReviewed(l, rows[k]) {
        verified := verified + 1;
      } else {
        pending := pending + 1;
        if CanUseQuickReview(l, rows[k]) {
          suggested := suggested + 1;
        } else {
          needsHelp := needsHelp + 1;
        }
      }
    }
    assert rows[..|rows|] == rows;
  }

  // -------- the tables --------

  class TrackerTables {
    const rows: seq<Row>
    var reviews: seq<Review>
    var signoffs: seq<Signoff>

    function State(): Ledger
      reads this
    {
      Ledger(rows, reviews, signoffs)
    }

    constructor (rows: seq<Row>)
      ensures State() == Ledger(rows, [], []) && Injective(State()) && Chained(reviews)
    {
      this.rows := rows;
      reviews, signoffs := [], [];
    }

    method RecordReview(run: nat, row: nat, input: Input, google: set<int>) returns (problem: Option<Problem>)
      requires Injective(State()) && Chained(reviews)
      modifies this
      ensures State() == Apply(old(State()), ReviewRow(run, row, input, google))
      ensures Injective(State()) && Chained(reviews)
      ensures problem == ProblemOf(old(State()), run, row, input, google)
    {
      if row >= |rows| || rows[row].run != run {
        return Some(NotFound);
      }
      problem := Validate(rows[row].needsEffects, input);
      if problem.Some? {
        return;
      }
      var intake := None;
      if input.disposition.value.AcceptMatch? {
        if input.intake !in google {
          return Some(NotGoogleForm);
        }
        if TakenByOther(State(), run, row, input.intake) {
          return Some(AlreadyAccepted);
        }
        intake := Some(input.intake);
      }
      ReviewKeeps(State(), run, row, input, google);
      var supersedes := Latest(reviews, row);
      reviews := reviews + [
        Review(row, supersedes, input.disposition.value, intake, input.state.value, input.effects.value)];
    }

    method RecordSignoff(run: nat, confirmed: bool, signatory: string, statement: string) returns (ok: bool)
      requires Injective(State()) && Chained(reviews)
      modifies this
      ensures State() == Apply(old(State()), SignOff(run, confirmed, signatory, statement))
      ensures Injective(State()) && Chained(reviews)
      ensures ok == SignedOff(old(State()), run, confirmed, signatory, statement).Some?
      ensures ok ==>
        && |signoffs| == |old(signoffs)| + 1
        && signoffs[|old(signoffs)|].snapshot.Keys == RowsOf(old(State()), run)
    {
      ok := ValidSignature(confirmed, signatory, statement);
      if ok {
        var readiness := ReadinessOf(State(), run);
        ok := Ready(readiness);
        if ok {
          SnapshotIsComplete(State(), run);
          signoffs := signoffs + [Signoff(run, Snapshot(State(), run))];
        }
      }
    }
  }
}
