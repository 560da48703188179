/**
 * What the tracker's definitions come to, in terms of the staged rows, the stored reviews and the
 * submitted form alone: when a review is accepted and what is stored, what is reported otherwise, and
 * when a sign-off is given and for what.
 */
module TrackerMeaning {
  import opened Common
  import opened Text
  import opened Tracker
  import Sets

  // -------- which review is accepted --------

  /** The newest review of the row, where it accepts the intake. */
  predicate AcceptedAt(reviews: seq<Review>, row: nat, intake: int, k: nat)
    requires k < |reviews|
  {
    && reviews[k].row == row && (forall j | k < j < |reviews| :: reviews[j].row != row)
    && reviews[k].disposition == AcceptMatch && reviews[k].intake == Some(intake)
  }

  /** Another row of the upload whose newest review accepts this intake. */
  predicate HeldElsewhere(l: Ledger, run: nat, row: nat, intake: int) {
    exists other: nat, k: nat | other < |l.rows| && k < |l.reviews| ::
      l.rows[other].run == run && other != row && AcceptedAt(l.reviews, other, intake, k)
  }

  /** What each message about the form complains of; the other three are about the tables. */
  predicate FormComplaint(p: Problem, needsEffects: bool, input: Input) {
    match p
    case BadDisposition => input.disposition == None
    case NeedsIntake => input.disposition == Some(AcceptMatch) && input.intake < 1
    case UnexpectedIntake =>
      (input.disposition == Some(LeaveUnmatched) || input.disposition == Some(ExcludeRow)) && input.intake != 0
    case BadState => input.state == None
    case BadEffects =>
      if needsEffects then input.effects == None || input.effects == Some(NotApplicable)
      else input.effects != Some(NotApplicable)
    case NeedsReading =>
      && needsEffects && (input.effects == Some(Interpreted) || input.effects == Some(NoEffect))
      && Trim(input.interpretation) == ""
    case NeedsReason => Trim(input.reason) == ""
    case LongReason => Bytes(Trim(input.reason)) >= 5001
    case NeedsReviewer => Trim(input.reviewer) == ""
    case LongReviewer => Bytes(Trim(input.reviewer)) >= 201
    case LongReading => Bytes(Trim(input.interpretation)) >= 5001
    case _ => false
  }

  /** What each message complains of. */
  predicate Complaint(p: Problem, l: Ledger, run: nat, row: nat, input: Input, google: set<int>) {
    match p
    case NotFound => !(row < |l.rows| && l.rows[row].run == run)
    case NotGoogleForm => input.disposition == Some(AcceptMatch) && input.intake !in google
    case AlreadyAccepted => input.disposition == Some(AcceptMatch) && HeldElsewhere(l, run, row, input.intake)
    case _ => FormComplaint(p, row < |l.rows| && l.rows[row].run == run && l.rows[row].needsEffects, input)
  }

  /** The order in which the complaints are raised. */
  function Rank(p: Problem): nat {
    match p
    case NotFound => 0
    case BadDisposition => 1
    case NeedsIntake => 2
    case UnexpectedIntake => 3
    case BadState => 4
    case BadEffects => 5
    case NeedsReading => 6
    case NeedsReason => 7
    case LongReason => 8
    case NeedsReviewer => 9
    case LongReviewer => 10
    case LongReading => 11
    case NotGoogleForm => 12
    case AlreadyAccepted => 13
  }

  lemma AcceptsSomewhere(reviews: seq<Review>, row: nat, intake: int)
    ensures Accepts(reviews, row, intake) <==> exists k: nat :: k < |reviews| && AcceptedAt(reviews, row, intake, k)
  {
    var latest := Latest(reviews, row);
    if Accepts(reviews, row, intake) {
      assert AcceptedAt(reviews, row, intake, latest.value);
    }
    if k: nat :| k < |reviews| && AcceptedAt(reviews, row, intake, k) {
      assert latest == Some(k);
    }
  }

  lemma HeldMeansTaken(l: Ledger, run: nat, row: nat, intake: int)
    ensures TakenByOther(l, run, row, intake) <==> HeldElsewhere(l, run, row, intake)
  {
    if TakenByOther(l, run, row, intake) {
      var other: nat :| other < |l.rows| && InRun(l, run, other) && other != row && Accepts(l.reviews, other, intake);
      AcceptsSomewhere(l.reviews, other, intake);
      var k: nat :| k < |l.reviews| && AcceptedAt(l.reviews, other, intake, k);
      assert l.rows[other].run == run && other != row && AcceptedAt(l.reviews, other, intake, k);
    }
    if HeldElsewhere(l, run, row, intake) {
      var other: nat, k: nat :| other < |l.rows| && k < |l.reviews|
        && l.rows[other].run == run && other != row && AcceptedAt(l.reviews, other, intake, k);
      AcceptsSomewhere(l.reviews, other, intake);
      assert InRun(l, run, other) && other != row && Accepts(l.reviews, other, intake);
    }
  }

  lemma FirstOfForm(needsEffects: bool, input: Input, q: Problem)
    ensures var problem := Validate(needsEffects, input);
      && (problem == Some(q) ==> FormComplaint(q, needsEffects, input))
      && (problem == None || Rank(q) < Rank(problem.value) ==> !FormComplaint(q, needsEffects, input))
  {
    if Rank(q) <= 4 {
      FirstChoices(needsEffects, input, q);
    } else if Rank(q) <= 6 {
      EffectChoices(needsEffects, input, q);
    } else {
      LaterTexts(needsEffects, input, q);
    }
  }

  lemma FirstChoices(needsEffects: bool, input: Input, q: Problem)
    requires Rank(q) <= 4
    ensures var problem := Validate(needsEffects, input);
      && (problem == Some(q) ==> FormComplaint(q, needsEffects, input))
      && (problem == None || Rank(q) < Rank(problem.value) ==> !FormComplaint(q, needsEffects, input))
  {
  }

  lemma EffectChoices(needsEffects: bool, input: Input, q: Problem)
    requires 4 < Rank(q) <= 6
    ensures var problem := Validate(needsEffects, input);
      && (problem == Some(q) ==> FormComplaint(q, needsEffects, input))
      && (problem == None || Rank(q) < Rank(problem.value) ==> !FormComplaint(q, needsEffects, input))
  {
  }

  /** Once the choices are in order, only the texts can be complained of. */
  lemma LaterTexts(needsEffects: bool, input: Input, q: Problem)
    requires Rank(q) > 6
    ensures var problem := Validate(needsEffects, input);
      && (problem == Some(q) ==> FormComplaint(q, needsEffects, input))
      && (problem == None || Rank(q) < Rank(problem.value) ==> !FormComplaint(q, needsEffects, input))
  {
    match q
    case NeedsReason =>
    case LongReason =>
    case NeedsReviewer =>
    case LongReviewer =>
    case LongReading =>
    case _ =>
  }

  lemma ReportedIsFirst(l: Ledger, run: nat, row: nat, input: Input, google: set<int>, q: Problem)
    ensures var problem := ProblemOf(l, run, row, input, google);
      && (problem == Some(q) ==> Complaint(q, l, run, row, input, google))
      && (problem == None || Rank(q) < Rank(problem.value) ==> !Complaint(q, l, run, row, input, google))
  {
    HeldMeansTaken(l, run, row, input.intake);
    if row < |l.rows| {
      FirstOfForm(l.rows[row].needsEffects, input, q);
    }
  }

  lemma SameRank(p: Problem, q: Problem)
    ensures Rank(p) == Rank(q) ==> p == q
  {
  }

  /** The problem reported is the first complaint that is justified. */
  lemma FirstComplaint(l: Ledger, run: nat, row: nat, input: Input, google: set<int>, p: Problem)
    ensures ProblemOf(l, run, row, input, google) == Some(p) <==>
      && Complaint(p, l, run, row, input, google)
      && forall q | Rank(q) < Rank(p) :: !Complaint(q, l, run, row, input, google)
  {
    var problem := ProblemOf(l, run, row, input, google);
    forall q
      ensures problem == Some(q) ==> Complaint(q, l, run, row, input, google)
      ensures problem == None || Rank(q) < Rank(problem.value) ==> !Complaint(q, l, run, row, input, google)
    {
      ReportedIsFirst(l, run, row, input, google, q);
    }
    if problem.Some? {
      SameRank(p, problem.value);
    }
  }

  lemma NoComplaint(l: Ledger, run: nat, row: nat, input: Input, google: set<int>)
    ensures ProblemOf(l, run, row, input, google) == None <==> forall q :: !Complaint(q, l, run, row, input, google)
  {
    var problem := ProblemOf(l, run, row, input, google);
    forall q
      ensures problem == Some(q) ==> Complaint(q, l, run, row, input, google)
      ensures problem == None ==> !Complaint(q, l, run, row, input, google)
    {
      ReportedIsFirst(l, run, row, input, google, q);
    }
  }

  /** The row that the input asks for, with the newest review of its row as the one superseded. */
  predicate Stores(reviews: seq<Review>, row: nat, input: Input, r: Review) {
    && r.row == row
    && Some(r.disposition) == input.disposition && Some(r.state) == input.state && Some(r.effects) == input.effects
    && (r.intake == if input.disposition == Some(AcceptMatch) then Some(input.intake) else None)
    && if r.supersedes.None? then forall k | 0 <= k < |reviews| :: reviews[k].row != row
       else
         && r.supersedes.value < |reviews| && reviews[r.supersedes.value].row == row
         && forall k | r.supersedes.value < k < |reviews| :: reviews[k].row != row
  }

  /** A review without a justified complaint adds exactly the row asked for; any other changes nothing. */
  lemma ReviewStores(l: Ledger, run: nat, row: nat, input: Input, google: set<int>)
    ensures var u := Apply(l, ReviewRow(run, row, input, google));
      if exists q :: Complaint(q, l, run, row, input, google) then u == l
      else
        && u.rows == l.rows && u.signoffs == l.signoffs
        && |u.reviews| == |l.reviews| + 1 && u.reviews[..|l.reviews|] == l.reviews
        && Stores(l.reviews, row, input, u.reviews[|l.reviews|])
  {
    NoComplaint(l, run, row, input, google);
  }

  // -------- what is settled --------

  /** The newest review of the row, where it leaves nothing open. */
  predicate ClearedAt(l: Ledger, row: nat, k: nat)
    requires k < |l.reviews| && row < |l.rows|
  {
    && l.reviews[k].row == row && (forall j | k < j < |l.reviews| :: l.reviews[j].row != row)
    && LeavesNothingOpen(l.rows[row].needsEffects, l.reviews[k].disposition, l.reviews[k].state, l.reviews[k].effects)
  }

  /** The newest review of the row excludes it, or leaves neither its state nor its effects open. */
  predicate Cleared(l: Ledger, row: nat) {
    row < |l.rows| && exists k: nat | k < |l.reviews| :: ClearedAt(l, row, k)
  }

  predicate LeavesNothingOpen(needsEffects: bool, disposition: Disposition, state: CaseState, effects: Effects) {
    || disposition == ExcludeRow
    || (state in {Open, Closed} && (needsEffects ==> effects in {Interpreted, NoEffect}))
  }

  lemma ClearedIsSettled(l: Ledger, row: nat)
    ensures Cleared(l, row) <==> Settled(l, row)
  {
    var latest := Latest(l.reviews, row);
    if Cleared(l, row) {
      var k: nat :| k < |l.reviews| && ClearedAt(l, row, k);
      assert latest == Some(k);
    }
    if Settled(l, row) {
      assert ClearedAt(l, row, latest.value);
    }
  }

  /** After an accepted review the row is cleared exactly if what was submitted leaves nothing open. */
  lemma ClearedByReview(l: Ledger, run: nat, row: nat, input: Input, google: set<int>)
    requires forall q :: !Complaint(q, l, run, row, input, google)
    ensures input.disposition.Some? && input.state.Some? && input.effects.Some? && row < |l.rows|
    ensures Cleared(Apply(l, ReviewRow(run, row, input, google)), row) <==>
      LeavesNothingOpen(l.rows[row].needsEffects, input.disposition.value, input.state.value, input.effects.value)
  {
    assert !Complaint(NotFound, l, run, row, input, google) && !Complaint(BadDisposition, l, run, row, input, google);
    assert !Complaint(BadState, l, run, row, input, google) && !Complaint(BadEffects, l, run, row, input, google);
    ReviewStores(l, run, row, input, google);
    var u, n := Apply(l, ReviewRow(run, row, input, google)), |l.reviews|;
    assert u.reviews[n].row == row;
    if Cleared(u, row) {
      var k: nat :| k < |u.reviews| && ClearedAt(u, row, k);
      assert k == n;
    }
    if LeavesNothingOpen(l.rows[row].needsEffects, input.disposition.value, input.state.value, input.effects.value) {
      assert ClearedAt(u, row, n);
    }
  }

  // -------- sign-off --------

  /** The newest review of a reviewed row. */
  function NewestOf(l: Ledger, row: nat): (r: Review)
    ensures HasReview(l, row) ==>
      exists k :: 0 <= k < |l.reviews| && l.reviews[k] == r && r.row == row
        && forall j | k < j < |l.reviews| :: l.reviews[j].row != row
  {
    var latest := Latest(l.reviews, row);
    if latest.Some? then l.reviews[latest.value]
    else Review(row, None, ExcludeRow, None, NeedsInterpretation, NotApplicable)
  }

  function RowsIn(l: Ledger, run: nat): set<nat> {
    set row | 0 <= row < |l.rows| && l.rows[row].run == run
  }

  predicate HasReview(l: Ledger, row: nat) {
    exists k | 0 <= k < |l.reviews| :: l.reviews[k].row == row
  }

  lemma ReviewedHasReview(l: Ledger, row: nat)
    ensures HasReview(l, row) <==> ReviewOf(l, row) == Some(NewestOf(l, row))
    ensures HasReview(l, row) <==> ReviewOf(l, row) != None
  {
    var latest := Latest(l.reviews, row);
    if latest.Some? {
      assert l.reviews[latest.value].row == row;
    }
  }

  /** The reviewed rows of the upload that the newest review does not exclude. */
  function RowsKept(l: Ledger, run: nat): set<nat> {
    set row | row in RowsIn(l, run) && HasReview(l, row) && NewestOf(l, row).disposition != ExcludeRow
  }

  lemma FirstColumns(l: Ledger, run: nat)
    ensures var r := ReadinessOf(l, run);
      && r.total == |RowsIn(l, run)|
      && r.reviewed == |set row | row in RowsIn(l, run) && HasReview(l, row)|
      && r.excluded
         == |set row | row in RowsIn(l, run) && HasReview(l, row) && NewestOf(l, row).disposition == ExcludeRow|
  {
    assert RowsIn(l, run) == RowsOf(l, run);
    forall row ensures HasReview(l, row) <==> ReviewOf(l, row) == Some(NewestOf(l, row))
      ensures HasReview(l, row) <==> ReviewOf(l, row) != None
    {
      ReviewedHasReview(l, row);
    }
    assert (set row | row in RowsIn(l, run) && HasReview(l, row))
      == set row | row in RowsOf(l, run) && IsReviewed(l, row);
    assert (set row | row in RowsIn(l, run) && HasReview(l, row) && NewestOf(l, row).disposition == ExcludeRow)
        == set row | row in RowsOf(l, run) && Excluded(l, row);
  }

  lemma StateColumn(l: Ledger, run: nat)
    ensures ReadinessOf(l, run).needState
      == |set row | row in RowsKept(l, run) && NewestOf(l, row).state == NeedsInterpretation|
  {
    forall row ensures row in RowsKept(l, run) && NewestOf(l, row).state == NeedsInterpretation
      <==> row in RowsOf(l, run) && NeedsState(l, row)
    {
      ReviewedHasReview(l, row);
    }
    assert (set row | row in RowsKept(l, run) && NewestOf(l, row).state == NeedsInterpretation)
        == set row | row in RowsOf(l, run) && NeedsState(l, row);
  }

  lemma EffectsColumn(l: Ledger, run: nat)
    ensures ReadinessOf(l, run).needEffects
      == |set row | row in RowsKept(l, run) && row < |l.rows| && l.rows[row].needsEffects
                    && NewestOf(l, row).effects in {NotApplicable, PendingInterpretation}|
  {
    forall row: nat
      ensures row in RowsKept(l, run) && row < |l.rows| && l.rows[row].needsEffects
        && NewestOf(l, row).effects in {NotApplicable, PendingInterpretation}
      <==> row in RowsOf(l, run) && NeedsEffects(l, row)
    {
      ReviewedHasReview(l, row);
    }
    assert (set row | row in RowsKept(l, run) && row < |l.rows| && l.rows[row].needsEffects
                      && NewestOf(l, row).effects in {NotApplicable, PendingInterpretation})
        == set row | row in RowsOf(l, run) && NeedsEffects(l, row);
  }

  /** The five columns over the rows of the upload. */
  lemma ReadinessColumns(l: Ledger, run: nat)
    ensures var r := ReadinessOf(l, run);
      && r.total == |RowsIn(l, run)|
      && r.reviewed == |set row | row in RowsIn(l, run) && HasReview(l, row)|
      && r.excluded
         == |set row | row in RowsIn(l, run) && HasReview(l, row) && NewestOf(l, row).disposition == ExcludeRow|
      && r.needState == |set row | row in RowsKept(l, run) && NewestOf(l, row).state == NeedsInterpretation|
      && r.needEffects
         == |set row | row in RowsKept(l, run) && row < |l.rows| && l.rows[row].needsEffects
                       && NewestOf(l, row).effects in {NotApplicable, PendingInterpretation}|
  {
    FirstColumns(l, run);
    StateColumn(l, run);
    EffectsColumn(l, run);
  }

  /** What a sign-off needs of the form and of the upload. */
  predicate Grants(l: Ledger, run: nat, confirmed: bool, signatory: string, statement: string) {
    && confirmed
    && Trim(signatory) != "" && Bytes(Trim(signatory)) < 201
    && Trim(statement) != "" && Bytes(Trim(statement)) < 2001
    && (exists row :: 0 <= row < |l.rows| && l.rows[row].run == run)
    && forall row | 0 <= row < |l.rows| && l.rows[row].run == run :: Cleared(l, row)
  }

  /** The newest review of each row of the upload, and of no other row. */
  ghost predicate NamesNewest(l: Ledger, run: nat, snapshot: map<nat, nat>) {
    && (forall row: nat :: row in snapshot <==> row < |l.rows| && l.rows[row].run == run)
    && forall row | row in snapshot ::
      && snapshot[row] < |l.reviews| && l.reviews[snapshot[row]].row == row
      && forall j | snapshot[row] < j < |l.reviews| :: l.reviews[j].row != row
  }

  /** It is given exactly then, with the newest reviews. */
  lemma SignoffStores(l: Ledger, run: nat, confirmed: bool, signatory: string, statement: string)
    ensures var u := Apply(l, SignOff(run, confirmed, signatory, statement));
      if !Grants(l, run, confirmed, signatory, statement) then u == l
      else
        && u.rows == l.rows && u.reviews == l.reviews
        && |u.signoffs| == |l.signoffs| + 1 && u.signoffs[..|l.signoffs|] == l.signoffs
        && u.signoffs[|l.signoffs|].run == run && NamesNewest(l, run, u.signoffs[|l.signoffs|].snapshot)
  {
    GrantsExactly(l, run, confirmed, signatory, statement);
    if Grants(l, run, confirmed, signatory, statement) {
      SnapshotNames(l, run);
    }
  }

  lemma SnapshotNames(l: Ledger, run: nat)
    requires Ready(ReadinessOf(l, run))
    ensures NamesNewest(l, run, Snapshot(l, run))
  {
    SnapshotIsComplete(l, run);
    forall row: nat ensures row in Snapshot(l, run) <==> row < |l.rows| && l.rows[row].run == run {
      assert row in RowsOf(l, run) <==> row < |l.rows| && InRun(l, run, row);
    }
  }

  lemma GrantsExactly(l: Ledger, run: nat, confirmed: bool, signatory: string, statement: string)
    ensures Grants(l, run, confirmed, signatory, statement) <==>
      ValidSignature(confirmed, signatory, statement) && Ready(ReadinessOf(l, run))
  {
    ReadyExactly(l, run);
    forall row ensures Cleared(l, row) <==> Settled(l, row) {
      ClearedIsSettled(l, row);
    }
    if row :| 0 <= row < |l.rows| && l.rows[row].run == run {
      assert row in RowsOf(l, run);
    }
  }

  // -------- suggestions --------

  /** The quick form is offered for unreviewed rows with a sure match, a known state and nothing to interpret. */
  lemma OfferedExactly(l: Ledger, row: nat)
    ensures CanUseQuickReview(l, row) <==>
      && row < |l.rows| && (forall k | 0 <= k < |l.reviews| :: l.reviews[k].row != row)
      && l.rows[row].matched.Some? && l.rows[row].matched.value >= 1
      && l.rows[row].status in {MatchedExact, MatchedNormalized}
      && l.rows[row].hint in {Some(Open), Some(Closed)} && !l.rows[row].needsEffects
      && Trim(l.rows[row].exception) == ""
    ensures HasReview(l, row) ==> SuggestedState(l, row) == NewestOf(l, row).state
    ensures CanUseQuickReview(l, row) ==> l.rows[row].hint == Some(SuggestedState(l, row))
    ensures row < |l.rows| && ReviewOf(l, row).None? && l.rows[row].hint.None? ==>
      SuggestedState(l, row) == NeedsInterpretation
  {
  }

  /** The hidden fields accept the match with the suggested state, for rows without effects. */
  lemma QuickFormFields(l: Ledger, row: nat, texts: Signature)
    requires CanUseQuickReview(l, row)
    ensures var input := QuickInput(l, row, texts);
      && input.disposition == Some(AcceptMatch) && Some(input.intake) == l.rows[row].matched
      && input.state == l.rows[row].hint && input.effects == Some(NotApplicable)
      && input.reason == texts.reason && input.reviewer == texts.reviewer
  {
    OfferedExactly(l, row);
  }

  function Positions(rows: seq<nat>, keep: nat -> bool): set<int> {
    set i | 0 <= i < |rows| && keep(rows[i])
  }

  lemma OnePosition(rows: seq<nat>, keep: nat -> bool)
    requires rows != []
    ensures var n := |rows| - 1;
      && Positions(rows, keep) == Positions(rows[..n], keep) + (if keep(rows[n]) then {n} else {})
      && n !in Positions(rows[..n], keep)
  {
    var n := |rows| - 1;
    assert forall i | 0 <= i < n :: rows[..n][i] == rows[i];
  }

  /** The page's counters count positions. */
  lemma {:induction false} CountsPositions(rows: seq<nat>, keep: nat -> bool)
    ensures CountIf(rows, keep) == |Positions(rows, keep)|
    decreases |rows|
  {
    if rows != [] {
      CountsPositions(rows[..|rows| - 1], keep);
      OnePosition(rows, keep);
    }
  }

  /** A run takes one action after another. */
  lemma RunTakesEach(l: Ledger, actions: seq<Action>, a: Action)
    ensures Run(l, []) == l && Run(l, actions + [a]) == Apply(Run(l, actions), a)
  {
    assert (actions + [a])[..|actions|] == actions;
  }
}
