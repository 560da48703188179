/**
 * Sign-in requests that run at the same time. The handlers read the account, decide, and write in a
 * separate statement without a lock, so that what several of them have read may be out of date when
 * they write. A request is in flight between its two statements.
 */
module LockoutParallel {
  import opened Common
  import opened Lockout

  // -------- passwords --------

  /** The stored account, and the requests that have compared a password and not yet written the outcome. */
  datatype Busy = Busy(account: Account, failing: nat, signing: nat)

  /** A request reads the account and compares its password, or writes a failure or a success. */
  datatype Move = Check(now: Instant, right: bool) | WriteFailure(now: Instant) | WriteSuccess(now: Instant)

  function Next(b: Busy, p: Policy, m: Move): Busy {
    match m
    case Check(now, right) =>
      (match OutcomeOf(b.account, now, right)
       case WrongPassword => b.(failing := b.failing + 1)
       case SignedIn => b.(signing := b.signing + 1)
       case _ => b)
    case WriteFailure(now) =>
      if b.failing == 0 then b else Busy(RecordFailure(b.account, p, now), b.failing - 1, b.signing)
    case WriteSuccess(_) =>
      if b.signing == 0 then b else Busy(b.account.(failed := 0, locked := None), b.failing, b.signing - 1)
  }

  predicate Compares(b: Busy, m: Move) {
    m.Check? && OutcomeOf(b.account, m.now, m.right) in {WrongPassword, SignedIn}
  }

  function Moved(b: Busy, p: Policy, moves: seq<Move>): Busy
    decreases |moves|
  {
    if moves == [] then b else Next(Moved(b, p, moves[..|moves| - 1]), p, moves[|moves| - 1])
  }

  /** The passwords compared. */
  function Compared(b: Busy, p: Policy, moves: seq<Move>): nat
    decreases |moves|
  {
    if moves == [] then 0
    else
      var earlier := moves[..|moves| - 1];
      Compared(b, p, earlier) + if Compares(Moved(b, p, earlier), moves[|moves| - 1]) then 1 else 0
  }

  /** Nobody signs in, and no more than `k` requests are in flight at once. */
  predicate Guessing(b: Busy, p: Policy, moves: seq<Move>, k: nat)
    decreases |moves|
  {
    Moved(b, p, moves).failing <= k && Moved(b, p, moves).signing == 0
    && (moves != [] ==> Guessing(b, p, moves[..|moves| - 1], k))
  }

  predicate Chronological(moves: seq<Move>) {
    forall i, j | 0 <= i < j < |moves| :: moves[i].now <= moves[j].now
  }

  predicate Idle(b: Busy) {
    b.failing == 0 && b.signing == 0
  }

  /** The passwords compared since a failure was last written: their requests are all still in flight. */
  function Recent(b: Busy, p: Policy, moves: seq<Move>): nat
    decreases |moves|
  {
    if moves == [] then 0
    else
      var earlier, last := moves[..|moves| - 1], moves[|moves| - 1];
      if last.WriteFailure? && Moved(b, p, earlier).failing > 0 then 0
      else Recent(b, p, earlier) + if Compares(Moved(b, p, earlier), last) then 1 else 0
  }

  /** The first lock, and each later failure that follows a comparison made when the lock had ended. */
  function Rounds(b: Busy, p: Policy, moves: seq<Move>): nat
    decreases |moves|
  {
    if moves == [] then 0
    else
      var earlier, last := moves[..|moves| - 1], moves[|moves| - 1];
      var mid := Moved(b, p, earlier);
      Rounds(b, p, earlier)
      + if last.WriteFailure? && mid.failing > 0 && NewRound(mid.account, p, Recent(b, p, earlier)) then 1 else 0
  }

  predicate NewRound(a: Account, p: Policy, recent: nat) {
    a.failed + 1 == p.maxAttempts || (a.failed >= p.maxAttempts && recent > 0)
  }

  /** What has been compared, and how long the locks have lasted. */
  datatype Tally = Tally(compared: nat, failing: nat, recent: nat, rounds: nat)

  /** At most `k` comparisons fall to each round, and each round lasts a whole lock. */
  ghost predicate Accounted(a: Account, p: Policy, k: nat, t: Tally, first: Instant, last: Instant) {
    && t.recent <= t.failing
    && if a.failed < p.maxAttempts then a.locked.None? && t.compared == a.failed + t.failing && t.rounds == 0
       else
         && a.locked.Some? && a.locked.value <= last + p.duration && t.rounds > 0
         && (t.recent > 0 ==> last >= a.locked.value)
         && t.compared <= Plus(p.maxAttempts - 1, k, t.rounds) + t.recent
         && a.locked.value >= Plus(first, p.duration, t.rounds)
  }

  /** A failure is written: the lock moves on by a whole duration if a password was compared since the last one. */
  lemma FailureAccounted(a: Account, p: Policy, k: nat, t: Tally, first: Instant, last: Instant, now: Instant)
    requires Sound(p) && first <= last <= now && 0 < t.failing <= k
    requires Accounted(a, p, k, t, first, last)
    ensures Accounted(
      RecordFailure(a, p, now), p, k,
      Tally(t.compared, t.failing - 1, 0, t.rounds + if NewRound(a, p, t.recent) then 1 else 0), first, now)
  {
  }

  function TallyOf(b: Busy, p: Policy, moves: seq<Move>): Tally {
    Tally(Compared(b, p, moves), Moved(b, p, moves).failing, Recent(b, p, moves), Rounds(b, p, moves))
  }

  lemma {:induction false} AllAccounted(b: Busy, p: Policy, moves: seq<Move>, k: nat)
    requires Reset(b.account) && Idle(b) && Sound(p) && moves != [] && Chronological(moves) && Guessing(b, p, moves, k)
    ensures Accounted(
      Moved(b, p, moves).account, p, k, TallyOf(b, p, moves), moves[0].now, moves[|moves| - 1].now)
    decreases |moves|
  {
    var earlier, m := moves[..|moves| - 1], moves[|moves| - 1];
    var mid := Moved(b, p, earlier);
    if earlier == [] {
      assert mid == b && TallyOf(b, p, earlier) == Tally(0, 0, 0, 0);
    } else {
      AllAccounted(b, p, earlier, k);
      assert earlier[0] == moves[0] && earlier[|earlier| - 1].now <= m.now;
      if m.WriteFailure? && mid.failing > 0 {
        FailureAccounted(
          mid.account, p, k, TallyOf(b, p, earlier), moves[0].now, earlier[|earlier| - 1].now, m.now);
      }
    }
  }

  /** Rounds that fit into a span are no more than it has whole locks, and one. */
  lemma RoundsFit(k: nat, rounds: nat, recent: nat, span: int, d: int)
    requires d > 0 && recent <= k && rounds > 0
    requires span >= if recent > 0 then Plus(0, d, rounds) else Plus(0, d, rounds - 1)
    ensures Plus(0, k, rounds) + recent <= k + k * (span / d)
  {
    var fit := if recent > 0 then rounds else rounds - 1;
    PlusIs(0, d, fit);
    QuotientAtLeast(span, fit, d);
    PlusIs(0, k, rounds);
    PlusIs(0, k, fit);
    if k > 0 {
      AtMost(fit, span / d, k);
    }
  }

  lemma {:induction false} PlusFrom(start: int, d: int, n: nat)
    ensures Plus(start, d, n) == start + Plus(0, d, n)
    decreases n
  {
    if n > 0 {
      PlusFrom(start, d, n - 1);
    }
  }

  /**
   * The bound on guessing with `k` requests in flight: the limit and the k - 1 that the last failure
   * before the first lock left in flight, and k more for each whole lock that the run lasts.
   */
  lemma ParallelChecksAreBounded(b: Busy, p: Policy, moves: seq<Move>, k: nat)
    requires Reset(b.account) && Idle(b) && Sound(p) && moves != [] && Chronological(moves)
    requires k > 0 && Guessing(b, p, moves, k)
    ensures Compared(b, p, moves)
      <= p.maxAttempts + k - 1 + k * ((moves[|moves| - 1].now - moves[0].now) / p.duration)
  {
    AllAccounted(b, p, moves, k);
    var a, t := Moved(b, p, moves).account, TallyOf(b, p, moves);
    var span := moves[|moves| - 1].now - moves[0].now;
    if a.failed >= p.maxAttempts {
      PlusFrom(p.maxAttempts - 1, k, t.rounds);
      PlusFrom(moves[0].now, p.duration, t.rounds);
      RoundsFit(k, t.rounds, t.recent, span, p.duration);
    } else {
      NotNegative(k, span, p.duration);
    }
  }

  lemma NotNegative(k: nat, span: nat, d: int)
    requires d > 0
    ensures k * (span / d) >= 0
  {
    QuotientAtLeast(span, 0, d);
  }

  // -------- runs put together --------

  lemma {:induction false} MovedOn(b: Busy, p: Policy, xs: seq<Move>, ys: seq<Move>, k: nat)
    ensures Moved(b, p, xs + ys) == Moved(Moved(b, p, xs), p, ys)
    ensures Compared(b, p, xs + ys) == Compared(b, p, xs) + Compared(Moved(b, p, xs), p, ys)
    ensures Guessing(b, p, xs, k) && Guessing(Moved(b, p, xs), p, ys, k) ==> Guessing(b, p, xs + ys, k)
    decreases |ys|
  {
    if ys == [] {
      assert xs + ys == xs;
    } else {
      var n := |ys| - 1;
      assert (xs + ys)[..|xs + ys| - 1] == xs + ys[..n] && (xs + ys)[|xs + ys| - 1] == ys[n];
      MovedOn(b, p, xs, ys[..n], k);
    }
  }

  // -------- one at a time --------

  /** An attempt on its own: it writes what it has to before the next one reads. */
  function Alone(attempts: seq<Attempt>): seq<Move> {
    if attempts == [] then []
    else
      var last := attempts[|attempts| - 1];
      Alone(attempts[..|attempts| - 1]) + [Check(last.now, last.right), WriteFailure(last.now), WriteSuccess(last.now)]
  }

  lemma LastMoved(b: Busy, p: Policy, earlier: seq<Move>, m: Move)
    ensures Moved(b, p, earlier + [m]) == Next(Moved(b, p, earlier), p, m)
    ensures Compared(b, p, earlier + [m]) == Compared(b, p, earlier)
      + if Compares(Moved(b, p, earlier), m) then 1 else 0
  {
    assert (earlier + [m])[..|earlier|] == earlier;
  }

  lemma ThreeMoves(b: Busy, p: Policy, x: Move, y: Move, z: Move)
    requires !y.Check? && !z.Check?
    ensures Moved(b, p, [x, y, z]) == Next(Next(Next(b, p, x), p, y), p, z)
    ensures Compared(b, p, [x, y, z]) == if Compares(b, x) then 1 else 0
  {
    LastMoved(b, p, [], x);
    LastMoved(b, p, [x], y);
    LastMoved(b, p, [x, y], z);
    assert [] + [x] == [x] && [x] + [y] == [x, y] && [x, y] + [z] == [x, y, z];
  }

  /** Requests that never overlap do what the attempts of `Lockout` do. */
  lemma {:induction false} AloneIsSequential(a: Account, p: Policy, attempts: seq<Attempt>)
    ensures Moved(Busy(a, 0, 0), p, Alone(attempts)) == Busy(After(a, p, attempts), 0, 0)
    ensures Compared(Busy(a, 0, 0), p, Alone(attempts)) == Checks(a, p, attempts)
    decreases |attempts|
  {
    if attempts != [] {
      var earlier, last := attempts[..|attempts| - 1], attempts[|attempts| - 1];
      AloneIsSequential(a, p, earlier);
      var mid := Busy(After(a, p, earlier), 0, 0);
      MovedOn(Busy(a, 0, 0), p, Alone(earlier),
        [Check(last.now, last.right), WriteFailure(last.now), WriteSuccess(last.now)], 0);
      ThreeMoves(mid, p, Check(last.now, last.right), WriteFailure(last.now), WriteSuccess(last.now));
    }
  }
}
