/** The run of overlapping sign-in requests that guesses as often as the bound on them allows. */
module LockoutSwarm {
  import opened Common
  import opened Lockout
  import opened LockoutParallel

  function ChecksAt(now: Instant, n: nat): (moves: seq<Move>)
    ensures |moves| == n && forall j | 0 <= j < n :: moves[j] == Check(now, false)
  {
    seq(n, j => Check(now, false))
  }

  function FailuresAt(now: Instant, n: nat): (moves: seq<Move>)
    ensures |moves| == n && forall j | 0 <= j < n :: moves[j] == WriteFailure(now)
  {
    seq(n, j => WriteFailure(now))
  }

  lemma {:induction false} ChecksMoved(b: Busy, p: Policy, now: Instant, n: nat, k: nat)
    requires b.account.active && !IsLocked(b.account, now) && Idle(b) && n <= k
    ensures Moved(b, p, ChecksAt(now, n)) == b.(failing := n)
    ensures Compared(b, p, ChecksAt(now, n)) == n && Guessing(b, p, ChecksAt(now, n), k)
    decreases n
  {
    if n > 0 {
      assert ChecksAt(now, n)[..n - 1] == ChecksAt(now, n - 1);
      ChecksMoved(b, p, now, n - 1, k);
    }
  }

  /** The account after so many failures at one instant. */
  function Failed(a: Account, p: Policy, now: Instant, n: nat): Account {
    a.(failed := a.failed + n,
       locked := if n > 0 && a.failed + n >= p.maxAttempts then Some(now + p.duration) else a.locked)
  }

  lemma {:induction false} FailuresMoved(b: Busy, p: Policy, now: Instant, n: nat, k: nat)
    requires n <= b.failing <= k && b.signing == 0 && b.account.failed >= 0
    ensures Moved(b, p, FailuresAt(now, n)) == Busy(Failed(b.account, p, now, n), b.failing - n, 0)
    ensures Compared(b, p, FailuresAt(now, n)) == 0 && Guessing(b, p, FailuresAt(now, n), k)
    decreases n
  {
    if n > 0 {
      assert FailuresAt(now, n)[..n - 1] == FailuresAt(now, n - 1);
      FailuresMoved(b, p, now, n - 1, k);
    }
  }

  /** So many requests that all read the account before any of them writes. */
  function Burst(now: Instant, n: nat): seq<Move> {
    ChecksAt(now, n) + FailuresAt(now, n)
  }

  lemma BurstMoved(b: Busy, p: Policy, now: Instant, n: nat, k: nat)
    requires b.account.active && !IsLocked(b.account, now) && Idle(b) && n <= k && b.account.failed >= 0
    ensures Moved(b, p, Burst(now, n)) == Busy(Failed(b.account, p, now, n), 0, 0)
    ensures Compared(b, p, Burst(now, n)) == n && Guessing(b, p, Burst(now, n), k)
  {
    ChecksMoved(b, p, now, n, k);
    FailuresMoved(b.(failing := n), p, now, n, k);
    MovedOn(b, p, ChecksAt(now, n), FailuresAt(now, n), k);
  }

  /** One at a time at first, up to one short of the limit. */
  function Opening(now: Instant, n: nat): seq<Move> {
    if n == 0 then [] else Opening(now, n - 1) + Burst(now, 1)
  }

  lemma {:induction false} OpeningMoved(b: Busy, p: Policy, now: Instant, n: nat, k: nat)
    requires b.account.active && Reset(b.account) && Idle(b) && n < p.maxAttempts && k > 0
    ensures Moved(b, p, Opening(now, n)) == b.(account := b.account.(failed := n))
    ensures Compared(b, p, Opening(now, n)) == n && Guessing(b, p, Opening(now, n), k)
    ensures forall j | 0 <= j < |Opening(now, n)| :: Opening(now, n)[j].now == now
    decreases n
  {
    if n > 0 {
      OpeningMoved(b, p, now, n - 1, k);
      var mid := Moved(b, p, Opening(now, n - 1));
      BurstMoved(mid, p, now, 1, k);
      MovedOn(b, p, Opening(now, n - 1), Burst(now, 1), k);
    }
  }

  /** The opening, then `k` requests at once whenever the lock ends. */
  function Swarm(p: Policy, first: Instant, k: nat, locks: nat): seq<Move>
    requires Sound(p)
  {
    if locks == 0 then Opening(first, p.maxAttempts - 1) + Burst(first, k)
    else Swarm(p, first, k, locks - 1) + Burst(Plus(first, p.duration, locks), k)
  }

  lemma {:induction false} PlusNotLess(start: int, d: nat, n: nat)
    ensures Plus(start, d, n) >= start
    decreases n
  {
    if n > 0 {
      PlusNotLess(start, d, n - 1);
    }
  }

  /** The account after `n` failures, the last of them at this instant. */
  function LockedAt(a: Account, p: Policy, n: int, last: Instant): Busy {
    Busy(a.(failed := n, locked := Some(last + p.duration)), 0, 0)
  }

  /** From `first` to `last` these moves compare `n` passwords, all wrong, and leave the account locked. */
  ghost predicate Guessed(a: Account, p: Policy, k: nat, moves: seq<Move>, n: int, first: Instant, last: Instant) {
    && moves != [] && moves[0].now == first && moves[|moves| - 1].now == last && Chronological(moves)
    && Moved(Busy(a, 0, 0), p, moves) == LockedAt(a, p, n, last)
    && Compared(Busy(a, 0, 0), p, moves) == n && Guessing(Busy(a, 0, 0), p, moves, k)
  }

  lemma BurstAtLimit(a: Account, p: Policy, k: nat, first: Instant)
    requires Reset(a) && a.active && Sound(p) && k > 0
    ensures var burst, b := Burst(first, k), Busy(a.(failed := p.maxAttempts - 1), 0, 0);
      && Moved(b, p, burst) == LockedAt(a, p, p.maxAttempts - 1 + k, first)
      && Compared(b, p, burst) == k && Guessing(b, p, burst, k)
  {
    BurstMoved(Busy(a.(failed := p.maxAttempts - 1), 0, 0), p, first, k, k);
  }

  lemma AtOnce(moves: seq<Move>, burst: seq<Move>, at: Instant)
    requires burst != []
    requires (forall j | 0 <= j < |moves| :: moves[j].now == at) && forall j | 0 <= j < |burst| :: burst[j].now == at
    ensures Chronological(moves + burst) && (moves + burst)[0].now == at
      && (moves + burst)[|moves + burst| - 1].now == at
  {
    assert forall j | 0 <= j < |moves + burst| :: (moves + burst)[j].now == at;
  }

  lemma FirstBurst(a: Account, p: Policy, first: Instant, k: nat)
    requires Reset(a) && a.active && Sound(p) && k > 0
    ensures Guessed(a, p, k, Opening(first, p.maxAttempts - 1) + Burst(first, k), p.maxAttempts - 1 + k, first, first)
  {
    var b, opening := Busy(a, 0, 0), Opening(first, p.maxAttempts - 1);
    OpeningMoved(b, p, first, p.maxAttempts - 1, k);
    BurstAtLimit(a, p, k, first);
    MovedOn(b, p, opening, Burst(first, k), k);
    AtOnce(opening, Burst(first, k), first);
  }

  lemma BurstAtUnlock(a: Account, p: Policy, k: nat, n: int, last: Instant)
    requires a.active && Sound(p) && k > 0 && n >= p.maxAttempts
    ensures var burst, b := Burst(last + p.duration, k), LockedAt(a, p, n, last);
      && Moved(b, p, burst) == LockedAt(a, p, n + k, last + p.duration)
      && Compared(b, p, burst) == k && Guessing(b, p, burst, k)
  {
    BurstMoved(LockedAt(a, p, n, last), p, last + p.duration, k, k);
  }

  lemma NextBurst(a: Account, p: Policy, k: nat, moves: seq<Move>, n: int, first: Instant, last: Instant)
    requires a.active && Sound(p) && k > 0 && n >= p.maxAttempts && Guessed(a, p, k, moves, n, first, last)
    ensures Guessed(a, p, k, moves + Burst(last + p.duration, k), n + k, first, last + p.duration)
  {
    BurstAtUnlock(a, p, k, n, last);
    MovedOn(Busy(a, 0, 0), p, moves, Burst(last + p.duration, k), k);
    InTime(moves, Burst(last + p.duration, k), last + p.duration);
  }

  lemma InTime(moves: seq<Move>, burst: seq<Move>, at: Instant)
    requires Chronological(moves) && moves != [] && moves[|moves| - 1].now <= at
    requires forall j | 0 <= j < |burst| :: burst[j].now == at
    ensures Chronological(moves + burst)
  {
    assert forall i | 0 <= i < |moves| :: moves[i].now <= moves[|moves| - 1].now;
  }

  ghost predicate SwarmGuessed(a: Account, p: Policy, first: Instant, k: nat, locks: nat)
    requires Sound(p)
  {
    Guessed(a, p, k, Swarm(p, first, k, locks), Plus(p.maxAttempts - 1 + k, k, locks), first,
      Plus(first, p.duration, locks))
  }

  lemma SwarmGoesOn(a: Account, p: Policy, first: Instant, k: nat, locks: nat)
    requires a.active && Sound(p) && k > 0 && SwarmGuessed(a, p, first, k, locks)
    ensures SwarmGuessed(a, p, first, k, locks + 1)
  {
    var n, last := Plus(p.maxAttempts - 1 + k, k, locks), Plus(first, p.duration, locks);
    PlusNotLess(p.maxAttempts - 1 + k, k, locks);
    NextBurst(a, p, k, Swarm(p, first, k, locks), n, first, last);
  }

  lemma SwarmStarts(a: Account, p: Policy, first: Instant, k: nat)
    requires Reset(a) && a.active && Sound(p) && k > 0
    ensures SwarmGuessed(a, p, first, k, 0)
  {
    FirstBurst(a, p, first, k);
  }

  lemma {:induction false} SwarmMoved(a: Account, p: Policy, first: Instant, k: nat, locks: nat)
    requires Reset(a) && a.active && Sound(p) && k > 0
    ensures SwarmGuessed(a, p, first, k, locks)
    decreases locks
  {
    if locks == 0 {
      SwarmStarts(a, p, first, k);
    } else {
      SwarmMoved(a, p, first, k, locks - 1);
      SwarmGoesOn(a, p, first, k, locks - 1);
    }
  }

  /** A run that lasts this many locks and compares as many passwords as the bound allows. */
  ghost predicate ReachesWith(b: Busy, p: Policy, moves: seq<Move>, k: nat, locks: nat) {
    && moves != [] && Chronological(moves) && Guessing(b, p, moves, k) && p.duration > 0
    && (moves[|moves| - 1].now - moves[0].now) / p.duration == locks
    && Compared(b, p, moves) == p.maxAttempts + k - 1 + k * locks
  }

  /** The bound cannot be lowered, whatever the limit, the lock, the requests in flight and the number of locks. */
  lemma ParallelBoundIsReached(a: Account, p: Policy, first: Instant, k: nat, locks: nat)
    requires Reset(a) && a.active && Sound(p) && k > 0
    ensures exists moves :: ReachesWith(Busy(a, 0, 0), p, moves, k, locks)
  {
    SwarmMoved(a, p, first, k, locks);
    PlusIs(p.maxAttempts - 1 + k, k, locks);
    PlusIs(first, p.duration, locks);
    PatientSpan(p, first, locks);
    Commutes(locks, k);
    assert ReachesWith(Busy(a, 0, 0), p, Swarm(p, first, k, locks), k, locks);
  }

  lemma Commutes(i: int, j: int)
    ensures i * j == j * i
  {
  }
}
