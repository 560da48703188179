/** Administrator sign-in: the lockout after failed passwords and the emailed second code. */
module Lockout {
  import opened Common

  /** Instants and durations, in seconds. */
  type Instant = int

  datatype Policy = Policy(maxAttempts: int, duration: int)

  ghost predicate Sound(p: Policy) {
    p.maxAttempts > 0 && p.duration > 0
  }

  /** The configured values, where they are numbers above zero, or five attempts and fifteen minutes. */
  function PolicyOf(attempts: Option<int>, minutes: Option<int>): (p: Policy)
    ensures Sound(p)
  {
    Policy(
      if attempts.Some? && attempts.value > 0 then attempts.value else 5,
      60 * if minutes.Some? && minutes.value > 0 then minutes.value else 15)
  }

  datatype Code = Code(hash: string, expires: Instant, used: bool)

  /** The columns of an account, and its codes in the order they were created. */
  datatype Account = Account(active: bool, failed: int, locked: Option<Instant>, codes: seq<Code>)

  datatype Outcome = Disabled | Locked | WrongPassword | SignedIn

  // -------- passwords --------

  function RecordFailure(a: Account, p: Policy, now: Instant): Account {
    a.(failed := a.failed + 1, locked := if a.failed + 1 >= p.maxAttempts then Some(now + p.duration) else a.locked)
  }

  predicate IsLocked(a: Account, now: Instant) {
    a.locked.Some? && now < a.locked.value
  }

  /** The password is compared only for an account that is active and not locked. */
  function OutcomeOf(a: Account, now: Instant, right: bool): Outcome {
    if !a.active then Disabled else if IsLocked(a, now) then Locked else if right then SignedIn else WrongPassword
  }

  function Attempted(a: Account, p: Policy, now: Instant, right: bool): Account {
    match OutcomeOf(a, now, right)
    case WrongPassword => RecordFailure(a, p, now)
    case SignedIn => a.(failed := 0, locked := None)
    case _ => a
  }

  datatype Attempt = Attempt(now: Instant, right: bool)

  function After(a: Account, p: Policy, attempts: seq<Attempt>): Account
    decreases |attempts|
  {
    if attempts == [] then a
    else
      var last := attempts[|attempts| - 1];
      Attempted(After(a, p, attempts[..|attempts| - 1]), p, last.now, last.right)
  }

  /** The attempts whose password was compared. */
  function Checks(a: Account, p: Policy, attempts: seq<Attempt>): nat
    decreases |attempts|
  {
    if attempts == [] then 0
    else
      var earlier, last := attempts[..|attempts| - 1], attempts[|attempts| - 1];
      var outcome := OutcomeOf(After(a, p, earlier), last.now, last.right);
      Checks(a, p, earlier) + if outcome.WrongPassword? || outcome.SignedIn? then 1 else 0
  }

  /** Nobody signed in. */
  predicate SuccessFree(a: Account, p: Policy, attempts: seq<Attempt>)
    decreases |attempts|
  {
    attempts == [] ||
    var earlier, last := attempts[..|attempts| - 1], attempts[|attempts| - 1];
    SuccessFree(a, p, earlier) && OutcomeOf(After(a, p, earlier), last.now, last.right) != SignedIn
  }

  predicate InOrder(attempts: seq<Attempt>) {
    forall i, j | 0 <= i < j < |attempts| :: attempts[i].now <= attempts[j].now
  }

  /** An account whose failures and lock have been cleared. */
  predicate Reset(a: Account) {
    a.failed == 0 && a.locked.None?
  }

  /** The failures are counted exactly, and past the limit each of them was a whole lock after the one before. */
  lemma {:induction false} FailuresAreSpaced(a: Account, p: Policy, attempts: seq<Attempt>)
    requires Reset(a) && Sound(p) && InOrder(attempts) && SuccessFree(a, p, attempts)
    ensures var end, n := After(a, p, attempts), Checks(a, p, attempts);
      && end.failed == n && end.active == a.active
      && (n < p.maxAttempts ==> end.locked.None?)
      && (n >= p.maxAttempts ==> attempts != [] && end.locked.Some?)
      && (n >= p.maxAttempts ==> end.locked.value <= attempts[|attempts| - 1].now + p.duration)
      && (n >= p.maxAttempts ==> end.locked.value - attempts[0].now >= (n - p.maxAttempts + 1) * p.duration)
    decreases |attempts|
  {
    if attempts != [] {
      var earlier, last := attempts[..|attempts| - 1], attempts[|attempts| - 1];
      FailuresAreSpaced(a, p, earlier);
      var n := Checks(a, p, earlier);
      var mid := After(a, p, earlier);
      assert earlier != [] ==> earlier[0] == attempts[0] && earlier[|earlier| - 1].now <= last.now;
      if OutcomeOf(mid, last.now, last.right).WrongPassword? && n + 1 >= p.maxAttempts {
        Spaced(last.now, attempts[0].now, n - p.maxAttempts + 1, p.duration);
      }
    }
  }

  lemma Spaced(now: Instant, first: Instant, k: nat, duration: int)
    requires now - first >= k * duration
    ensures now + duration - first >= (k + 1) * duration
  {
  }

  /**
   * The bound on guessing: from a reset account, a run in which nobody signs in compares at most as
   * many passwords as the limit allows, and one more for each whole lock that the run lasts.
   */
  lemma ChecksAreBounded(a: Account, p: Policy, attempts: seq<Attempt>)
    requires Reset(a) && Sound(p) && InOrder(attempts) && SuccessFree(a, p, attempts) && attempts != []
    ensures Checks(a, p, attempts) <= p.maxAttempts + (attempts[|attempts| - 1].now - attempts[0].now) / p.duration
  {
    FailuresAreSpaced(a, p, attempts);
    var n, span := Checks(a, p, attempts), attempts[|attempts| - 1].now - attempts[0].now;
    if n >= p.maxAttempts {
      assert (n - p.maxAttempts + 1) * p.duration == (n - p.maxAttempts) * p.duration + p.duration;
      QuotientAtLeast(span, n - p.maxAttempts, p.duration);
    } else {
      QuotientAtLeast(span, 0, p.duration);
    }
  }

  lemma QuotientAtLeast(x: int, k: nat, d: int)
    requires d > 0 && x >= k * d
    ensures x / d >= k
  {
    var q := x / d;
    assert x == d * q + x % d;
    AtMost(q + 1, k, d);
  }

  lemma AtMost(i: int, j: int, d: int)
    requires d > 0
    ensures i <= j ==> i * d <= j * d
  {
  }

  /** The run that guesses as often as it can: the limit at once, then once at the end of every lock. */
  function Patient(p: Policy, first: Instant, n: nat): (attempts: seq<Attempt>)
    ensures |attempts| == n
    ensures forall k | 0 <= k < n :: attempts[k] == Attempt(GuessTime(p, first, k), false)
  {
    seq(n, k requires 0 <= k < n => Attempt(GuessTime(p, first, k), false))
  }

  function GuessTime(p: Policy, first: Instant, k: nat): Instant {
    first + if k < p.maxAttempts then 0 else (k - p.maxAttempts + 1) * p.duration
  }

  lemma {:induction false} PatientGuesses(a: Account, p: Policy, first: Instant, n: nat)
    requires Reset(a) && Sound(p) && a.active
    ensures var attempts := Patient(p, first, n);
      && Checks(a, p, attempts) == n && SuccessFree(a, p, attempts)
      && After(a, p, attempts) == a.(failed := n,
             locked := if n < p.maxAttempts then None else Some(GuessTime(p, first, n)))
    decreases n
  {
    if n > 0 {
      var attempts, earlier := Patient(p, first, n), Patient(p, first, n - 1);
      PatientGuesses(a, p, first, n - 1);
      assert attempts[..n - 1] == earlier;
      assert n - 1 >= p.maxAttempts ==> GuessTime(p, first, n) == GuessTime(p, first, n - 1) + p.duration by {
        Step(n - p.maxAttempts, p.duration);
      }
    }
  }

  lemma Step(k: int, d: int)
    ensures (k + 1) * d == k * d + d
  {
  }

  /** `start` and then `n` times `d`. */
  function Plus(start: int, d: int, n: nat): int {
    if n == 0 then start else Plus(start, d, n - 1) + d
  }

  lemma {:induction false} PlusIs(start: int, d: int, n: nat)
    ensures Plus(start, d, n) == start + n * d
    decreases n
  {
    if n > 0 {
      PlusIs(start, d, n - 1);
      Step(n - 1, d);
    }
  }

  lemma TimesInOrder(p: Policy, first: Instant, i: nat, j: nat)
    requires Sound(p) && i <= j
    ensures GuessTime(p, first, i) <= GuessTime(p, first, j)
  {
    if i >= p.maxAttempts {
      assert (i - p.maxAttempts + 1) * p.duration <= (j - p.maxAttempts + 1) * p.duration;
    } else if j >= p.maxAttempts {
      assert 0 <= (j - p.maxAttempts + 1) * p.duration;
    }
  }

  /** A run that lasts this many locks and compares as many passwords as the bound allows. */
  ghost predicate Reaches(a: Account, p: Policy, attempts: seq<Attempt>, locks: nat) {
    && attempts != [] && InOrder(attempts) && SuccessFree(a, p, attempts) && p.duration > 0
    && (attempts[|attempts| - 1].now - attempts[0].now) / p.duration == locks
    && Checks(a, p, attempts) == p.maxAttempts + locks
  }

  /** The bound cannot be lowered: for every limit, lock and number of locks some run reaches it. */
  lemma BoundIsReached(a: Account, p: Policy, first: Instant, locks: nat)
    requires Reset(a) && Sound(p) && a.active
    ensures exists attempts :: Reaches(a, p, attempts, locks)
  {
    var n := p.maxAttempts + locks;
    var attempts := Patient(p, first, n);
    PatientGuesses(a, p, first, n);
    forall i, j | 0 <= i < j < n ensures attempts[i].now <= attempts[j].now {
      TimesInOrder(p, first, i, j);
    }
    PatientSpan(p, first, locks);
    assert attempts[n - 1].now - attempts[0].now == locks * p.duration;
    assert Reaches(a, p, attempts, locks);
  }

  lemma PatientSpan(p: Policy, first: Instant, locks: nat)
    requires Sound(p)
    ensures GuessTime(p, first, p.maxAttempts + locks - 1) - GuessTime(p, first, 0) == locks * p.duration
    ensures (locks * p.duration) / p.duration == locks
  {
    QuotientAtLeast(locks * p.duration, locks, p.duration);
    var q := (locks * p.duration) / p.duration;
    assert locks * p.duration == p.duration * q + (locks * p.duration) % p.duration;
    AtMost(locks + 1, q, p.duration);
    Step(locks, p.duration);
  }

  /** Signing in clears the failures, so that the bound starts again. */
  lemma SuccessResets(a: Account, p: Policy, now: Instant, right: bool)
    ensures OutcomeOf(a, now, right) == SignedIn ==> Reset(Attempted(a, p, now, right))
    ensures OutcomeOf(a, now, right) in {Disabled, Locked} ==> Attempted(a, p, now, right) == a
  {
  }

  // -------- the second code --------

  const CODE_SECONDS := 600

  datatype CodeOutcome = NoCode | AlreadyUsed | CodeExpired | InvalidCode | Accepted

  function CodeOutcomeOf(codes: seq<Code>, hash: string, now: Instant): CodeOutcome {
    if codes == [] then NoCode
    else
      var newest := codes[|codes| - 1];
      if newest.used then AlreadyUsed
      else if now > newest.expires then CodeExpired
      else if newest.hash != hash then InvalidCode
      else Accepted
  }

  /** An accepted code marks every code of the account as used. */
  function Verified(codes: seq<Code>, hash: string, now: Instant): (after: seq<Code>)
    ensures |after| == |codes|
    ensures CodeOutcomeOf(codes, hash, now).Accepted? ==>
      forall k | 0 <= k < |codes| :: after[k] == codes[k].(used := true)
    ensures !CodeOutcomeOf(codes, hash, now).Accepted? ==> after == codes
  {
    if CodeOutcomeOf(codes, hash, now).Accepted? then
      seq(|codes|, k requires 0 <= k < |codes| => codes[k].(used := true))
    else codes
  }

  /** Signing in with a password, which sends a code, or with a code. */
  datatype Login = Password(now: Instant, right: bool, hash: string) | SecondCode(now: Instant, hash: string)

  function LogIn(a: Account, p: Policy, step: Login): Account {
    match step
    case Password(now, right, hash) =>
      var next := Attempted(a, p, now, right);
      if OutcomeOf(a, now, right) == SignedIn then next.(codes := next.codes + [Code(hash, now + CODE_SECONDS, false)])
      else next
    case SecondCode(now, hash) => a.(codes := Verified(a.codes, hash, now))
  }

  predicate SendsCode(a: Account, step: Login) {
    step.Password? && OutcomeOf(a, step.now, step.right) == SignedIn
  }

  predicate AcceptsCode(a: Account, step: Login) {
    step.SecondCode? && CodeOutcomeOf(a.codes, step.hash, step.now).Accepted?
  }

  function LogInAll(a: Account, p: Policy, steps: seq<Login>): Account
    decreases |steps|
  {
    if steps == [] then a else LogIn(LogInAll(a, p, steps[..|steps| - 1]), p, steps[|steps| - 1])
  }

  function CodesSent(a: Account, p: Policy, steps: seq<Login>): nat
    decreases |steps|
  {
    if steps == [] then 0
    else
      var earlier := steps[..|steps| - 1];
      CodesSent(a, p, earlier) + if SendsCode(LogInAll(a, p, earlier), steps[|steps| - 1]) then 1 else 0
  }

  function CodesAccepted(a: Account, p: Policy, steps: seq<Login>): nat
    decreases |steps|
  {
    if steps == [] then 0
    else
      var earlier := steps[..|steps| - 1];
      CodesAccepted(a, p, earlier) + if AcceptsCode(LogInAll(a, p, earlier), steps[|steps| - 1]) then 1 else 0
  }

  /** Whether the newest code could still be accepted. */
  function Pending(a: Account): nat {
    if a.codes != [] && !a.codes[|a.codes| - 1].used then 1 else 0
  }

  /** Every second sign-in uses up a password sign-in: no code, and no code but the newest, is accepted twice. */
  lemma {:induction false} AcceptedOnce(a: Account, p: Policy, steps: seq<Login>)
    requires a.codes == []
    ensures CodesAccepted(a, p, steps) + Pending(LogInAll(a, p, steps)) <= CodesSent(a, p, steps)
    decreases |steps|
  {
    if steps != [] {
      AcceptedOnce(a, p, steps[..|steps| - 1]);
    }
  }

  /** After a password sign-in its own code is accepted for ten minutes and no other is. */
  lemma NewestCodeOnly(a: Account, p: Policy, now: Instant, hash: string, later: Instant, other: string)
    requires OutcomeOf(a, now, true) == SignedIn
    ensures CodeOutcomeOf(LogIn(a, p, Password(now, true, hash)).codes, other, later).Accepted?
      <==> other == hash && later <= now + CODE_SECONDS
  {
  }

  // -------- the account --------

  class Admin {
    var account: Account

    constructor ()
      ensures account == Account(true, 0, None, [])
    {
      account := Account(true, 0, None, []);
    }

    method RecordFailedAttempt(p: Policy, now: Instant)
      modifies this
      ensures account == RecordFailure(old(account), p, now)
    {
      var failed := account.failed;
      account := account.(failed := failed + 1);
      if failed + 1 >= p.maxAttempts {
        account := account.(locked := Some(now + p.duration));
      }
    }

    method VerifyPasswordOnly(p: Policy, now: Instant, right: bool) returns (outcome: Outcome)
      modifies this
      ensures outcome == OutcomeOf(old(account), now, right)
      ensures account == Attempted(old(account), p, now, right)
    {
      if !account.active {
        return Disabled;
      }
      if account.locked.Some? && now < account.locked.value {
        return Locked;
      }
      if !right {
        RecordFailedAttempt(p, now);
        return WrongPassword;
      }
      account := account.(failed := 0, locked := None);
      return SignedIn;
    }

    /** The same checks, and then a code that is stored before it is sent. */
    method StartLogin(p: Policy, now: Instant, right: bool, hash: string) returns (outcome: Outcome)
      modifies this
      ensures outcome == OutcomeOf(old(account), now, right)
      ensures account == LogIn(old(account), p, Password(now, right, hash))
    {
      outcome := VerifyPasswordOnly(p, now, right);
      if outcome == SignedIn {
        account := account.(codes := account.codes + [Code(hash, now + CODE_SECONDS, false)]);
      }
    }

    method VerifyCode(hash: string, now: Instant) returns (outcome: CodeOutcome)
      modifies this
      ensures outcome == CodeOutcomeOf(old(account).codes, hash, now)
      ensures account == old(account).(codes := Verified(old(account).codes, hash, now))
    {
      outcome := CodeOutcomeOf(account.codes, hash, now);
      if outcome.Accepted? {
        var codes := account.codes;
        account := account.(codes := seq(|codes|, k requires 0 <= k < |codes| => codes[k].(used := true)));
      }
    }
  }
}
