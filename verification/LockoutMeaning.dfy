/** What the sign-in steps decide and store, field by field. */
module LockoutMeaning {
  import opened Common
  import opened Lockout

  /** A setting counts if it is a number above zero; the fallbacks are five attempts and a quarter of an hour. */
  lemma PolicyExactly(attempts: Option<int>, minutes: Option<int>)
    ensures var p := PolicyOf(attempts, minutes);
      && (attempts.Some? && attempts.value >= 1 ==> p.maxAttempts == attempts.value)
      && (attempts == None || attempts.value < 1 ==> p.maxAttempts == 5)
      && (minutes.Some? && minutes.value >= 1 ==> p.duration == minutes.value * 60)
      && (minutes == None || minutes.value < 1 ==> p.duration == 900)
  {
  }

  /** A disabled account comes first, then a lock that has not ended, and only then the password. */
  lemma OutcomeExactly(a: Account, now: Instant, right: bool)
    ensures OutcomeOf(a, now, right) == Disabled <==> !a.active
    ensures OutcomeOf(a, now, right) == Locked <==> a.active && a.locked.Some? && a.locked.value > now
    ensures OutcomeOf(a, now, right) == SignedIn <==> a.active && (a.locked == None || a.locked.value <= now) && right
    ensures OutcomeOf(a, now, right) == WrongPassword <==>
      a.active && (a.locked == None || a.locked.value <= now) && !right
  {
  }

  /** A wrong password counts and locks at the limit, a right one clears both, and nothing else writes. */
  lemma AttemptStores(a: Account, p: Policy, now: Instant, right: bool)
    ensures var u := Attempted(a, p, now, right);
      && u.active == a.active && u.codes == a.codes
      && if !a.active || (a.locked.Some? && a.locked.value > now) then u.failed == a.failed && u.locked == a.locked
         else if right then u.failed == 0 && u.locked == None
         else
           && u.failed == a.failed + 1
           && (a.failed + 1 >= p.maxAttempts ==> u.locked == Some(now + p.duration))
           && (a.failed + 1 < p.maxAttempts ==> u.locked == a.locked)
  {
  }

  lemma AttemptsTakeEach(a: Account, p: Policy, attempts: seq<Attempt>, x: Attempt)
    ensures After(a, p, []) == a && After(a, p, attempts + [x]) == Attempted(After(a, p, attempts), p, x.now, x.right)
    ensures Checks(a, p, []) == 0
    ensures var b := After(a, p, attempts);
      Checks(a, p, attempts + [x])
      == Checks(a, p, attempts) + if b.active && (b.locked == None || b.locked.value <= x.now) then 1 else 0
    ensures SuccessFree(a, p, [])
    ensures var b := After(a, p, attempts);
      SuccessFree(a, p, attempts + [x]) <==>
      SuccessFree(a, p, attempts) && !(b.active && (b.locked == None || b.locked.value <= x.now) && x.right)
  {
    assert (attempts + [x])[..|attempts|] == attempts;
  }

  // -------- the second code --------

  /** Only the newest code decides, and its last moment still counts. */
  lemma CodeExactly(codes: seq<Code>, hash: string, now: Instant)
    ensures codes == [] <==> CodeOutcomeOf(codes, hash, now) == NoCode
    ensures codes != [] ==>
      var newest := codes[|codes| - 1];
      && (CodeOutcomeOf(codes, hash, now) == AlreadyUsed <==> newest.used)
      && (CodeOutcomeOf(codes, hash, now) == CodeExpired <==> !newest.used && newest.expires < now)
      && (CodeOutcomeOf(codes, hash, now) == InvalidCode <==>
        !newest.used && now <= newest.expires && newest.hash != hash)
      && (CodeOutcomeOf(codes, hash, now) == Accepted <==> !newest.used && now <= newest.expires && newest.hash == hash)
  {
  }

  /** A right password stores a code that is good for ten minutes; an accepted one uses all of them up. */
  lemma LogInStores(a: Account, p: Policy, now: Instant, right: bool, hash: string)
    ensures var u, b := LogIn(a, p, Password(now, right, hash)), Attempted(a, p, now, right);
      && u.active == b.active && u.failed == b.failed && u.locked == b.locked
      && if a.active && (a.locked == None || a.locked.value <= now) && right
         then
           && |u.codes| == |a.codes| + 1 && u.codes[..|a.codes|] == a.codes
           && u.codes[|a.codes|].hash == hash && u.codes[|a.codes|].expires == now + 600 && !u.codes[|a.codes|].used
         else u.codes == a.codes
    ensures var u := LogIn(a, p, SecondCode(now, hash));
      && u.active == a.active && u.failed == a.failed && u.locked == a.locked && |u.codes| == |a.codes|
      && forall k | 0 <= k < |a.codes| ::
        && u.codes[k].hash == a.codes[k].hash && u.codes[k].expires == a.codes[k].expires
        && (u.codes[k].used <==> a.codes[k].used || CodeOutcomeOf(a.codes, hash, now) == Accepted)
  {
  }

  /** A run takes one step after another, and counts what is sent and what is accepted. */
  lemma LogInsTakeEach(a: Account, p: Policy, steps: seq<Login>, x: Login)
    ensures LogInAll(a, p, []) == a && LogInAll(a, p, steps + [x]) == LogIn(LogInAll(a, p, steps), p, x)
    ensures CodesSent(a, p, []) == 0 && CodesAccepted(a, p, []) == 0
    ensures var b := LogInAll(a, p, steps);
      && CodesSent(a, p, steps + [x])
         == CodesSent(a, p, steps) + (if |LogIn(b, p, x).codes| > |b.codes| then 1 else 0)
      && CodesAccepted(a, p, steps + [x])
         == CodesAccepted(a, p, steps)
            + if x.SecondCode? && CodeOutcomeOf(b.codes, x.hash, x.now) == Accepted then 1 else 0
  {
    assert (steps + [x])[..|steps|] == steps;
  }
}
