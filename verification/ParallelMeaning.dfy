/** What each statement of overlapping sign-in requests reads and writes, field by field. */
module ParallelMeaning {
  import opened Common
  import opened Lockout
  import LockoutParallel
  import SecondCodes

  /** The password is looked at: the account is active and no lock is running. */
  predicate Open(a: Account, now: Instant) {
    a.active && (a.locked == None || a.locked.value <= now)
  }

  /** Reading changes nothing that is stored; a compared password leaves its outcome to be written. */
  lemma CheckExactly(b: LockoutParallel.Busy, p: Policy, now: Instant, right: bool)
    ensures var u := LockoutParallel.Next(b, p, LockoutParallel.Check(now, right));
      && u.account == b.account
      && u.failing == b.failing + (if Open(b.account, now) && !right then 1 else 0)
      && u.signing == b.signing + (if Open(b.account, now) && right then 1 else 0)
    ensures LockoutParallel.Compares(b, LockoutParallel.Check(now, right)) <==> Open(b.account, now)
  {
  }

  /** A failure is counted on what is stored then, whatever had been read; a success clears it. */
  lemma WritesExactly(b: LockoutParallel.Busy, p: Policy, now: Instant)
    ensures var u := LockoutParallel.Next(b, p, LockoutParallel.WriteFailure(now));
      if b.failing == 0 then u == b
      else
        && u.failing == b.failing - 1 && u.signing == b.signing
        && u.account.active == b.account.active && u.account.codes == b.account.codes
        && u.account.failed == b.account.failed + 1
        && u.account.locked
          == if b.account.failed + 1 >= p.maxAttempts then Some(now + p.duration) else b.account.locked
    ensures var u := LockoutParallel.Next(b, p, LockoutParallel.WriteSuccess(now));
      if b.signing == 0 then u == b
      else
        && u.signing == b.signing - 1 && u.failing == b.failing
        && u.account.active == b.account.active && u.account.codes == b.account.codes
        && u.account.failed == 0 && u.account.locked == None
    ensures !LockoutParallel.Compares(b, LockoutParallel.WriteFailure(now))
    ensures !LockoutParallel.Compares(b, LockoutParallel.WriteSuccess(now))
  {
  }

  lemma MovesTakeEach(
    b: LockoutParallel.Busy, p: Policy, moves: seq<LockoutParallel.Move>, m: LockoutParallel.Move, k: nat)
    ensures LockoutParallel.Moved(b, p, []) == b
    ensures LockoutParallel.Moved(b, p, moves + [m]) == LockoutParallel.Next(LockoutParallel.Moved(b, p, moves), p, m)
    ensures LockoutParallel.Compared(b, p, []) == 0
    ensures LockoutParallel.Compared(b, p, moves + [m])
      == LockoutParallel.Compared(b, p, moves)
         + if LockoutParallel.Compares(LockoutParallel.Moved(b, p, moves), m) then 1 else 0
    ensures LockoutParallel.Guessing(b, p, moves + [m], k) <==>
      && LockoutParallel.Guessing(b, p, moves, k)
      && LockoutParallel.Moved(b, p, moves + [m]).failing <= k && LockoutParallel.Moved(b, p, moves + [m]).signing == 0
  {
    assert (moves + [m])[..|moves|] == moves;
  }

  /** Idle: no request has compared a password without having written yet. Times may repeat and never run back. */
  lemma StartsFrom(b: LockoutParallel.Busy, moves: seq<LockoutParallel.Move>, m: LockoutParallel.Move)
    ensures LockoutParallel.Idle(b) <==> b == LockoutParallel.Busy(b.account, 0, 0)
    ensures LockoutParallel.Chronological([])
    ensures LockoutParallel.Chronological(moves + [m]) <==>
      LockoutParallel.Chronological(moves) && forall e | e in moves :: e.now <= m.now
  {
    var all := moves + [m];
    if LockoutParallel.Chronological(all) {
      forall i, j | 0 <= i < j < |moves| ensures moves[i].now <= moves[j].now {
        assert all[i] == moves[i] && all[j] == moves[j];
      }
      forall e | e in moves ensures e.now <= m.now {
        var i :| 0 <= i < |moves| && moves[i] == e;
        assert all[i] == e && all[|moves|] == m;
      }
    }
  }

  // -------- second codes --------

  lemma SendExactly(d: SecondCodes.Desk, hash: string, now: Instant)
    ensures var u := SecondCodes.Turn(d, SecondCodes.Send(hash, now));
      && u.accepting == d.accepting && |u.codes| == |d.codes| + 1 && u.codes[..|d.codes|] == d.codes
      && u.codes[|d.codes|].hash == hash && u.codes[|d.codes|].expires == now + 600 && !u.codes[|d.codes|].used
  {
  }

  /** A code is accepted on what is stored when it is read: the newest code, unused and not past its last moment. */
  predicate Fits(d: SecondCodes.Desk, hash: string, now: Instant) {
    && d.codes != []
    && var newest := d.codes[|d.codes| - 1];
       !newest.used && now <= newest.expires && newest.hash == hash
  }

  lemma ReadsExactly(d: SecondCodes.Desk, hash: string, now: Instant)
    ensures var u := SecondCodes.Turn(d, SecondCodes.CheckCode(hash, now));
      u.codes == d.codes && u.accepting == d.accepting + if Fits(d, hash, now) then 1 else 0
    ensures SecondCodes.Accepts(d, SecondCodes.CheckCode(hash, now)) <==> Fits(d, hash, now)
    ensures !SecondCodes.Accepts(d, SecondCodes.Send(hash, now)) && !SecondCodes.Accepts(d, SecondCodes.UseCodes)
  {
  }

  lemma UsesExactly(d: SecondCodes.Desk)
    ensures var u := SecondCodes.Turn(d, SecondCodes.UseCodes);
      if d.accepting == 0 then u == d
      else
        && u.accepting == d.accepting - 1 && |u.codes| == |d.codes|
        && forall i | 0 <= i < |d.codes| ::
          u.codes[i].used && u.codes[i].hash == d.codes[i].hash && u.codes[i].expires == d.codes[i].expires
  {
  }

  lemma TurnsTakeEach(d: SecondCodes.Desk, moves: seq<SecondCodes.CodeMove>, m: SecondCodes.CodeMove, k: nat)
    ensures SecondCodes.Turned(d, []) == d
    ensures SecondCodes.Turned(d, moves + [m]) == SecondCodes.Turn(SecondCodes.Turned(d, moves), m)
    ensures SecondCodes.AcceptedIn(d, []) == 0 && SecondCodes.SentIn([]) == 0
    ensures SecondCodes.AcceptedIn(d, moves + [m])
      == SecondCodes.AcceptedIn(d, moves) + if SecondCodes.Accepts(SecondCodes.Turned(d, moves), m) then 1 else 0
    ensures SecondCodes.SentIn(moves + [m]) == SecondCodes.SentIn(moves) + if m.Send? then 1 else 0
    ensures SecondCodes.AtMostAccepting(d, moves + [m], k) <==>
      SecondCodes.AtMostAccepting(d, moves, k) && SecondCodes.Turned(d, moves + [m]).accepting <= k
  {
    assert (moves + [m])[..|moves|] == moves;
  }
}
