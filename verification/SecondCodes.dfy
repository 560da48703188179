/**
 * Requests that verify a second code at the same time: each reads the newest code and decides, and marks
 * the codes as used in a separate statement.
 */
module SecondCodes {
  import opened Common
  import opened Lockout

  /** The stored codes, and the requests that have accepted one and not yet marked the codes as used. */
  datatype Desk = Desk(codes: seq<Code>, accepting: nat)

  datatype CodeMove = Send(hash: string, now: Instant) | CheckCode(hash: string, now: Instant) | UseCodes

  function Turn(d: Desk, m: CodeMove): Desk {
    match m
    case Send(hash, now) => d.(codes := d.codes + [Code(hash, now + CODE_SECONDS, false)])
    case CheckCode(hash, now) =>
      if CodeOutcomeOf(d.codes, hash, now).Accepted? then d.(accepting := d.accepting + 1) else d
    case UseCodes =>
      if d.accepting == 0 then d
      else Desk(seq(|d.codes|, i requires 0 <= i < |d.codes| => d.codes[i].(used := true)), d.accepting - 1)
  }

  predicate Accepts(d: Desk, m: CodeMove) {
    m.CheckCode? && CodeOutcomeOf(d.codes, m.hash, m.now).Accepted?
  }

  function Turned(d: Desk, moves: seq<CodeMove>): Desk
    decreases |moves|
  {
    if moves == [] then d else Turn(Turned(d, moves[..|moves| - 1]), moves[|moves| - 1])
  }

  function AcceptedIn(d: Desk, moves: seq<CodeMove>): nat
    decreases |moves|
  {
    if moves == [] then 0
    else
      var earlier := moves[..|moves| - 1];
      AcceptedIn(d, earlier) + if Accepts(Turned(d, earlier), moves[|moves| - 1]) then 1 else 0
  }

  function SentIn(moves: seq<CodeMove>): nat {
    if moves == [] then 0 else SentIn(moves[..|moves| - 1]) + if moves[|moves| - 1].Send? then 1 else 0
  }

  predicate AtMostAccepting(d: Desk, moves: seq<CodeMove>, k: nat)
    decreases |moves|
  {
    Turned(d, moves).accepting <= k && (moves != [] ==> AtMostAccepting(d, moves[..|moves| - 1], k))
  }

  predicate NewestUnused(codes: seq<Code>) {
    codes != [] && !codes[|codes| - 1].used
  }

  /** Acceptances of the newest code while it is not marked as used: their requests are all in flight. */
  function Fresh(d: Desk, moves: seq<CodeMove>): nat
    decreases |moves|
  {
    if moves == [] then 0
    else
      var earlier, last := moves[..|moves| - 1], moves[|moves| - 1];
      if last.Send? || (last.UseCodes? && Turned(d, earlier).accepting > 0) then 0
      else Fresh(d, earlier) + if Accepts(Turned(d, earlier), last) then 1 else 0
  }

  /** No more than `k` acceptances fall to each code sent. */
  ghost predicate Balanced(end: Desk, k: nat, accepted: nat, sent: nat, recent: nat) {
    && recent <= end.accepting && (sent == 0 ==> end.codes == [])
    && if NewestUnused(end.codes) then sent > 0 && accepted <= Plus(0, k, sent - 1) + recent
       else recent == 0 && accepted <= Plus(0, k, sent)
  }

  lemma {:induction false} AcceptedByAtMost(d: Desk, moves: seq<CodeMove>, k: nat)
    requires d == Desk([], 0) && AtMostAccepting(d, moves, k)
    ensures Balanced(Turned(d, moves), k, AcceptedIn(d, moves), SentIn(moves), Fresh(d, moves))
    decreases |moves|
  {
    if moves != [] {
      AcceptedByAtMost(d, moves[..|moves| - 1], k);
      assert AtMostAccepting(d, moves[..|moves| - 1], k);
    }
  }

  /** With `k` requests in flight, at most `k` acceptances for each code sent, however the requests are interleaved. */
  lemma ParallelCodesAreBounded(moves: seq<CodeMove>, k: nat)
    requires AtMostAccepting(Desk([], 0), moves, k)
    ensures AcceptedIn(Desk([], 0), moves) <= SentIn(moves) * k
  {
    AcceptedByAtMost(Desk([], 0), moves, k);
    PlusIs(0, k, SentIn(moves));
  }

  function ChecksOf(hash: string, now: Instant, n: nat): (moves: seq<CodeMove>)
    ensures |moves| == n && forall j | 0 <= j < n :: moves[j] == CheckCode(hash, now)
  {
    seq(n, j => CheckCode(hash, now))
  }

  /** And it can be: all who read the code before the first of them marks it are let in. */
  lemma {:induction false} CodeAcceptedByAll(hash: string, now: Instant, later: Instant, k: nat)
    requires now <= later <= now + CODE_SECONDS
    ensures var moves := [Send(hash, now)] + ChecksOf(hash, later, k);
      && AcceptedIn(Desk([], 0), moves) == k && SentIn(moves) == 1 && AtMostAccepting(Desk([], 0), moves, k)
      && Turned(Desk([], 0), moves) == Desk([Code(hash, now + CODE_SECONDS, false)], k)
    decreases k
  {
    var moves := [Send(hash, now)] + ChecksOf(hash, later, k);
    if k == 0 {
      assert moves == [Send(hash, now)] && moves[..0] == [];
    } else {
      CodeAcceptedByAll(hash, now, later, k - 1);
      assert moves[..|moves| - 1] == [Send(hash, now)] + ChecksOf(hash, later, k - 1);
      StillAtMost(Desk([], 0), moves[..|moves| - 1], k - 1, k);
    }
  }

  lemma {:induction false} StillAtMost(d: Desk, moves: seq<CodeMove>, j: nat, k: nat)
    requires AtMostAccepting(d, moves, j) && j <= k
    ensures AtMostAccepting(d, moves, k)
    decreases |moves|
  {
    if moves != [] {
      StillAtMost(d, moves[..|moves| - 1], j, k);
    }
  }
}
