/**
 * The emailed sign-in links of captains and their stand-ins. Only the hash of a link is stored; a new
 * link of one scope takes over from the earlier ones, and reminders add links without doing so.
 */
module MagicTokens {
  import opened Common
  import opened Text

  type Instant = int

  /** A row of magic_link_tokens. */
  datatype Token = Token(
    captain: int, season: int, week: int, date: Option<int>, delegate: Option<string>,
    hash: string, expires: Instant, used: Option<Instant>)

  /** What one link stands for: a captain's week, perhaps one match, and perhaps a stand-in by email address. */
  datatype Scope = Scope(captain: int, season: int, week: int, date: Option<int>, delegate: Option<string>)

  datatype Refusal = Invalid | Expired | Duplicate

  function DelegateOf(email: Option<string>): Option<string> {
    if email.None? || email.value == "" then None else Some(Lower(email.value))
  }

  function ScopeOf(t: Token): Scope {
    Scope(t.captain, t.season, t.week, t.date, DelegateOf(t.delegate))
  }

  /** What a request for a link asks for; the address of the stand-in comes as it was typed. */
  datatype Request = Request(captain: int, season: int, week: int, date: Option<int>, email: string, expires: Instant)

  function RequestScope(r: Request): Scope {
    Scope(r.captain, r.season, r.week, r.date, DelegateOf(Some(Trim(r.email))))
  }

  predicate Usable(t: Token, now: Instant) {
    t.used.None? && now <= t.expires
  }

  // -------- the statements --------

  function Revoke(t: Token, hit: bool, now: Instant): Token {
    if hit && t.used.None? && t.expires > now then t.(used := Some(now)) else t
  }

  function NullIfEmpty(s: string): Option<string> {
    if s == "" then None else Some(s)
  }

  predicate HasHash(tokens: seq<Token>, hash: string) {
    exists j :: 0 <= j < |tokens| && tokens[j].hash == hash
  }

  /** An update of used_at on the rows that a condition picks, of those that are unused and not yet expired. */
  function RevokeWhere(tokens: seq<Token>, where: Token -> bool, now: Instant): (rows: seq<Token>)
    ensures |rows| == |tokens| && forall j | 0 <= j < |tokens| :: rows[j] == Revoke(tokens[j], where(tokens[j]), now)
  {
    seq(|tokens|, j requires 0 <= j < |tokens| => Revoke(tokens[j], where(tokens[j]), now))
  }

  function InScope(r: Request): Token -> bool {
    (t: Token) => ScopeOf(t) == RequestScope(r)
  }

  function Row(r: Request, hash: string): (t: Token)
    ensures ScopeOf(t) == RequestScope(r)
  {
    Token(r.captain, r.season, r.week, r.date, NullIfEmpty(Trim(r.email)), hash, r.expires, None)
  }

  /** A new link that takes over from the links of its scope. */
  function Issue(tokens: seq<Token>, r: Request, hash: string, now: Instant): seq<Token> {
    if HasHash(tokens, hash) then tokens
    else RevokeWhere(tokens, InScope(r), now) + [Row(r, hash)]
  }

  /** A reminder's link, always for one match and never for a stand-in. */
  function Remind(tokens: seq<Token>, captain: int, season: int, week: int, date: int, hash: string, expires: Instant)
    : seq<Token>
  {
    if HasHash(tokens, hash) then tokens
    else tokens + [Token(captain, season, week, Some(date), None, hash, expires, None)]
  }

  /** What a link is good for. */
  function Check(tokens: seq<Token>, hash: string, now: Instant): (r: Result<nat, Refusal>)
    ensures r.Ok? ==> r.value < |tokens| && tokens[r.value].hash == hash && Usable(tokens[r.value], now)
  {
    if !HasHash(tokens, hash) then Err(Invalid)
    else
      var j := Find(tokens, hash);
      if tokens[j].used.Some? then Err(Invalid) else if now > tokens[j].expires then Err(Expired) else Ok(j)
  }

  /** The row of a hash that is in the table; hashes are unique. */
  function Find(tokens: seq<Token>, hash: string): (j: nat)
    requires HasHash(tokens, hash)
    ensures j < |tokens| && tokens[j].hash == hash
  {
    if tokens[0].hash == hash then 0
    else
      assert HasHash(tokens[1..], hash) by {
        var j :| 0 <= j < |tokens| && tokens[j].hash == hash;
        assert tokens[1..][j - 1].hash == hash;
      }
      1 + Find(tokens[1..], hash)
  }

  function Consume(tokens: seq<Token>, hash: string, now: Instant): seq<Token> {
    var checked := Check(tokens, hash, now);
    if checked.Ok? then tokens[checked.value := tokens[checked.value].(used := Some(now))] else tokens
  }

  /** An approved change of captain revokes all links of the old one. */
  function RevokeCaptain(tokens: seq<Token>, captain: int, now: Instant): seq<Token> {
    RevokeWhere(tokens, (t: Token) => t.captain == captain, now)
  }

  // -------- runs --------

  datatype Action =
    | IssueLink(request: Request, hash: string)
    | RemindCaptain(captain: int, season: int, week: int, date: int, hash: string, expires: Instant)
    | ConsumeLink(hash: string)
    | ReplaceCaptain(captain: int)

  datatype Step = Step(now: Instant, action: Action)

  function Apply(tokens: seq<Token>, s: Step): seq<Token> {
    match s.action
    case IssueLink(request, hash) => Issue(tokens, request, hash, s.now)
    case RemindCaptain(captain, season, week, date, hash, expires) =>
      Remind(tokens, captain, season, week, date, hash, expires)
    case ConsumeLink(hash) => Consume(tokens, hash, s.now)
    case ReplaceCaptain(captain) => RevokeCaptain(tokens, captain, s.now)
  }

  function Run(tokens: seq<Token>, steps: seq<Step>): seq<Token>
    decreases |steps|
  {
    if steps == [] then tokens else Apply(Run(tokens, steps[..|steps| - 1]), steps[|steps| - 1])
  }

  /** The step adds a link to the scope. */
  predicate AddsTo(s: Step, scope: Scope) {
    match s.action
    case IssueLink(request, _) => RequestScope(request) == scope
    case RemindCaptain(captain, season, week, date, _, _) => Scope(captain, season, week, Some(date), None) == scope
    case _ => false
  }

  predicate QuietFor(steps: seq<Step>, scope: Scope) {
    forall k | 0 <= k < |steps| :: !AddsTo(steps[k], scope)
  }

  /** Links keep what they stand for, and once used stay used. */
  ghost predicate Succeeds(before: seq<Token>, after: seq<Token>) {
    && |before| <= |after|
    && forall j | 0 <= j < |before| ::
      after[j] == before[j] || (before[j].used.None? && after[j].used.Some?
        && after[j] == before[j].(used := after[j].used))
  }

  ghost predicate UniqueHashes(tokens: seq<Token>) {
    forall i, j | 0 <= i < j < |tokens| :: tokens[i].hash != tokens[j].hash
  }

  lemma StepSucceeds(tokens: seq<Token>, s: Step)
    ensures Succeeds(tokens, Apply(tokens, s))
    ensures UniqueHashes(tokens) ==> UniqueHashes(Apply(tokens, s))
  {
    var after := Apply(tokens, s);
    assert forall j | 0 <= j < |tokens| :: after[j].hash == tokens[j].hash;
    assert |after| > |tokens| ==> |after| == |tokens| + 1 && !HasHash(tokens, after[|tokens|].hash);
    if UniqueHashes(tokens) && |after| > |tokens| {
      forall i | 0 <= i < |tokens| ensures after[i].hash != after[|tokens|].hash {
        assert tokens[i].hash != after[|tokens|].hash;
      }
    }
  }

  /** Whatever happens, a link that cannot be used can never be used again. */
  lemma {:induction false} RunSucceeds(tokens: seq<Token>, steps: seq<Step>)
    ensures Succeeds(tokens, Run(tokens, steps))
    ensures UniqueHashes(tokens) ==> UniqueHashes(Run(tokens, steps))
    ensures forall j, m, n | 0 <= j < |tokens| && m <= n && !Usable(tokens[j], m) :: !Usable(Run(tokens, steps)[j], n)
    decreases |steps|
  {
    if steps != [] {
      var mid := Run(tokens, steps[..|steps| - 1]);
      RunSucceeds(tokens, steps[..|steps| - 1]);
      StepSucceeds(mid, steps[|steps| - 1]);
    }
  }

  /** Issuing a link: the row it adds, the rows it revokes, and every other row as it was. */
  lemma IssueEffect(tokens: seq<Token>, r: Request, hash: string, now: Instant)
    requires !HasHash(tokens, hash)
    ensures var after := Issue(tokens, r, hash, now);
      && |after| == |tokens| + 1 && after[|tokens|].hash == hash && after[|tokens|].expires == r.expires
      && ScopeOf(after[|tokens|]) == RequestScope(r) && after[|tokens|].used.None?
      && (forall j | 0 <= j < |tokens| && ScopeOf(tokens[j]) != RequestScope(r) :: after[j] == tokens[j])
      && (forall j | 0 <= j < |tokens| && ScopeOf(tokens[j]) == RequestScope(r) ::
        Usable(after[j], now) <==> tokens[j].used.None? && tokens[j].expires == now)
  {
  }

  /** A scope in which only the link of one row can be used after an instant. */
  ghost predicate OnlyUsable(tokens: seq<Token>, scope: Scope, row: nat, after: Instant) {
    forall j, m | 0 <= j < |tokens| && ScopeOf(tokens[j]) == scope && m > after && Usable(tokens[j], m) :: j == row
  }

  lemma StepKeepsOnly(tokens: seq<Token>, s: Step, scope: Scope, row: nat, after: Instant)
    requires OnlyUsable(tokens, scope, row, after) && !AddsTo(s, scope)
    ensures OnlyUsable(Apply(tokens, s), scope, row, after)
  {
    var next := Apply(tokens, s);
    StepSucceeds(tokens, s);
    forall j, m | 0 <= j < |next| && ScopeOf(next[j]) == scope && m > after && Usable(next[j], m) ensures j == row {
      assert j < |tokens|;
      assert Usable(tokens[j], m);
    }
  }

  lemma {:induction false} RunKeepsOnly(tokens: seq<Token>, steps: seq<Step>, scope: Scope, row: nat, after: Instant)
    requires OnlyUsable(tokens, scope, row, after) && QuietFor(steps, scope)
    ensures OnlyUsable(Run(tokens, steps), scope, row, after)
    decreases |steps|
  {
    if steps != [] {
      RunKeepsOnly(tokens, steps[..|steps| - 1], scope, row, after);
      StepKeepsOnly(Run(tokens, steps[..|steps| - 1]), steps[|steps| - 1], scope, row, after);
    }
  }

  /**
   * The newest link wins: at every instant after it was issued it is the only link of its scope that
   * can be used, until another link is added to that scope.
   */
  lemma NewestWins(tokens: seq<Token>, r: Request, hash: string, now: Instant, steps: seq<Step>)
    requires !HasHash(tokens, hash) && QuietFor(steps, RequestScope(r))
    ensures OnlyUsable(Run(Issue(tokens, r, hash, now), steps), RequestScope(r), |tokens|, now)
  {
    var after := Issue(tokens, r, hash, now);
    IssueEffect(tokens, r, hash, now);
    assert Succeeds(tokens, after) by {
      StepSucceeds(tokens, Step(now, IssueLink(r, hash)));
    }
    forall j, m | 0 <= j < |tokens| && ScopeOf(after[j]) == RequestScope(r) && m > now ensures !Usable(after[j], m) {
      assert Usable(after[j], now) ==> after[j].expires == now;
    }
    RunKeepsOnly(after, steps, RequestScope(r), |tokens|, now);
  }

  /** The step ends the use of a link by itself. */
  predicate Ends(s: Step, t: Token) {
    match s.action
    case IssueLink(request, _) => RequestScope(request) == ScopeOf(t)
    case ConsumeLink(hash) => hash == t.hash
    case ReplaceCaptain(captain) => captain == t.captain
    case RemindCaptain(_, _, _, _, _, _) => false
  }

  /** A link is lost to its own scope, its own use and its captain's replacement only; reminders revoke nothing. */
  lemma {:induction false} LinkLasts(tokens: seq<Token>, steps: seq<Step>, row: nat)
    requires row < |tokens| && UniqueHashes(tokens)
    requires forall k | 0 <= k < |steps| :: !Ends(steps[k], tokens[row])
    ensures |Run(tokens, steps)| >= |tokens| && Run(tokens, steps)[row] == tokens[row]
    decreases |steps|
  {
    if steps != [] {
      var s, mid := steps[|steps| - 1], Run(tokens, steps[..|steps| - 1]);
      RunSucceeds(tokens, steps[..|steps| - 1]);
      LinkLasts(tokens, steps[..|steps| - 1], row);
      assert mid[row] == tokens[row];
      if s.action.ConsumeLink? && Check(mid, s.action.hash, s.now).Ok? {
        assert mid[Check(mid, s.action.hash, s.now).value].hash != tokens[row].hash;
      }
    }
  }

  /** A link is good for its holder exactly when its row can be used. */
  lemma CheckExactly(tokens: seq<Token>, row: nat, now: Instant)
    requires row < |tokens| && UniqueHashes(tokens)
    ensures Check(tokens, tokens[row].hash, now).Ok? <==> Usable(tokens[row], now)
    ensures Check(tokens, tokens[row].hash, now).Ok? ==> Check(tokens, tokens[row].hash, now).value == row
  {
    assert HasHash(tokens, tokens[row].hash);
    var j := Find(tokens, tokens[row].hash);
    assert j == row;
  }

  /** A consumed link is refused ever after. */
  lemma ConsumedOnce(tokens: seq<Token>, hash: string, now: Instant, steps: seq<Step>, later: Instant)
    requires UniqueHashes(tokens) && Check(tokens, hash, now).Ok?
    ensures Check(Run(Consume(tokens, hash, now), steps), hash, later) == Err(Invalid)
  {
    var row := Check(tokens, hash, now).value;
    var after := Consume(tokens, hash, now);
    StepSucceeds(tokens, Step(now, ConsumeLink(hash)));
    RunSucceeds(after, steps);
    var end := Run(after, steps);
    assert end[row].hash == hash && end[row].used.Some?;
    assert HasHash(end, hash);
    assert Find(end, hash) == row;
  }

  // -------- the table --------

  class TokenTable {
    var tokens: seq<Token>

    constructor ()
      ensures tokens == []
    {
      tokens := [];
    }

    method Insert(row: Token) returns (ok: bool)
      modifies this
      ensures ok == !HasHash(old(tokens), row.hash)
      ensures tokens == if ok then old(tokens) + [row] else old(tokens)
    {
      ok := !HasHash(tokens, row.hash);
      if ok {
        tokens := tokens + [row];
      }
    }

    /** One of four updates runs, by whether a match and a stand-in are given. */
    method RevokeScope(r: Request, email: string, now: Instant)
      requires email == Trim(r.email)
      modifies this
      ensures tokens == RevokeWhere(old(tokens), InScope(r), now)
    {
      var owner := (t: Token) => t.captain == r.captain && t.season == r.season && t.week == r.week;
      var where;
      if r.date.Some? {
        if email != "" {
          where := t => owner(t) && t.date == r.date && t.delegate.Some? && Lower(t.delegate.value) == Lower(email);
        } else {
          where := t => owner(t) && t.date == r.date && (t.delegate.None? || t.delegate.value == "");
        }
      } else {
        if email != "" {
          where := t => owner(t) && t.date.None? && t.delegate.Some? && Lower(t.delegate.value) == Lower(email);
        } else {
          where := t => owner(t) && t.date.None? && (t.delegate.None? || t.delegate.value == "");
        }
      }
      forall t ensures where(t) == InScope(r)(t) {
        LowerEmpty(email, t.delegate);
      }
      tokens := RevokeWhere(tokens, where, now);
    }

    /** The transaction is rolled back when the hash is taken. */
    method GenerateWithDelegate(r: Request, hash: string, now: Instant) returns (ok: bool)
      requires UniqueHashes(tokens)
      modifies this
      ensures UniqueHashes(tokens) && tokens == Issue(old(tokens), r, hash, now)
      ensures ok == !HasHash(old(tokens), hash)
    {
      StepSucceeds(tokens, Step(now, IssueLink(r, hash)));
      var email := Trim(r.email);
      var saved := tokens;
      RevokeScope(r, email, now);
      SameHashes(saved, tokens, hash);
      ok := Insert(Token(r.captain, r.season, r.week, r.date, NullIfEmpty(email), hash, r.expires, None));
      if !ok {
        tokens := saved;
      }
    }

    method GenerateForDate(captain: int, season: int, week: int, date: int, hash: string, expires: Instant)
      returns (ok: bool)
      requires UniqueHashes(tokens)
      modifies this
      ensures UniqueHashes(tokens) && tokens == Remind(old(tokens), captain, season, week, date, hash, expires)
      ensures ok == !HasHash(old(tokens), hash)
    {
      StepSucceeds(tokens, Step(0, RemindCaptain(captain, season, week, date, hash, expires)));
      ok := Insert(Token(captain, season, week, Some(date), None, hash, expires, None));
    }

    method Validate(hash: string, now: Instant) returns (r: Result<nat, Refusal>)
      ensures r == Check(tokens, hash, now)
    {
      if !HasHash(tokens, hash) {
        return Err(Invalid);
      }
      var row := Find(tokens, hash);
      if tokens[row].used.Some? {
        return Err(Invalid);
      }
      if now > tokens[row].expires {
        return Err(Expired);
      }
      return Ok(row);
    }

    method ConsumeToken(hash: string, now: Instant) returns (r: Result<nat, Refusal>)
      requires UniqueHashes(tokens)
      modifies this
      ensures UniqueHashes(tokens) && tokens == Consume(old(tokens), hash, now)
      ensures r == Check(old(tokens), hash, now)
    {
      StepSucceeds(tokens, Step(now, ConsumeLink(hash)));
      r := Validate(hash, now);
      if r.Ok? {
        tokens := tokens[r.value := tokens[r.value].(used := Some(now))];
      }
    }

    /** The part of an approved change of captain that concerns links. */
    method ReplaceCaptain(captain: int, now: Instant)
      requires UniqueHashes(tokens)
      modifies this
      ensures UniqueHashes(tokens) && tokens == RevokeCaptain(old(tokens), captain, now)
    {
      StepSucceeds(tokens, Step(now, Action.ReplaceCaptain(captain)));
      tokens := RevokeWhere(tokens, (t: Token) => t.captain == captain, now);
    }
  }

  lemma LowerEmpty(email: string, delegate: Option<string>)
    ensures email != "" && delegate == Some("") ==> Lower("") != Lower(email)
  {
    assert email != "" ==> |Lower("")| != |Lower(email)|;
  }

  lemma SameHashes(before: seq<Token>, after: seq<Token>, hash: string)
    requires |before| == |after| && forall j | 0 <= j < |before| :: after[j].hash == before[j].hash
    ensures HasHash(before, hash) == HasHash(after, hash)
  {
    if HasHash(before, hash) {
      var j :| 0 <= j < |before| && before[j].hash == hash;
      assert after[j].hash == hash;
    }
    if HasHash(after, hash) {
      var j :| 0 <= j < |after| && after[j].hash == hash;
      assert before[j].hash == hash;
    }
  }
}
