/** What each request about sign-in links stores or answers, field by field. */
module TokenMeaning {
  import opened Common
  import opened Text
  import opened MagicTokens

  // -------- a new link --------

  /** The row is for the stand-in with this address, whatever the letters' case, or for the captain if there is none. */
  predicate For(delegate: Option<string>, email: string) {
    if Trim(email) == "" then delegate == None || delegate == Some("")
    else delegate != None && delegate != Some("") && Lower(delegate.value) == Lower(Trim(email))
  }

  /** The rows that a new link takes over from: not used, not expired, and of the same week, match and person. */
  predicate TakenOver(t: Token, r: Request, now: Instant) {
    && t.captain == r.captain && t.season == r.season && t.week == r.week
    && t.date == r.date && For(t.delegate, r.email)
    && t.used == None && now < t.expires
  }

  predicate SameBut(a: Token, b: Token, used: Option<Instant>) {
    && b.captain == a.captain && b.season == a.season && b.week == a.week && b.date == a.date
    && b.delegate == a.delegate
    && b.hash == a.hash && b.expires == a.expires && b.used == used
  }

  lemma ScopeExactly(t: Token, r: Request)
    ensures ScopeOf(t) == RequestScope(r) <==>
      t.captain == r.captain && t.season == r.season && t.week == r.week && t.date == r.date && For(t.delegate, r.email)
  {
    EmptyStaysEmpty(Trim(r.email));
  }

  lemma EmptyStaysEmpty(s: string)
    ensures Lower(s) == "" <==> s == ""
  {
  }

  lemma IssueStores(tokens: seq<Token>, r: Request, hash: string, now: Instant)
    ensures var u := Apply(tokens, Step(now, IssueLink(r, hash)));
      if exists t :: t in tokens && t.hash == hash then u == tokens
      else
        && |u| == |tokens| + 1
        && (forall j | 0 <= j < |tokens| ::
          SameBut(tokens[j], u[j], if TakenOver(tokens[j], r, now) then Some(now) else tokens[j].used))
        && var row := u[|tokens|];
           && row.captain == r.captain && row.season == r.season && row.week == r.week && row.date == r.date
           && row.hash == hash && row.expires == r.expires && row.used == None
           && row.delegate == if Trim(r.email) == "" then None else Some(Trim(r.email))
  {
    HashExactly(tokens, hash);
    forall j | 0 <= j < |tokens|
      ensures InScope(r)(tokens[j]) && tokens[j].used == None && now < tokens[j].expires <==>
        TakenOver(tokens[j], r, now)
    {
      ScopeExactly(tokens[j], r);
    }
  }

  lemma HashExactly(tokens: seq<Token>, hash: string)
    ensures HasHash(tokens, hash) <==> exists t :: t in tokens && t.hash == hash
  {
    if HasHash(tokens, hash) {
      var j :| 0 <= j < |tokens| && tokens[j].hash == hash;
      assert tokens[j] in tokens;
    }
  }

  /** A reminder's link is for the captain and one match, and takes over from none. */
  lemma RemindStores(
    tokens: seq<Token>, captain: int, season: int, week: int, date: int, hash: string, expires: Instant, now: Instant)
    ensures var u := Apply(tokens, Step(now, RemindCaptain(captain, season, week, date, hash, expires)));
      if exists t :: t in tokens && t.hash == hash then u == tokens
      else
        && |u| == |tokens| + 1 && u[..|tokens|] == tokens
        && var row := u[|tokens|];
           && row.captain == captain && row.season == season && row.week == week && row.date == Some(date)
           && row.delegate == None && row.hash == hash && row.expires == expires && row.used == None
  {
    HashExactly(tokens, hash);
  }

  // -------- using a link --------

  predicate FirstWith(tokens: seq<Token>, hash: string, j: nat) {
    && j < |tokens| && tokens[j].hash == hash && forall i | 0 <= i < j :: tokens[i].hash != hash
  }

  lemma {:induction false} FindsFirst(tokens: seq<Token>, hash: string)
    requires HasHash(tokens, hash)
    ensures FirstWith(tokens, hash, Find(tokens, hash))
    decreases |tokens|
  {
    if tokens[0].hash != hash {
      assert HasHash(tokens[1..], hash) by {
        var j :| 0 <= j < |tokens| && tokens[j].hash == hash;
        assert tokens[1..][j - 1].hash == hash;
      }
      FindsFirst(tokens[1..], hash);
    }
  }

  /** What is answered for the row of the hash: good unless used or past its last moment. */
  lemma AnswersExactly(tokens: seq<Token>, hash: string, now: Instant, j: nat)
    ensures (forall t | t in tokens :: t.hash != hash) ==> Check(tokens, hash, now) == Err(Invalid)
    ensures FirstWith(tokens, hash, j) ==>
      Check(tokens, hash, now) ==
        if tokens[j].used != None then Err(Invalid) else if tokens[j].expires < now then Err(Expired) else Ok(j)
  {
    HashExactly(tokens, hash);
    if FirstWith(tokens, hash, j) {
      assert tokens[j] in tokens;
      FindsFirst(tokens, hash);
    }
  }

  lemma ConsumeStores(tokens: seq<Token>, hash: string, now: Instant)
    ensures var u := Apply(tokens, Step(now, ConsumeLink(hash)));
      && |u| == |tokens|
      && forall j: nat | j < |tokens| ::
        SameBut(tokens[j], u[j],
                if FirstWith(tokens, hash, j) && tokens[j].used == None && now <= tokens[j].expires then Some(now)
                else tokens[j].used)
  {
    forall j: nat {:trigger tokens[j]} | j < |tokens|
      ensures FirstWith(tokens, hash, j) ==>
        Check(tokens, hash, now) ==
          if tokens[j].used != None then Err(Invalid) else if tokens[j].expires < now then Err(Expired) else Ok(j)
    {
      AnswersExactly(tokens, hash, now, j);
    }
    if Check(tokens, hash, now).Ok? {
      FindsFirst(tokens, hash);
    }
  }

  /** An approved change of captain ends the open links of the old captain. */
  lemma ReplaceStores(tokens: seq<Token>, captain: int, now: Instant)
    ensures var u := Apply(tokens, Step(now, ReplaceCaptain(captain)));
      && |u| == |tokens|
      && forall j | 0 <= j < |tokens| ::
        SameBut(tokens[j], u[j],
                if tokens[j].captain == captain && tokens[j].used == None && now < tokens[j].expires then Some(now)
                else tokens[j].used)
  {
  }

  /** What ends a link, and what adds one beside it, for its own week, match and person. */
  lemma EndsExactly(now: Instant, t: Token, r: Request, hash: string, captain: int)
    ensures Ends(Step(now, IssueLink(r, hash)), t) <==>
      t.captain == r.captain && t.season == r.season && t.week == r.week && t.date == r.date && For(t.delegate, r.email)
    ensures Ends(Step(now, ConsumeLink(hash)), t) <==> hash == t.hash
    ensures Ends(Step(now, ReplaceCaptain(captain)), t) <==> captain == t.captain
    ensures AddsTo(Step(now, IssueLink(r, hash)), ScopeOf(t)) <==> Ends(Step(now, IssueLink(r, hash)), t)
    ensures !AddsTo(Step(now, ConsumeLink(hash)), ScopeOf(t)) && !AddsTo(Step(now, ReplaceCaptain(captain)), ScopeOf(t))
  {
    ScopeExactly(t, r);
  }

  lemma RemindersEndNothing(
    now: Instant, t: Token, captain: int, season: int, week: int, date: int, hash: string, expires: Instant)
    ensures var s := Step(now, RemindCaptain(captain, season, week, date, hash, expires));
      && !Ends(s, t)
      && (AddsTo(s, ScopeOf(t)) <==>
        && t.captain == captain && t.season == season && t.week == week && t.date == Some(date)
        && (t.delegate == None || t.delegate == Some("")))
  {
    if t.delegate.Some? {
      EmptyStaysEmpty(t.delegate.value);
    }
  }

  lemma RunTakesEach(tokens: seq<Token>, steps: seq<Step>, s: Step)
    ensures Run(tokens, []) == tokens && Run(tokens, steps + [s]) == Apply(Run(tokens, steps), s)
  {
    assert (steps + [s])[..|steps|] == steps;
  }
}
