/**
 * What the case list shows, in terms of the stored cases, events, requests, decisions and messages, of the
 * administrator who looks and of the filter.
 */
module CaseMeaning {
  import opened Common
  import opened Sql
  import opened Statuses
  import opened Text
  import opened CaseGroups

  // -------- the rows that the columns come from --------

  predicate Over(c: Case) {
    c.status == Published || c.status == Closed || c.status == Rejected || c.status == Withdrawn
  }

  predicate EventAbout(db: Db, c: Case, kind: EventKind, id: nat) {
    exists e :: e in db.events && e.case_ == c.id && e.kind == kind && e.about == Some(Itoa(id))
  }

  predicate ForTraining(db: Db, c: Case) {
    c.isTest || exists e :: e in db.events && e.case_ == c.id && e.kind == TrainingDesignated
  }

  predicate IsReply(c: Case, e: Event) {
    e.case_ == c.id && (e.kind == PartyResponse || e.kind == ExternalResponse)
  }

  ghost predicate NewestReply(db: Db, c: Case, e: Event) {
    e in db.events && IsReply(c, e) && forall x | x in db.events && IsReply(c, x) :: x.id <= e.id
  }

  ghost predicate NewestRequest(db: Db, c: Case, r: Request) {
    r in db.requests && r.case_ == c.id && forall x | x in db.requests && x.case_ == c.id :: x.id <= r.id
  }

  predicate IsProposal(c: Case, d: Decision) {
    d.case_ == c.id && d.proposed
  }

  ghost predicate NewestProposal(db: Db, c: Case, d: Decision) {
    && d in db.decisions && IsProposal(c, d)
    && forall x | x in db.decisions && IsProposal(c, x) ::
      x.revision < d.revision || (x.revision == d.revision && x.id <= d.id)
  }

  ghost predicate LastAttempt(db: Db, o: Outbox, a: Attempt) {
    && a in db.attempts && a.outbox == o.id
    && forall x | x in db.attempts && x.outbox == o.id :: x.number < a.number || (x.number == a.number && x.id <= a.id)
  }

  /** A message of the case that was not revoked and whose last attempt did not arrive. */
  ghost predicate MessageFailed(db: Db, c: Case) {
    exists o, a :: o in db.outboxes && o.case_ == c.id && !o.revoked && LastAttempt(db, o, a)
      && (a.status == Failed || a.status == Bounced || a.status == Complained)
  }

  ghost predicate ReplyWaiting(db: Db, c: Case) {
    exists e :: NewestReply(db, c, e) && !EventAbout(db, c, ResponseReviewed, e.id)
  }

  ghost predicate OwnerAsked(db: Db, c: Case) {
    exists d :: NewestProposal(db, c, d) && EventAbout(db, c, OwnerReviewRequired, d.id)
  }

  ghost predicate OwnerSent(db: Db, c: Case) {
    exists d :: NewestProposal(db, c, d) && EventAbout(db, c, SentForApproval, d.id)
  }

  ghost predicate RequestIs(db: Db, c: Case, status: RequestStatus) {
    exists r :: NewestRequest(db, c, r) && r.status == status
  }

  /** An answer is asked for and its day is still to come, or has come. */
  ghost predicate AnswerPending(db: Db, c: Case, now: int, due: bool) {
    exists r :: NewestRequest(db, c, r) && r.status == Pending && r.dueAt != None && (r.dueAt.value > now <==> due)
  }

  predicate SourcesChanged(c: Case) {
    c.ineligible && c.status == Approved && c.unpublished && c.publishedAt == None && c.sourceStale
  }

  // -------- each column --------

  lemma EventsExactly(db: Db, c: Case, kind: EventKind, about: Option<nat>)
    ensures HasEvent(db, c, kind, about) <==> about.Some? && EventAbout(db, c, kind, about.value)
  {
    if HasEvent(db, c, kind, about) {
      var e :| e in db.events && e.case_ == c.id && e.kind == kind
        && Equal(e.about, if about.None? then None else Some(Itoa(about.value))).True?;
      assert e.about == Some(Itoa(about.value));
    }
  }

  lemma ReplyColumn(db: Db, c: Case)
    requires Keyed(db)
    ensures (LatestReply(db, c).Some? && !HasEvent(db, c, ResponseReviewed, Some(LatestReply(db, c).value.id)))
      <==> ReplyWaiting(db, c)
  {
    var top := LatestReply(db, c);
    if top.Some? {
      EventsExactly(db, c, ResponseReviewed, Some(top.value.id));
      assert NewestReply(db, c, top.value) by {
        assert forall x | x in db.events && IsReply(c, x) :: ReplyTo(c)(x);
      }
    }
    if e :| NewestReply(db, c, e) && !EventAbout(db, c, ResponseReviewed, e.id) {
      assert ReplyTo(c)(e);
      SameId(db.events, (x: Event) => x.id, e, top.value);
    }
  }

  lemma ProposalColumn(db: Db, c: Case, kind: EventKind)
    requires Keyed(db)
    ensures HasEvent(db, c, kind, IdOf(CurrentProposal(db, c), (d: Decision) => d.id))
      <==> exists d :: NewestProposal(db, c, d) && EventAbout(db, c, kind, d.id)
  {
    var top := CurrentProposal(db, c);
    EventsExactly(db, c, kind, IdOf(top, (d: Decision) => d.id));
    var keep, key := (d: Decision) => d.case_ == c.id && d.proposed, (d: Decision) => (d.revision, d.id);
    assert top == Top(db.decisions, keep, key);
    if top.Some? {
      forall x | x in db.decisions && IsProposal(c, x)
        ensures x.revision < top.value.revision || (x.revision == top.value.revision && x.id <= top.value.id)
      {
        assert keep(x) && !Less(key(top.value), key(x));
      }
      assert NewestProposal(db, c, top.value);
    }
    if d :| NewestProposal(db, c, d) && EventAbout(db, c, kind, d.id) {
      assert keep(d) && !Less(key(top.value), key(d));
      SameId(db.decisions, (x: Decision) => x.id, d, top.value);
    }
  }

  lemma RequestColumn(db: Db, c: Case, r: Request)
    requires Keyed(db)
    ensures LatestRequest(db, c) == Some(r) <==> NewestRequest(db, c, r)
  {
    var top := LatestRequest(db, c);
    var keep, key := (x: Request) => x.case_ == c.id, (x: Request) => (x.id, 0);
    assert top == Top(db.requests, keep, key);
    if top.Some? {
      forall x | x in db.requests && x.case_ == c.id ensures x.id <= top.value.id {
        assert keep(x) && !Less(key(top.value), key(x));
      }
    }
    if NewestRequest(db, c, r) {
      assert keep(r) && !Less(key(top.value), key(r));
      SameId(db.requests, (x: Request) => x.id, r, top.value);
    }
  }

  lemma AttemptColumn(db: Db, o: Outbox, a: Attempt)
    requires Keyed(db)
    ensures LatestAttempt(db, o) == Some(a) <==> LastAttempt(db, o, a)
  {
    var top := LatestAttempt(db, o);
    var keep, key := (x: Attempt) => x.outbox == o.id, (x: Attempt) => (x.number, x.id);
    assert top == Top(db.attempts, keep, key);
    if top.Some? {
      forall x | x in db.attempts && x.outbox == o.id
        ensures x.number < top.value.number || (x.number == top.value.number && x.id <= top.value.id)
      {
        assert keep(x) && !Less(key(top.value), key(x));
      }
    }
    if LastAttempt(db, o, a) {
      assert keep(a) && !Less(key(top.value), key(a));
      SameId(db.attempts, (x: Attempt) => x.id, a, top.value);
    }
  }

  lemma MessageColumn(db: Db, c: Case)
    requires Keyed(db)
    ensures DeliveryException(db, c) <==> MessageFailed(db, c)
  {
    if DeliveryException(db, c) {
      var o :| o in db.outboxes && o.case_ == c.id && !o.revoked
        && LatestAttempt(db, o).Some? && Undelivered(LatestAttempt(db, o).value);
      AttemptColumn(db, o, LatestAttempt(db, o).value);
    }
    if MessageFailed(db, c) {
      var o, a :| o in db.outboxes && o.case_ == c.id && !o.revoked && LastAttempt(db, o, a)
        && (a.status == Failed || a.status == Bounced || a.status == Complained);
      AttemptColumn(db, o, a);
    }
  }

  /** What each column of a row says. */
  ghost predicate Shows(w: CaseWork, db: Db, c: Case, viewer: Access) {
    && w.status == c.status && w.matchDate == c.matchDate && w.texts == c.texts && w.viewer == viewer
    && (w.isOwner <==> c.owner == Some(viewer.admin))
    && (w.isTraining <==> ForTraining(db, c))
    && (w.sourceReviewRequired <==> SourcesChanged(c))
    && (w.ownerReviewRequired <==> OwnerAsked(db, c)) && (w.sentForApproval <==> OwnerSent(db, c))
    && (w.replyUnreviewed <==> ReplyWaiting(db, c))
    && (w.deliveryException <==> MessageFailed(db, c))
    && (forall r | NewestRequest(db, c, r) :: w.requestStatus == Some(r.status) && w.dueAt == r.dueAt)
    && ((forall r | r in db.requests :: r.case_ != c.id) ==> w.requestStatus == None && w.dueAt == None)
  }

  lemma RequestShown(w: CaseWork, db: Db, c: Case)
    requires Keyed(db)
    requires var top := LatestRequest(db, c);
      && w.requestStatus == (if top.None? then None else Some(top.value.status))
      && w.dueAt == if top.None? then None else top.value.dueAt
    ensures forall r | NewestRequest(db, c, r) :: w.requestStatus == Some(r.status) && w.dueAt == r.dueAt
    ensures (forall r | r in db.requests :: r.case_ != c.id) ==> w.requestStatus == None && w.dueAt == None
  {
    forall r | NewestRequest(db, c, r) ensures LatestRequest(db, c) == Some(r) {
      RequestColumn(db, c, r);
    }
  }

  lemma TrainingShown(db: Db, c: Case)
    ensures c.isTest || TrainingEvent(db, c) <==> ForTraining(db, c)
  {
  }

  lemma RowShows(db: Db, c: Case, viewer: Access)
    requires Keyed(db)
    ensures Shows(WorkRow(db, c, viewer), db, c, viewer)
  {
    ReplyColumn(db, c);
    ProposalColumn(db, c, OwnerReviewRequired);
    ProposalColumn(db, c, SentForApproval);
    MessageColumn(db, c);
    TrainingShown(db, c);
    RequestShown(WorkRow(db, c, viewer), db, c);
  }

  // -------- what the list shows --------

  /** A chosen status, or else the view: undelivered messages count in both, history is what is over. */
  predicate InView(f: Filter, c: Case) {
    if f.status != None then f.status == Some(c.status)
    else
      || f.group == Some(DeliveryExceptions)
      || (if f.history || f.group == Some(ClosedCases) then Over(c) else !Over(c))
  }

  ghost predicate InChosenGroup(db: Db, c: Case, g: Group, now: int) {
    match g
    case Live => !Over(c)
    case ActiveWork => c.status == Investigating
    case NewReplies => ReplyWaiting(db, c) && !Over(c)
    case OwnerReview => c.status == DecisionProposed && OwnerAsked(db, c) && !OwnerSent(db, c)
    case AwaitingDecision => c.status == DecisionProposed && (!OwnerAsked(db, c) || OwnerSent(db, c))
    case AwaitingDenver => c.status == Approved && !SourcesChanged(c)
    case ResponsesDue => c.status == ResponsePending && AnswerPending(db, c, now, true)
    case ResponsesOverdue =>
      || (c.status == ResponsePending && AnswerPending(db, c, now, false))
      || (c.status == Investigating && RequestIs(db, c, Expired))
    case DeliveryExceptions => MessageFailed(db, c)
    case ClosedCases => true
  }

  /** The asked-for answer is late: its day has come, or it has none. */
  ghost predicate AnswerLate(db: Db, c: Case, now: int) {
    exists r :: NewestRequest(db, c, r) && r.status == Pending && (r.dueAt == None || r.dueAt.value <= now)
  }

  /** What the viewer can do next. */
  ghost predicate CanAct(db: Db, c: Case, v: Access, now: int) {
    var mine, held := c.owner == Some(v.admin), OwnerAsked(db, c) && !OwnerSent(db, c);
    match c.status
    case Approved => if SourcesChanged(c) then v.reviewSource else v.issue
    case DecisionProposed => if held then mine && v.propose else v.approve
    case Appealed => v.appeal
    case Published => false
    case Closed => false
    case Rejected => false
    case Withdrawn => false
    case _ =>
      && mine
      && (|| (v.investigate && (ReplyWaiting(db, c) || MessageFailed(db, c)))
          || (v.investigate && RequestIs(db, c, Expired))
          || (v.investigate && c.status == ResponsePending && AnswerLate(db, c, now))
          || ((v.investigate || v.propose) && !ReplyWaiting(db, c) && !MessageFailed(db, c)
              && !RequestIs(db, c, Expired) && c.status != ResponsePending))
  }

  /** The texts that a search looks at hold the pattern, whatever the letters' case. */
  predicate Found(c: Case, query: string) {
    exists t :: t in c.texts && Like(Lower(t), "%" + Lower(query) + "%")
  }

  lemma ActsExactly(w: CaseWork, db: Db, c: Case, v: Access, now: int)
    requires Keyed(db) && Shows(w, db, c, v)
    ensures NeedsAction(w, now).True? <==> CanAct(db, c, v, now)
  {
    RequestFacts(w, db, c, v, now);
  }

  lemma RequestFacts(w: CaseWork, db: Db, c: Case, v: Access, now: int)
    requires Keyed(db) && Shows(w, db, c, v)
    ensures w.requestStatus == Some(Expired) <==> RequestIs(db, c, Expired)
    ensures w.requestStatus == Some(Pending) && (w.dueAt == None || w.dueAt.value <= now) <==> AnswerLate(db, c, now)
    ensures w.requestStatus == Some(Pending) && w.dueAt.Some? && w.dueAt.value > now <==>
      AnswerPending(db, c, now, true)
    ensures w.requestStatus == Some(Pending) && w.dueAt.Some? && w.dueAt.value <= now <==>
      AnswerPending(db, c, now, false)
  {
    var top := LatestRequest(db, c);
    if top.Some? {
      RequestColumn(db, c, top.value);
      assert NewestRequest(db, c, top.value);
      forall r | NewestRequest(db, c, r) ensures r == top.value {
        RequestColumn(db, c, r);
      }
    } else {
      var keep := (x: Request) => x.case_ == c.id;
      assert forall r | r in db.requests :: !keep(r);
    }
  }

  lemma GroupExactly(w: CaseWork, db: Db, c: Case, v: Access, g: Group, now: int)
    requires Keyed(db) && Shows(w, db, c, v)
    ensures (!g.ClosedCases? ==> Evaluate(GroupCondition(g), w, now).True?) <==> InChosenGroup(db, c, g, now)
  {
    if g.ResponsesDue? || g.ResponsesOverdue? {
      RequestFacts(w, db, c, v, now);
      AnswersExactly(w, db, c, g, now);
    } else if g.OwnerReview? || g.AwaitingDecision? {
      DecisionsExactly(w, db, c, v, g, now);
    } else {
      OthersExactly(w, db, c, v, g, now);
    }
  }

  lemma AnswersExactly(w: CaseWork, db: Db, c: Case, g: Group, now: int)
    requires (g.ResponsesDue? || g.ResponsesOverdue?) && w.status == c.status
    requires w.requestStatus == Some(Expired) <==> RequestIs(db, c, Expired)
    requires w.requestStatus == Some(Pending) && w.dueAt.Some? && w.dueAt.value > now <==>
      AnswerPending(db, c, now, true)
    requires w.requestStatus == Some(Pending) && w.dueAt.Some? && w.dueAt.value <= now <==>
      AnswerPending(db, c, now, false)
    ensures Evaluate(GroupCondition(g), w, now).True? <==> InChosenGroup(db, c, g, now)
  {
  }

  lemma DecisionsExactly(w: CaseWork, db: Db, c: Case, v: Access, g: Group, now: int)
    requires (g.OwnerReview? || g.AwaitingDecision?) && Shows(w, db, c, v)
    ensures Evaluate(GroupCondition(g), w, now).True? <==> InChosenGroup(db, c, g, now)
  {
  }

  lemma OthersExactly(w: CaseWork, db: Db, c: Case, v: Access, g: Group, now: int)
    requires !g.ResponsesDue? && !g.ResponsesOverdue? && !g.OwnerReview? && !g.AwaitingDecision? && Shows(w, db, c, v)
    ensures (!g.ClosedCases? ==> Evaluate(GroupCondition(g), w, now).True?) <==> InChosenGroup(db, c, g, now)
  {
  }

  lemma ViewExactly(w: CaseWork, db: Db, c: Case, v: Access, f: Filter)
    requires Shows(w, db, c, v)
    ensures WantedStatus(f, w) <==> (ForTraining(db, c) <==> f.training) && InView(f, c)
  {
  }

  /** The dates are those of the fixture, with both ends; a case without one meets neither. */
  predicate Played(f: Filter, c: Case) {
    && (f.from != None ==> c.matchDate != None && f.from.value <= c.matchDate.value)
    && (f.to != None ==> c.matchDate != None && c.matchDate.value <= f.to.value)
  }

  lemma DetailsExactly(w: CaseWork, db: Db, c: Case, v: Access, f: Filter)
    requires Shows(w, db, c, v)
    ensures WantedDetails(f, w) <==> (f.query != "" ==> Found(c, f.query)) && Played(f, c)
  {
  }

  /** A case is listed exactly if it is of this kind and meets every part of the filter. */
  lemma ListedExactly(db: Db, c: Case, f: Filter, v: Access, now: int)
    requires Keyed(db)
    ensures Listed(db, c, f, v, now) <==>
      && c.ineligible && (ForTraining(db, c) <==> f.training) && InView(f, c)
      && (f.scope == Mine ==> c.owner == Some(v.admin))
      && (f.scope == Action ==> CanAct(db, c, v, now))
      && (f.group != None ==> InChosenGroup(db, c, f.group.value, now))
      && (f.query != "" ==> Found(c, f.query)) && Played(f, c)
  {
    var w := WorkRow(db, c, v);
    RowShows(db, c, v);
    ViewExactly(w, db, c, v, f);
    DetailsExactly(w, db, c, v, f);
    ScopeExactly(w, db, c, v, f, now);
  }

  lemma ScopeExactly(w: CaseWork, db: Db, c: Case, v: Access, f: Filter, now: int)
    requires Keyed(db) && Shows(w, db, c, v)
    ensures WantedWork(f, w, now) <==>
      && (f.scope == Mine ==> c.owner == Some(v.admin))
      && (f.scope == Action ==> CanAct(db, c, v, now))
      && (f.group != None ==> InChosenGroup(db, c, f.group.value, now))
  {
    ActsExactly(w, db, c, v, now);
    if f.group.Some? {
      GroupExactly(w, db, c, v, f.group.value, now);
    }
  }

  /** Scope "mine" shows of the whole list what is assigned to the one who looks. */
  lemma MineIsAssigned(db: Db, c: Case, f: Filter, v: Access, now: int)
    requires Keyed(db)
    ensures Listed(db, c, f.(scope := Mine), v, now) <==>
      Listed(db, c, f.(scope := Everything), v, now) && c.owner == Some(v.admin)
  {
    ListedExactly(db, c, f.(scope := Mine), v, now);
    ListedExactly(db, c, f.(scope := Everything), v, now);
  }

  /** And scope "action" what they could act on. */
  lemma ActionIsOpen(db: Db, c: Case, f: Filter, v: Access, now: int)
    requires Keyed(db)
    ensures Listed(db, c, f.(scope := Action), v, now) <==>
      Listed(db, c, f.(scope := Everything), v, now) && CanAct(db, c, v, now)
  {
    ListedExactly(db, c, f.(scope := Action), v, now);
    ListedExactly(db, c, f.(scope := Everything), v, now);
  }

  /** The dashboard's numbers count live cases of the group that are neither rejected nor withdrawn. */
  lemma CountedExactly(db: Db, c: Case, g: Group, now: int)
    requires Keyed(db) && c in db.cases
    ensures Counted(db, c, g, now) <==>
      && c.ineligible && !ForTraining(db, c) && InView(GroupFilter(g), c) && InChosenGroup(db, c, g, now)
      && (g == ClosedCases ==> c.status == Published || c.status == Closed)
  {
    var v := Access(0, false, false, false, false, false, false);
    CountMatchesList(db, c, g, v, now);
    ListedExactly(db, c, GroupFilter(g), v, now);
  }

  // -------- the patterns of a search --------

  /** An underscore stands for one character, a backslash takes a wildcard at its word, and others for themselves. */
  lemma LikeOne(s: string, c: char, p: string)
    ensures Like(s, "") <==> s == ""
    ensures Like(s, "_" + p) <==> s != "" && Like(s[1..], p)
    ensures Like(s, ['\\', c] + p) <==> s != "" && s[0] == c && Like(s[1..], p)
    ensures c !in "%_\\" ==> (Like(s, [c] + p) <==> s != "" && s[0] == c && Like(s[1..], p))
  {
    assert ("_" + p)[1..] == p && ("_" + p)[0] == '_';
    assert (['\\', c] + p)[2..] == p && (['\\', c] + p)[1] == c;
    assert ([c] + p)[1..] == p && ([c] + p)[0] == c;
  }

  /** A percent sign stands for any text. */
  lemma {:induction false} LikeAny(s: string, p: string)
    ensures Like(s, "%" + p) <==> exists k :: 0 <= k <= |s| && Like(s[k..], p)
    decreases |s|
  {
    assert ("%" + p)[1..] == p && s[0..] == s;
    if s != "" {
      LikeAny(s[1..], p);
      if k :| 0 <= k <= |s| && Like(s[k..], p) {
        assert k > 0 ==> s[1..][k - 1..] == s[k..];
      }
      if k :| 0 <= k <= |s[1..]| && Like(s[1..][k..], p) {
        assert s[1..][k..] == s[k + 1..];
      }
    }
  }
}
