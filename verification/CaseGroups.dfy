/**
 * The work groups of ineligible-player cases, defined twice: once as the conditions behind the
 * dashboard counts, and once as the conditions of the case list over its common table expression.
 */
module CaseGroups {
  import opened Common
  import opened Sql
  import opened Statuses
  import opened Text

  datatype EventKind =
    | PartyResponse | ExternalResponse | ResponseReviewed | OwnerReviewRequired | SentForApproval
    | TrainingDesignated | OtherEvent

  datatype RequestStatus = Pending | Responded | Expired | Cancelled

  datatype AttemptStatus = Sending | Sent | Failed | Bounced | Complained

  /**
   * A case. `sourceStale` stands for the query over its linked reports' revisions, `owner` for the
   * assigned administrator and `texts` for the columns that a search looks at.
   */
  datatype Case = Case(
    id: nat, ineligible: bool, status: CaseStatus, unpublished: bool, publishedAt: Option<int>, sourceStale: bool,
    isTest: bool, owner: Option<nat>, matchDate: Option<int>, texts: seq<string>)

  /** An event, with the text that its metadata holds for the response or the decision it is about. */
  datatype Event = Event(id: nat, case_: nat, kind: EventKind, about: Option<string>)

  datatype Request = Request(id: nat, case_: nat, status: RequestStatus, dueAt: Option<int>)

  datatype Decision = Decision(id: nat, case_: nat, revision: int, proposed: bool)

  datatype Outbox = Outbox(id: nat, case_: nat, revoked: bool)

  datatype Attempt = Attempt(id: nat, outbox: nat, number: int, status: AttemptStatus)

  datatype Db = Db(
    cases: seq<Case>, events: seq<Event>, requests: seq<Request>, decisions: seq<Decision>,
    outboxes: seq<Outbox>, attempts: seq<Attempt>)

  /** Ids are primary keys. */
  ghost predicate Keyed(db: Db) {
    && UniqueIds(db.cases, (c: Case) => c.id)
    && UniqueIds(db.events, (e: Event) => e.id)
    && UniqueIds(db.requests, (r: Request) => r.id)
    && UniqueIds(db.decisions, (d: Decision) => d.id)
    && UniqueIds(db.attempts, (a: Attempt) => a.id)
  }

  predicate Ended(s: CaseStatus) {
    s.Published? || s.Closed? || s.Rejected? || s.Withdrawn?
  }

  /** EXISTS over the events of a case of one kind about a row, whose id may be NULL. */
  predicate HasEvent(db: Db, c: Case, kind: EventKind, about: Option<nat>) {
    exists e :: e in db.events && e.case_ == c.id && e.kind == kind
      && Equal(e.about, if about.None? then None else Some(Itoa(about.value))).True?
  }

  predicate TrainingEvent(db: Db, c: Case) {
    exists e :: e in db.events && e.case_ == c.id && e.kind == TrainingDesignated
  }

  /** The condition shared by case detail and case lists for an approved case whose reports have changed. */
  predicate SourceReview(c: Case) {
    c.ineligible && c.status.Approved? && c.unpublished && c.publishedAt.None? && c.sourceStale
  }

  function LatestReply(db: Db, c: Case): Option<Event> {
    Top(db.events, ReplyTo(c), (e: Event) => (e.id, 0))
  }

  function ReplyTo(c: Case): Event -> bool {
    (e: Event) => e.case_ == c.id && (e.kind == PartyResponse || e.kind == ExternalResponse)
  }

  function LatestRequest(db: Db, c: Case): Option<Request> {
    Top(db.requests, (r: Request) => r.case_ == c.id, (r: Request) => (r.id, 0))
  }

  function CurrentProposal(db: Db, c: Case): Option<Decision> {
    Top(db.decisions, (d: Decision) => d.case_ == c.id && d.proposed, (d: Decision) => (d.revision, d.id))
  }

  function LatestAttempt(db: Db, o: Outbox): Option<Attempt> {
    Top(db.attempts, (a: Attempt) => a.outbox == o.id, (a: Attempt) => (a.number, a.id))
  }

  predicate Undelivered(a: Attempt) {
    a.status.Failed? || a.status.Bounced? || a.status.Complained?
  }

  // -------- the dashboard counts --------

  datatype Group =
    | Live | ActiveWork | NewReplies | OwnerReview | AwaitingDecision | AwaitingDenver
    | ResponsesDue | ResponsesOverdue | DeliveryExceptions | ClosedCases

  /** The live_cases relation. */
  predicate LiveCase(db: Db, c: Case) {
    !c.isTest && !TrainingEvent(db, c)
  }

  ghost predicate RequestWhere(db: Db, c: Case, holds: Request -> bool) {
    exists r :: r in db.requests && Equal(Some(r.id), IdOf(LatestRequest(db, c), (q: Request) => q.id)).True?
      && holds(r)
  }

  function OpenUntil(now: int): Request -> bool {
    (r: Request) => And(Of(r.status.Pending?), AtMost(r.dueAt, now)).True?
  }

  function OpenAfter(now: int): Request -> bool {
    (r: Request) => And(Of(r.status.Pending?), Above(r.dueAt, now)).True?
  }

  function HasExpired(): Request -> bool {
    (r: Request) => r.status.Expired?
  }

  ghost predicate OwnerReviewPending(db: Db, c: Case) {
    exists d :: d in db.decisions && Equal(Some(d.id), IdOf(CurrentProposal(db, c), (q: Decision) => q.id)).True?
      && HasEvent(db, c, OwnerReviewRequired, Some(d.id)) && !HasEvent(db, c, SentForApproval, Some(d.id))
  }

  ghost predicate UnreviewedReply(db: Db, c: Case) {
    exists e :: e in db.events && Equal(Some(e.id), IdOf(LatestReply(db, c), (q: Event) => q.id)).True?
      && !HasEvent(db, c, ResponseReviewed, Some(e.id))
  }

  ghost predicate UndeliveredMessage(db: Db, c: Case) {
    exists o :: o in db.outboxes && o.case_ == c.id && !o.revoked && LastAttemptUndelivered(db, o)
  }

  ghost predicate LastAttemptUndelivered(db: Db, o: Outbox) {
    exists a :: a in db.attempts && Equal(Some(a.id), IdOf(LatestAttempt(db, o), (q: Attempt) => q.id)).True?
      && Undelivered(a)
  }

  /** ineligibleCaseGroupPredicate */
  ghost predicate InGroup(db: Db, c: Case, g: Group, now: int) {
    c.ineligible &&
    match g
    case Live => !Ended(c.status)
    case ActiveWork => c.status.Investigating?
    case AwaitingDecision => c.status.DecisionProposed? && !OwnerReviewPending(db, c)
    case OwnerReview => c.status.DecisionProposed? && OwnerReviewPending(db, c)
    case ResponsesOverdue =>
      || (c.status.ResponsePending? && RequestWhere(db, c, OpenUntil(now)))
      || (c.status.Investigating? && RequestWhere(db, c, HasExpired()))
    case ResponsesDue =>
      c.status.ResponsePending? && RequestWhere(db, c, OpenAfter(now))
    case NewReplies => !Ended(c.status) && UnreviewedReply(db, c)
    case DeliveryExceptions => UndeliveredMessage(db, c)
    case AwaitingDenver =>
      c.status.Approved? && !(exists other :: other in db.cases && other.id == c.id && SourceReview(other))
    case ClosedCases => c.status.Published? || c.status.Closed?
  }

  ghost predicate Counted(db: Db, c: Case, g: Group, now: int) {
    LiveCase(db, c) && InGroup(db, c, g, now)
  }

  // -------- the case list --------

  /** The administrator who looks at the list, and what they may do. */
  datatype Access = Access(
    admin: nat, investigate: bool, propose: bool, approve: bool, issue: bool, appeal: bool, reviewSource: bool)

  /** The columns of a case_work row that the list's conditions read. */
  datatype CaseWork = CaseWork(
    status: CaseStatus, sourceReviewRequired: bool, isOwner: bool, ownerReviewRequired: bool, sentForApproval: bool,
    replyUnreviewed: bool, requestStatus: Option<RequestStatus>, dueAt: Option<int>, deliveryException: bool,
    isTraining: bool, matchDate: Option<int>, texts: seq<string>, viewer: Access)

  predicate DeliveryException(db: Db, c: Case) {
    exists o :: o in db.outboxes && o.case_ == c.id && !o.revoked
      && LatestAttempt(db, o).Some? && Undelivered(LatestAttempt(db, o).value)
  }

  function WorkRow(db: Db, c: Case, viewer: Access): CaseWork {
    var decision := IdOf(CurrentProposal(db, c), (d: Decision) => d.id);
    var reply := LatestReply(db, c);
    var request := LatestRequest(db, c);
    CaseWork(
      c.status, SourceReview(c), Coalesce(if c.owner.None? then None else Some(c.owner.value == viewer.admin), false),
      HasEvent(db, c, OwnerReviewRequired, decision), HasEvent(db, c, SentForApproval, decision),
      Coalesce(if reply.None? then None else Some(!HasEvent(db, c, ResponseReviewed, Some(reply.value.id))), false),
      if request.None? then None else Some(request.value.status),
      if request.None? then None else request.value.dueAt,
      DeliveryException(db, c),
      c.isTest || TrainingEvent(db, c), c.matchDate, c.texts, viewer)
  }

  // -------- the conditions of the list --------

  /** SQL's LIKE: % stands for any text, _ for any character, and a backslash takes its meaning from either. */
  predicate Like(s: string, p: string)
    decreases |s| + |p|
  {
    if p == "" then s == ""
    else if p[0] == '%' then Like(s, p[1..]) || (s != "" && Like(s[1..], p))
    else if p[0] == '\\' && |p| > 1 then s != "" && s[0] == p[1] && Like(s[1..], p[2..])
    else s != "" && (p[0] == '_' || s[0] == p[0]) && Like(s[1..], p[1..])
  }

  predicate Finds(texts: seq<string>, query: string) {
    exists t :: t in texts && Like(Lower(t), "%" + Lower(query) + "%")
  }

  /** ineligibleCaseNeedsActionSQL: what the viewer could do next. */
  function NeedsAction(w: CaseWork, now: int): Truth {
    var v := w.viewer;
    var expired := Of(w.requestStatus == Some(Expired));
    var overdue := And(
      Of(w.status.ResponsePending? && w.requestStatus == Some(Pending)), Or(Of(w.dueAt.None?), AtMost(w.dueAt, now)));
    Or(Or(Or(
      Of(w.status.Approved? && ((w.sourceReviewRequired && v.reviewSource) || (!w.sourceReviewRequired && v.issue))),
      Of(w.status.DecisionProposed? && (
        (w.ownerReviewRequired && !w.sentForApproval && w.isOwner && v.propose)
        || ((!w.ownerReviewRequired || w.sentForApproval) && v.approve)))),
      Of(w.status.Appealed? && v.appeal)),
      And(
        Of(!w.status.DecisionProposed? && !w.status.Approved? && !w.status.Appealed? && !Ended(w.status) && w.isOwner),
        Or(Or(
          Of((w.replyUnreviewed || w.deliveryException) && v.investigate),
          And(
            And(Of(!w.replyUnreviewed && !w.deliveryException), Not(expired)),
            Of(!w.status.ResponsePending? && (v.investigate || v.propose)))),
          And(Of(v.investigate), Or(expired, overdue)))))
  }

  /** The conditions that a query joins with AND. */
  datatype Condition =
    | Training(on: bool) | HasStatus(status: CaseStatus) | IsEnded | IsNotEnded | IsMine | WaitsForViewer
    | Search(query: string) | PlayedFrom(date: int) | PlayedTo(date: int)
    | InvestigatingNow | ReplyWaits | OwnerMustReview | ReadyForDecision | ReadyForDenver | AnswerDue | AnswerOverdue
    | NotDelivered

  /** COALESCE(request.status,'') is no NULL, so a missing request only fails to be equal. */
  function Evaluate(p: Condition, w: CaseWork, now: int): Truth {
    match p
    case Training(on) => Of(w.isTraining == on)
    case HasStatus(status) => Of(w.status == status)
    case IsEnded => Of(Ended(w.status))
    case IsNotEnded => Of(!Ended(w.status))
    case IsMine => Of(w.isOwner)
    case WaitsForViewer => NeedsAction(w, now)
    case Search(query) => Of(Finds(w.texts, query))
    case PlayedFrom(date) => Above(w.matchDate, date - 1)
    case PlayedTo(date) => AtMost(w.matchDate, date)
    case InvestigatingNow => Of(w.status.Investigating?)
    case ReplyWaits => And(Of(w.replyUnreviewed), Of(!Ended(w.status)))
    case OwnerMustReview => And(And(Of(w.status.DecisionProposed?), Of(w.ownerReviewRequired)),
      Not(Of(w.sentForApproval)))
    case ReadyForDecision =>
      And(Of(w.status.DecisionProposed?), Or(Not(Of(w.ownerReviewRequired)), Of(w.sentForApproval)))
    case ReadyForDenver => And(Of(w.status.Approved?), Not(Of(w.sourceReviewRequired)))
    case AnswerDue => And(And(Of(w.status.ResponsePending?), Of(w.requestStatus == Some(Pending))), Above(w.dueAt, now))
    case AnswerOverdue =>
      Or(
        And(And(Of(w.status.ResponsePending?), Of(w.requestStatus == Some(Pending))), AtMost(w.dueAt, now)),
        And(Of(w.status.Investigating?), Of(w.requestStatus == Some(Expired))))
    case NotDelivered => Of(w.deliveryException)
  }

  datatype Scope = Mine | Action | Everything

  /** The parts of the filter that select cases; no query is the empty text. */
  datatype Filter = Filter(
    history: bool, scope: Scope, group: Option<Group>, status: Option<CaseStatus>, training: bool, query: string,
    from: Option<int>, to: Option<int>)

  /** What the list is to show, without regard to how the query is put together. */
  ghost predicate Wanted(f: Filter, w: CaseWork, now: int) {
    WantedStatus(f, w) && WantedWork(f, w, now) && WantedDetails(f, w)
  }

  ghost predicate WantedStatus(f: Filter, w: CaseWork) {
    && w.isTraining == f.training
    && if f.status.Some? then w.status == f.status.value
       else f.group == Some(DeliveryExceptions) || Ended(w.status) == (f.history || f.group == Some(ClosedCases))
  }

  ghost predicate WantedWork(f: Filter, w: CaseWork, now: int) {
    && (f.scope.Mine? ==> w.isOwner)
    && (f.scope.Action? ==> NeedsAction(w, now).True?)
    && (f.group.Some? && !f.group.value.ClosedCases? ==> Evaluate(GroupCondition(f.group.value), w, now).True?)
  }

  ghost predicate WantedDetails(f: Filter, w: CaseWork) {
    && (f.query != "" ==> Finds(w.texts, f.query))
    && (f.from.Some? ==> w.matchDate.Some? && f.from.value <= w.matchDate.value)
    && (f.to.Some? ==> w.matchDate.Some? && w.matchDate.value <= f.to.value)
  }

  function GroupCondition(g: Group): Condition {
    match g
    case Live => IsNotEnded
    case ActiveWork => InvestigatingNow
    case NewReplies => ReplyWaits
    case OwnerReview => OwnerMustReview
    case AwaitingDecision => ReadyForDecision
    case AwaitingDenver => ReadyForDenver
    case ResponsesDue => AnswerDue
    case ResponsesOverdue => AnswerOverdue
    case DeliveryExceptions => NotDelivered
    case ClosedCases => IsEnded
  }

  ghost predicate AllHold(where: seq<Condition>, w: CaseWork, now: int) {
    forall p | p in where :: Evaluate(p, w, now).True?
  }

  method AndAlso(where: seq<Condition>, p: Condition) returns (more: seq<Condition>)
    ensures more == where + [p]
    ensures forall w, now :: AllHold(more, w, now) <==> AllHold(where, w, now) && Evaluate(p, w, now).True?
  {
    more := where + [p];
    assert p in more && forall q | q in where :: q in more;
  }

  /** buildIneligibleCaseQuery appends one condition after another. */
  method BuildCaseQuery(f: Filter) returns (where: seq<Condition>)
    ensures forall w, now :: AllHold(where, w, now) <==> Wanted(f, w, now)
  {
    where := AndAlso([], Training(f.training));
    if f.status.Some? {
      where := AndAlso(where, HasStatus(f.status.value));
    } else if f.group == Some(DeliveryExceptions) {
      // A message that was not delivered needs attention after the case has ended, too.
    } else if f.history || f.group == Some(ClosedCases) {
      where := AndAlso(where, IsEnded);
    } else {
      where := AndAlso(where, IsNotEnded);
    }
    assert forall w, now :: AllHold(where, w, now) <==> WantedStatus(f, w);
    where := AddWork(f, where);
    where := AddDetails(f, where);
  }

  method AddWork(f: Filter, where: seq<Condition>) returns (more: seq<Condition>)
    ensures forall w, now :: AllHold(more, w, now) <==> AllHold(where, w, now) && WantedWork(f, w, now)
  {
    more := where;
    if f.scope.Mine? {
      more := AndAlso(more, IsMine);
    } else if f.scope.Action? {
      more := AndAlso(more, WaitsForViewer);
    }
    if f.group.Some? && f.group != Some(ClosedCases) {
      more := AndAlso(more, GroupCondition(f.group.value));
    }
  }

  method AddDetails(f: Filter, where: seq<Condition>) returns (more: seq<Condition>)
    ensures forall w, now :: AllHold(more, w, now) <==> AllHold(where, w, now) && WantedDetails(f, w)
  {
    more := where;
    if f.query != "" {
      more := AndAlso(more, Search(f.query));
    }
    if f.from.Some? {
      more := AndAlso(more, PlayedFrom(f.from.value));
    }
    if f.to.Some? {
      more := AndAlso(more, PlayedTo(f.to.value));
    }
  }

  /** A row of the list. */
  ghost predicate Listed(db: Db, c: Case, f: Filter, viewer: Access, now: int) {
    c.ineligible && Wanted(f, WorkRow(db, c, viewer), now)
  }

  /** The list that a dashboard number leads to. */
  function GroupFilter(g: Group): Filter {
    Filter(false, Everything, Some(g), None, false, "", None, None)
  }

  // -------- both say the same --------

  lemma RequestSame(db: Db, c: Case, holds: Request -> bool)
    requires Keyed(db)
    ensures RequestWhere(db, c, holds) <==> LatestRequest(db, c).Some? && holds(LatestRequest(db, c).value)
  {
    ScalarIsLateral(
      db.requests, (r: Request) => r.case_ == c.id, (r: Request) => (r.id, 0), (r: Request) => r.id, holds);
  }

  lemma OwnerReviewSame(db: Db, c: Case)
    requires Keyed(db)
    ensures var decision := IdOf(CurrentProposal(db, c), (d: Decision) => d.id);
      OwnerReviewPending(db, c) ==
        (HasEvent(db, c, OwnerReviewRequired, decision) && !HasEvent(db, c, SentForApproval, decision))
  {
    ScalarIsLateral(
      db.decisions, (d: Decision) => d.case_ == c.id && d.proposed,
      (d: Decision) => (d.revision, d.id), (d: Decision) => d.id,
      (d: Decision) =>
        HasEvent(db, c, OwnerReviewRequired, Some(d.id)) && !HasEvent(db, c, SentForApproval, Some(d.id)));
  }

  lemma ReplySame(db: Db, c: Case)
    requires Keyed(db)
    ensures var reply := LatestReply(db, c);
      UnreviewedReply(db, c) <==> reply.Some? && !HasEvent(db, c, ResponseReviewed, Some(reply.value.id))
  {
    ScalarIsLateral(
      db.events, ReplyTo(c), (e: Event) => (e.id, 0), (e: Event) => e.id,
      (e: Event) => !HasEvent(db, c, ResponseReviewed, Some(e.id)));
  }

  lemma DeliverySame(db: Db, o: Outbox)
    requires Keyed(db)
    ensures var last := LatestAttempt(db, o);
      LastAttemptUndelivered(db, o) <==> last.Some? && Undelivered(last.value)
  {
    ScalarIsLateral(
      db.attempts, (a: Attempt) => a.outbox == o.id, (a: Attempt) => (a.number, a.id), (a: Attempt) => a.id,
      (a: Attempt) => Undelivered(a));
  }

  lemma MessagesSame(db: Db, c: Case)
    requires Keyed(db)
    ensures UndeliveredMessage(db, c) <==> DeliveryException(db, c)
  {
    forall o ensures LastAttemptUndelivered(db, o)
      == (LatestAttempt(db, o).Some? && Undelivered(LatestAttempt(db, o).value))
    {
      DeliverySame(db, o);
    }
  }

  lemma SourceReviewSame(db: Db, c: Case)
    requires Keyed(db) && c in db.cases
    ensures (exists other :: other in db.cases && other.id == c.id && SourceReview(other)) <==> SourceReview(c)
  {
    forall other | other in db.cases && other.id == c.id ensures other == c {
      SameId(db.cases, (x: Case) => x.id, other, c);
    }
  }

  /** The columns of a row say what the dashboard's conditions ask. */
  ghost predicate Describes(w: CaseWork, db: Db, c: Case, now: int) {
    && w.status == c.status
    && (w.isTraining <==> !LiveCase(db, c))
    && (w.sourceReviewRequired <==> exists other :: other in db.cases && other.id == c.id && SourceReview(other))
    && (w.ownerReviewRequired && !w.sentForApproval <==> OwnerReviewPending(db, c))
    && (w.replyUnreviewed <==> UnreviewedReply(db, c))
    && (w.deliveryException <==> UndeliveredMessage(db, c))
    && (w.requestStatus == Some(Pending) && Above(w.dueAt, now).True? <==> RequestWhere(db, c, OpenAfter(now)))
    && (w.requestStatus == Some(Pending) && AtMost(w.dueAt, now).True? <==> RequestWhere(db, c, OpenUntil(now)))
    && (w.requestStatus == Some(Expired) <==> RequestWhere(db, c, HasExpired()))
  }

  lemma RowDescribes(db: Db, c: Case, viewer: Access, now: int)
    requires Keyed(db) && c in db.cases
    ensures Describes(WorkRow(db, c, viewer), db, c, now)
  {
    SourceReviewSame(db, c);
    OwnerReviewSame(db, c);
    ReplySame(db, c);
    MessagesSame(db, c);
    RequestSame(db, c, OpenAfter(now));
    RequestSame(db, c, OpenUntil(now));
    RequestSame(db, c, HasExpired());
  }

  lemma GroupSame(w: CaseWork, db: Db, c: Case, g: Group, now: int)
    requires Describes(w, db, c, now) && c.ineligible
    ensures !g.ClosedCases? ==> (Counted(db, c, g, now) <==> Wanted(GroupFilter(g), w, now))
    ensures g.ClosedCases? ==>
      Counted(db, c, g, now) == (Wanted(GroupFilter(g), w, now) && !c.status.Rejected? && !c.status.Withdrawn?)
  {
    match g
    case ResponsesDue => DueGroupSame(w, db, c, now);
    case ResponsesOverdue => OverdueGroupSame(w, db, c, now);
    case OwnerReview => DecisionGroupSame(w, db, c, g, now);
    case AwaitingDecision => DecisionGroupSame(w, db, c, g, now);
    case _ => OtherGroupSame(w, db, c, g, now);
  }

  lemma OtherGroupSame(w: CaseWork, db: Db, c: Case, g: Group, now: int)
    requires Describes(w, db, c, now) && c.ineligible
    requires !g.ResponsesDue? && !g.ResponsesOverdue? && !g.OwnerReview? && !g.AwaitingDecision?
    ensures !g.ClosedCases? ==> (Counted(db, c, g, now) <==> Wanted(GroupFilter(g), w, now))
    ensures g.ClosedCases? ==>
      Counted(db, c, g, now) == (Wanted(GroupFilter(g), w, now) && !c.status.Rejected? && !c.status.Withdrawn?)
  {
  }

  lemma DecisionGroupSame(w: CaseWork, db: Db, c: Case, g: Group, now: int)
    requires Describes(w, db, c, now) && c.ineligible && (g.OwnerReview? || g.AwaitingDecision?)
    ensures Counted(db, c, g, now) <==> Wanted(GroupFilter(g), w, now)
  {
  }

  lemma DueGroupSame(w: CaseWork, db: Db, c: Case, now: int)
    requires Describes(w, db, c, now) && c.ineligible
    ensures Counted(db, c, ResponsesDue, now) <==> Wanted(GroupFilter(ResponsesDue), w, now)
  {
  }

  lemma OverdueGroupSame(w: CaseWork, db: Db, c: Case, now: int)
    requires Describes(w, db, c, now) && c.ineligible
    ensures Counted(db, c, ResponsesOverdue, now) <==> Wanted(GroupFilter(ResponsesOverdue), w, now)
  {
  }

  /**
   * For every history, a dashboard count and the list it leads to select the same cases of every group
   * but one; of the closed group the list also shows exactly the rejected and withdrawn cases.
   */
  lemma CountMatchesList(db: Db, c: Case, g: Group, viewer: Access, now: int)
    requires Keyed(db) && c in db.cases
    ensures !g.ClosedCases? ==> (Counted(db, c, g, now) <==> Listed(db, c, GroupFilter(g), viewer, now))
    ensures g.ClosedCases? ==>
      Counted(db, c, g, now) ==
        (Listed(db, c, GroupFilter(g), viewer, now) && !c.status.Rejected? && !c.status.Withdrawn?)
  {
    RowDescribes(db, c, viewer, now);
    if c.ineligible {
      GroupSame(WorkRow(db, c, viewer), db, c, g, now);
    }
  }

  /** So the number on the dashboard is the length of the list. */
  lemma NumberMatchesList(db: Db, g: Group, viewer: Access, now: int)
    requires Keyed(db)
    ensures var counted := set c | c in db.cases && Counted(db, c, g, now);
      var listed := set c | c in db.cases && Listed(db, c, GroupFilter(g), viewer, now);
      counted <= listed && (!g.ClosedCases? ==> counted == listed && |counted| == |listed|)
  {
    forall c | c in db.cases ensures Counted(db, c, g, now) ==> Listed(db, c, GroupFilter(g), viewer, now)
      ensures !g.ClosedCases? ==> (Counted(db, c, g, now) <==> Listed(db, c, GroupFilter(g), viewer, now))
    {
      CountMatchesList(db, c, g, viewer, now);
    }
  }

  /** The history view hides every group that leads to cases still open. */
  lemma HistoryHidesGroups(db: Db, c: Case, g: Group, viewer: Access, now: int)
    requires !g.ClosedCases? && !g.DeliveryExceptions?
    ensures !Listed(db, c, GroupFilter(g).(history := true), viewer, now)
  {
  }

  /** Leaving the group, the view, the training switch and the status alone, every other part only narrows a list. */
  lemma FiltersNarrow(db: Db, c: Case, f: Filter, viewer: Access, now: int)
    requires Listed(db, c, f, viewer, now)
    ensures Listed(db, c, f.(scope := Everything, query := "", from := None, to := None), viewer, now)
  {
  }

  // -------- searching --------

  predicate PlainQuery(q: string) {
    '%' !in q && '_' !in q && '\\' !in q
  }

  lemma {:induction false} LikePrefix(s: string, q: string)
    requires PlainQuery(q)
    ensures Like(s, q + "%") <==> HasPrefix(s, q)
    decreases |q|
  {
    if q == "" {
      assert q + "%" == "%" && "%"[1..] == "";
      LikeAnything(s);
    } else {
      assert (q + "%")[1..] == q[1..] + "%" && (q + "%")[0] == q[0] && q[0] in q;
      if s != "" {
        LikePrefix(s[1..], q[1..]);
        assert HasPrefix(s, q) ==> s[0] == s[..|q|][0] && s[1..][..|q| - 1] == s[..|q|][1..];
        assert s[0] == q[0] && HasPrefix(s[1..], q[1..]) ==> s[..|q|] == [s[0]] + s[1..][..|q| - 1];
      }
    }
  }

  lemma {:induction false} LikeAnything(s: string)
    ensures Like(s, "%")
    decreases |s|
  {
    assert "%"[1..] == "";
    if s != "" {
      LikeAnything(s[1..]);
    }
  }

  lemma {:induction false} LikeContains(s: string, q: string)
    requires PlainQuery(q)
    ensures Like(s, "%" + (q + "%")) <==> Contains(s, q)
    decreases |s|
  {
    var p := "%" + (q + "%");
    assert p[1..] == q + "%";
    LikePrefix(s, q);
    if s != "" {
      LikeContains(s[1..], q);
    }
  }

  /** A query without wildcards finds exactly the cases one of whose texts contains it, whatever the letters' case. */
  lemma SearchFindsSubstrings(texts: seq<string>, query: string)
    requires PlainQuery(query)
    ensures Finds(texts, query) <==> exists t :: t in texts && Contains(Lower(t), Lower(query))
  {
    LowerIsPlain(query);
    forall t | t in texts ensures Like(Lower(t), "%" + Lower(query) + "%") == Contains(Lower(t), Lower(query)) {
      assert "%" + Lower(query) + "%" == "%" + (Lower(query) + "%");
      LikeContains(Lower(t), Lower(query));
    }
  }

  lemma LowerIsPlain(q: string)
    requires PlainQuery(q)
    ensures PlainQuery(Lower(q))
  {
    forall i | 0 <= i < |q| ensures Lower(q)[i] != '%' && Lower(q)[i] != '_' && Lower(q)[i] != '\\' {
      assert q[i] in q;
    }
  }
}
