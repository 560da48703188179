# Verified model of the league's sanctions, reporting and sign-in logic

This project models, in Dafny, the parts of the cricket league's web application that carry state from one request to
the next or that answer one question in two places, and proves what they promise. Tables are sequences, sets and maps
of records; each committed transaction is one step; every handler that updates rows is also written as a method of a
class and proved equal to its step, and the theorems are about the steps. Beside each part stands a module named
`...Meaning`: it says what the part's definitions come to in terms of the stored fields, the submitted form and the
written-out texts and numbers alone, so that a theorem about them is one about the tables. `dafny verify dfyconfig.toml`
checks everything.

| part | files | what is proved |
|---|---|---|
| Report triage | `IntakeTables`, `IntakeSteps`, `IntakeMerge`, `IntakeInvariants`, `IntakeRuns`, `IntakeTheorems`, `IntakeStanding`, `IntakeStore`, `MergeMeaning`, `IntakeMeaning` | merging a report into a case is append-only and idempotent; an invariant over all runs; "linked" means that no case is behind; re-linking in any order catches up; resolved reports are frozen, and exactly which runs leave one in active casework |
| Report coverage and cards | `Coverage`, `CoverageReports`, `Cards`, `CoverageMeaning`, `ReportMeaning`, `CardMeaning` | the counting, listing and report queries agree; byes, submissions and acceptances never add an outstanding fixture; the card escalation adds up |
| Streaming text | `EventStream`, `EventCuts`, `LineWriter`, `Linkify`, `EmailLists`, `EmailMarkup`, `StreamMeaning`, `LinkMeaning`, `EmailMeaning`, `MarkupMeaning` | each incremental writer or reader equals a whole-input specification; exactly which cuts of a stream change what is dispatched; no text in an email can open or close a list |
| Tracker reconciliation | `Tracker`, `TrackerMeaning` | injective matches, linear review chains, complete snapshots that go stale exactly when they should |
| Access | `Lockout`, `LockoutParallel`, `LockoutSwarm`, `SecondCodes`, `MagicTokens`, `LockoutMeaning`, `ParallelMeaning`, `TokenMeaning` | a reached bound on password guesses, also for requests that overlap; the newest link of a scope is the only usable one |
| Case lists and filters | `Sql`, `CaseGroups`, `Filters`, `SqlMeaning`, `CaseMeaning`, `FilterMeaning` | dashboard counts and lists select the same cases under three-valued logic; filters survive printing and parsing |
| Delivery events | `Delivery`, `DeliveryMeaning` | concurrent, repeated notifications keep numbers dense and record every event text once |
| Shared | `Common`, `Statuses`, `Text`, `TextMeaning`, `Sets`, `Sequences` | optional values, the stages of a case, string operations, finite sets, sequences |

## What turned out to be false, and when it holds

- **Withdrawing a case** marks its report ignored without looking at the report's other cases, so that an ignored report
  can stay in active casework; a duplicate never does (`IntakeStanding.ReachableDuplicatesAreIdle`). One withdrawal leaves
  all resolved reports free of active links if and only if the withdrawn case's report is active in no other case
  (`IntakeTheorems.UndoKeepsClosedIff`). From an empty queue a run does if and only if every withdrawal of another kind has
  been followed by a new revision of that report (`IntakeStanding.ReachableClosedIff`). Splitting a fresh report in two and
  withdrawing the first case is one way to break it (`IntakeTheorems.WithdrawingStrandsASplitReport`).
- **A linked report is in active casework** unless a duplicate was reopened and then linked to the very case that it
  duplicates while no other case held it: its duplicate link is kept (`IntakeStanding.RelinkedDuplicateIsBare`). It stays
  so exactly until it gets another case, is marked as a duplicate or is revised (`IntakeStanding.BareExactly`).
- **Accepting a missing report** removes the fixture if and only if the team has no earlier exemption for the match;
  an exemption recorded before the match was moved to another day swallows the new one (`Coverage.ResolveEffect`,
  `Coverage.MovedMatchCannotBeAccepted`). Accepting any list of outstanding fixtures leaves exactly the others and the
  swallowed ones (`Coverage.ResolvingAllExactly`).
- **The event-stream reader** normalises each chunk by itself: it sees the normalised stream if and only if no cut
  separates the CR of a line ending from its LF (`EventStream.ReceivedExactly`). Such a cut at the end of a line with
  text changes no event (`EventCuts.OnlyEmptyLinesMatter`). A cut inside an empty line lets a block run into the next
  one. All handlers see the events of the stream if and only if, of the blocks that so run together, at most one carries
  data, the event that they name last is the one that block names, and none carries data where the stream ends
  (`EventCuts.SameEventsExactly`). Where every block carries data, as those the server writes do
  (internal/httpserver/rules_assistant.go:793-796), this means that another empty line of the same run comes through whole
  (`EventCuts.DataStreamsExactly`).
- **The counting and the listing query** agree, under the week tags, if and only if the team's Play-Cricket id is not the
  empty text or no fixture with a blank side is open (`Coverage.QueriesAgreeExactly`). Only the schema admits the other
  case (`Coverage.EmptyTeamIdIsListedUncounted`): the handlers store an empty id as NULL.
- **The compliance page's card suggestion** counts the current week's cards. With p earlier offences and c counted cards
  of the week it agrees with the card report if and only if c is a multiple of three, or neither p nor p + c leaves the
  remainder two (`Cards.SuggestionMatchesDue`); so always for no card, and for one exactly when the earlier offences fill
  whole threes (`Cards.SuggestionWithFewCards`).
- **The limit on wrong passwords** bounds attempts that follow one another. Requests read the account and write it in
  separate statements: with k of them in flight the limit grows by k - 1, and each lock allows k more passwords instead of
  one (`LockoutParallel.ParallelChecksAreBounded`), a bound that is reached
  (`LockoutSwarm.ParallelBoundIsReached`). A second code is used once only if requests
  do not overlap; k of them can accept one code (`SecondCodes.CodeAcceptedByAll`) and no more
  (`SecondCodes.ParallelCodesAreBounded`).
- **A superseded link** whose last moment is the very instant at which the new one is issued stays usable at that
  instant and at no later one (`MagicTokens.IssueEffect`).
- **The closed group** counts published and closed cases; its list also shows exactly the rejected and withdrawn ones
  (`CaseGroups.CountMatchesList`).
- **A line of a sanctions email** that names the answer page and holds no web address disappears from the message
  (`EmailLists.LostLine`).

## Model

| member | source | states |
|---|---|---|
| `IntakeMerge.MergeEffect` | internal/httpserver/admin_ineligible_merge.go:36-161 | a merge only appends rows, only of its own case, overwrites nothing but that case's reporting club, and leaves the newest resolution of the pair naming the merged revision |
| `IntakeMerge.MergeIdempotent` | internal/httpserver/admin_ineligible_merge.go:36-161 | merging the same revision into the same case a second time changes no table |
| `IntakeMerge.MergeCompletes` | internal/httpserver/admin_ineligible_merge.go:36-161 | after a merge every row that it names is there; which they are in the report's own terms is `MergeMeaning.MergeStores` |
| `IntakeMerge.MergeKeepsUnique` | migrations/0059_ineligible_intake_case_merge.sql:64-140 | subjects stay unique by their identities, which are those of `MergeMeaning.PlayerIsFiledById` and `PlayerIsFiledByName` for players, parties stay unique, and a case's reporting club keeps its party |
| `IntakeMerge.AttachAppends` | internal/httpserver/admin_ineligible_merge.go:268-306 | the evidence loop bridges every retained file, adds nothing else and duplicates nothing |
| `IntakeMerge.AttachAgain` | internal/httpserver/admin_ineligible_merge.go:268-306 | files bridged before are not inspected again, even when their stored bytes have since been damaged |
| `MergeMeaning.MergeStores` | internal/httpserver/admin_ineligible_merge.go:36-161 | for every accepted merge, each table afterwards: subjects, links, parties, provenance, resolution and evidence exactly as the report's own fields call for, and nothing else |
| `MergeMeaning.PlayerIsFiledById` | internal/httpserver/admin_ineligible_merge.go:183-192 | a player with a Play-Cricket id is filed under that id whatever the name, the newest resolution names that row, and no name gets a new subject |
| `MergeMeaning.PlayerIsFiledByName` | internal/httpserver/admin_ineligible_merge.go:193-203 | one without is filed under the team and the trimmed name in small letters, and no id gets a new subject |
| `MergeMeaning.ClubStored` | internal/httpserver/admin_ineligible_merge.go:89-134 | what becomes of the case's own reporting club, for the league's and for clubs' reports, first ones and later ones |
| `MergeMeaning.MergesExactly` | internal/httpserver/admin_ineligible_merge.go:36-161 | a merge is accepted if and only if there is a player's name, a mapped and named club exactly for reports that are not the league's, and every file can be bridged; which refusal each failure gives |
| `MergeMeaning.AttachesExactly` | internal/httpserver/admin_ineligible_merge.go:268-306 | the files can be bridged if and only if each is intact or was bridged before, be it in this merge |
| `IntakeMeaning.CreateAccepted` | internal/httpserver/admin_ineligible.go:1566-1660 | when a request to open a case is accepted, and when it is refused as not found or as a conflict |
| `IntakeMeaning.CreateOpensCase` | internal/httpserver/admin_ineligible.go:1660-1684 | the case, its link and the fields of the merge that follows, each in terms of the request and the report |
| `IntakeMeaning.CreateStores` | internal/httpserver/admin_ineligible.go:1684-1718 | beyond what the merge stores, only the report's state and the reporter's party |
| `IntakeMeaning.LinkAccepted` | internal/httpserver/admin_ineligible.go:1720-1804 | when a request to link a report is accepted, not found or a conflict |
| `IntakeMeaning.LinkRetained` | internal/httpserver/admin_ineligible.go:1804-1812 | a link that is there is kept, a new one is primary exactly if the report had none in force |
| `IntakeMeaning.LinkStores` | internal/httpserver/admin_ineligible.go:1804-1845 | the fields of the merge, and beyond it only the report's state |
| `IntakeMeaning.DuplicateAccepted` | internal/httpserver/admin_ineligible.go:1899-1960 | when a report may be marked as a duplicate, when that is not found and when a conflict, and that marking again does nothing |
| `IntakeMeaning.DuplicateStores` | internal/httpserver/admin_ineligible.go:1960-2011 | the link, the party, the resolution field by field unless it was said before, and the state |
| `IntakeMeaning.IgnoreStores` | internal/httpserver/admin_ineligible.go:2013-2062 | the outcome of ignoring for every state and every report |
| `IntakeMeaning.WithdrawStores` | internal/httpserver/sanctions_case_undo.go:57-134 | a case is withdrawn if and only if it was opened for one primary report, is in an early stage and has done nothing, and then only it and that report change |
| `IntakeMeaning.ProjectStores` | internal/httpserver/admin_ineligible_merge.go:221-255 | the projection changes one report's state alone: "exception" if some link in casework has no newest resolution of the newest revision, "linked" otherwise |
| `IntakeMeaning.ReviseStores` | internal/ineligible/pgstore.go:347-399 | the fields after a new revision, and the state for each source, state and link |
| `IntakeInvariants.UnresolvedMeansStale` | internal/httpserver/admin_ineligible_merge.go:221-255 | the projection's search among resolutions of one relationship finds the newest resolution of the case and report |
| `IntakeInvariants.NeedsReviewMeansStale` | internal/httpserver/admin_ineligible_merge.go:221-255 | a report needs review exactly when some active case's newest resolution names an older revision |
| `IntakeInvariants.MergeKeepsInv` | internal/httpserver/admin_ineligible_merge.go:36-255 | a merge followed by the projection restores the whole invariant |
| `IntakeRuns.CreateKeepsInv` | internal/httpserver/admin_ineligible.go:1566-1718 | opening a case keeps references, single links, one primary link, one club per case, uniqueness and "linked is current" |
| `IntakeRuns.LinkKeepsInv` | internal/httpserver/admin_ineligible.go:1720-1845 | so does linking a report to a case |
| `IntakeRuns.DuplicateKeepsInv` | internal/httpserver/admin_ineligible.go:1899-2011 | so does marking a duplicate |
| `IntakeRuns.IgnoreKeepsInv` | internal/httpserver/admin_ineligible.go:2013-2062 | so does ignoring a report |
| `IntakeRuns.UndoKeepsInv` | internal/httpserver/sanctions_case_undo.go:57-134 | so does withdrawing a case |
| `IntakeRuns.ReviseKeepsInv` | internal/ineligible/pgstore.go:347-399 | so does the arrival of a new source revision, from the sheet or from the native form (internal/ineligible/native.go:153-175) |
| `IntakeRuns.StepKeepsInv` | internal/httpserver/admin_ineligible.go:1566-2062 | every step keeps the invariant |
| `IntakeRuns.RunKeepsInv` | internal/httpserver/admin_ineligible.go:1566-2062 | every run keeps the invariant |
| `IntakeRuns.ReachableStatesAreSound` | internal/httpserver/admin_ineligible.go:1618-1674 | in every state reached from an empty queue an intake has at most one link per case and one effective primary link, every team of a case belongs to its club, and a linked intake is current |
| `IntakeTheorems.UndoKeepsClosedIff` | internal/httpserver/sanctions_case_undo.go:57-134 | a withdrawal leaves resolved reports without active links if and only if the report is in no other case |
| `IntakeTheorems.WithdrawingStrandsASplitReport` | internal/httpserver/sanctions_case_undo.go:57-134 | a family of three-step runs in which it does not: split a fresh report and withdraw the first case |
| `IntakeTheorems.RunKeepsClosed` | internal/httpserver/admin_ineligible.go:1928-1939 | over any run whose withdrawals meet that condition, ignored reports hold no active link either, nor do duplicates |
| `IntakeStanding.ReachableDuplicatesAreIdle` | internal/httpserver/admin_ineligible.go:1928-1939 | in every state reached from an empty queue, whatever was withdrawn, a duplicate report holds no active link |
| `IntakeStanding.ClosedIsFrozen` | internal/httpserver/admin_ineligible.go:2044-2054 | no step but a source change alters a duplicate or ignored report or its links, also when the ignored report or others are still in casework |
| `IntakeStanding.ClosedStaysFrozen` | internal/httpserver/admin_ineligible.go:2044-2054 | so it stays as it is over any run without such a change |
| `IntakeStanding.StrandedAfter` | internal/httpserver/sanctions_case_undo.go:57-134 | after a step an ignored report is in active casework if and only if the step withdrew its case while another held it, or it was so before and the step brought no new revision of it |
| `IntakeStanding.StrandedExactly` | internal/httpserver/sanctions_case_undo.go:57-134 | after any part of any run, exactly those are that such a withdrawal left so and no revision reopened since |
| `IntakeStanding.ReachableClosedIff` | internal/httpserver/sanctions_case_undo.go:57-134 | from an empty queue, all resolved reports are free of active links if and only if every such withdrawal was followed by a revision of its report |
| `IntakeStanding.LinkActive` | internal/httpserver/admin_ineligible.go:1751-1807 | an accepted link leaves the report in active casework unless no case held it and the named case holds its duplicate link |
| `IntakeStanding.BareAfter` | internal/httpserver/admin_ineligible.go:1566-2062 | exactly which steps leave a linked report out of active casework and which end that |
| `IntakeStanding.BareExactly` | internal/httpserver/admin_ineligible.go:1566-2062 | after any part of any run a linked report is out of active casework if and only if such a link request left it so and nothing ended it since |
| `IntakeStanding.RelinkedDuplicateIsBare` | internal/httpserver/admin_ineligible.go:1720-1845 | a report with duplicate links only that is linked to a case it duplicates becomes linked and stays out of active casework |
| `IntakeTheorems.ProjectionIsExact` | internal/httpserver/admin_ineligible_merge.go:221-255 | the projected state is "linked" exactly when no active case is behind the newest revision, and "exception" otherwise |
| `IntakeTheorems.LinkCatchesUp` | internal/httpserver/admin_ineligible.go:1751-1807 | linking removes exactly its own case from the stale ones and sets the state accordingly |
| `IntakeTheorems.CreateCatchesUp` | internal/httpserver/admin_ineligible.go:1618-1674 | opening a case leaves the set of cases behind as it was, and the report linked exactly when that set is empty |
| `IntakeTheorems.ReviseMakesAllStale` | internal/ineligible/native.go:153-175 | a new revision puts every active case behind; from the sheet (internal/ineligible/pgstore.go:347-399) it sends a report with an effective link back for review, from the native form exactly a report that was linked, duplicate or ignored, whatever its links |
| `IntakeTheorems.ReadySucceeds` | internal/httpserver/admin_ineligible.go:1720-1845 | an acceptable request with readable files is not refused |
| `IntakeTheorems.ReadyStays` | internal/httpserver/admin_ineligible.go:1751-1807 | a successful link leaves every other request for the report acceptable |
| `IntakeTheorems.RelinkInAnyOrder` | internal/httpserver/admin_ineligible_merge.go:136-161 | acceptable re-links succeed in any order; the report is linked again exactly when they name every stale case |
| `IntakeTheorems.RelinkMeasure` | internal/httpserver/admin_ineligible_merge.go:221-255 | each re-link of a stale case leaves one stale case fewer |
| `IntakeStore.Store.UpsertSubject` | internal/httpserver/admin_ineligible_merge.go:163-208 | insert-or-find returns the id of the one subject with that identity and adds at most that row; the new tables are those of the specification function, whose uniqueness `IntakeMerge.MergeKeepsUnique` proves |
| `IntakeStore.Store.LinkSubjectRevision` | internal/httpserver/admin_ineligible_merge.go:210-219 | the insert computes the specification function: the link is appended unless it is there; that repeating it changes nothing is `IntakeMerge.MergeIdempotent` |
| `IntakeStore.Store.AttachEvidence` | internal/httpserver/admin_ineligible_merge.go:268-306 | the loop equals the recursive specification, up to the first damaged new file; what it means is `IntakeMerge.AttachAppends` and `IntakeMerge.AttachAgain` |
| `IntakeStore.Store.MergeIntakeIntoCase` | internal/httpserver/admin_ineligible_merge.go:36-161 | the statements in their order equal the merge function, to which `MergeMeaning.MergeStores`, `IntakeMerge.MergeEffect`, `MergeIdempotent` and `MergeCompletes` apply |
| `IntakeStore.Store.ProjectMergeState` | internal/httpserver/admin_ineligible_merge.go:221-255 | the stored state becomes that of the projection function; what it says is `IntakeInvariants.NeedsReviewMeansStale` and `IntakeTheorems.ProjectionIsExact` |
| `IntakeStore.Store.CreateCase` | internal/httpserver/admin_ineligible.go:1566-1718 | the transaction equals the create step, or rolls everything back when it is refused; the promises are those of `IntakeRuns.CreateKeepsInv` and `IntakeTheorems.CreateCatchesUp` |
| `IntakeStore.Store.LinkCase` | internal/httpserver/admin_ineligible.go:1720-1845 | the same for the link step; the promises are those of `IntakeRuns.LinkKeepsInv` and `IntakeTheorems.LinkCatchesUp` |
| `IntakeStore.Store.MarkDuplicate` | internal/httpserver/admin_ineligible.go:1899-2011 | the same for the duplicate step; the promises are those of `IntakeRuns.DuplicateKeepsInv` and `IntakeTheorems.ClosedIsFrozen` |
| `IntakeStore.Store.Ignore` | internal/httpserver/admin_ineligible.go:2013-2062 | the same for the ignore step; the promises are those of `IntakeRuns.IgnoreKeepsInv` and `IntakeTheorems.ClosedIsFrozen` |
| `Coverage.CountsMatchListing` | internal/httpserver/admin_compliance.go:613-653 | fixtures less submitted, as `CoverageMeaning.CountsExactly` says what they are, is at least the number listed, as `CoverageMeaning.OutstandingExactly` says, and equal to it when submissions and exemptions carry their match's week |
| `Coverage.CoveredIsNotMissing` | internal/httpserver/admin_card_report.go:281-333 | a fixture that the counts cover is never listed, and under the week tags exactly the uncovered ones are |
| `Coverage.QueriesAgreeExactly` | internal/httpserver/admin_compliance.go:613-653 | under the week tags the counts and the listing agree if and only if the team's id is not empty or no fixture with a blank side is open |
| `Coverage.EmptyTeamIdIsListedUncounted` | internal/httpserver/admin_compliance.go:621-651 | a family of inputs, admitted by the schema alone, for which they differ |
| `Coverage.ByeRenumbers` | internal/httpserver/admin_compliance.go:723-739 | a bye moves exactly the later fixtures of the same day and team up by one place |
| `Coverage.ByeEffect` | internal/httpserver/admin_compliance.go:723-739 | a bye adds no outstanding fixture, and also clears exactly the one that now falls to the last legacy submission |
| `Coverage.SubmissionNeverEnlarges` | internal/httpserver/admin_compliance.go:621-651 | a further submission of any kind never adds an outstanding fixture |
| `Coverage.ResolveEffect` | internal/httpserver/admin_compliance.go:741-803 | accepting an outstanding fixture removes it and nothing else if there is no earlier exemption for the match, and changes nothing if there is one |
| `Coverage.MovedMatchCannotBeAccepted` | internal/httpserver/admin_compliance.go:781-787 | a family of inputs for which accepting changes nothing: one fixture, exempted and then moved |
| `Coverage.FixedDatesResolve` | internal/httpserver/admin_compliance.go:741-803 | while the match has not been moved since the team's exemptions for it, accepting it strictly shrinks the list |
| `Coverage.ResolvingAllExactly` | internal/httpserver/admin_compliance.go:741-803 | accepting outstanding fixtures in any order leaves exactly those not accepted and, of those accepted, the ones whose match the team had an exemption for |
| `Coverage.ResolvingLeavesNoneIff` | internal/httpserver/admin_compliance.go:741-803 | none is left if and only if all were accepted and none had such an exemption |
| `Coverage.ResolvingAllLeavesNone` | internal/httpserver/admin_compliance.go:741-803 | in particular exactly the others are left while none of the accepted matches has been moved |
| `CoverageMeaning.OutstandingExactly` | internal/httpserver/admin_compliance.go:613-653 | a fixture is listed if and only if the team plays, its date lies in the week with both ends and is no Friday, it is no bye, no submission names it, no exemption covers it, and it stands behind the submissions without a match |
| `CoverageMeaning.CountsExactly` | internal/httpserver/admin_card_report.go:281-333 | the two counts as numbers of fixtures, with the same conditions read for this week's rows only |
| `CoverageMeaning.UnfiledFixture` | internal/httpserver/admin_compliance.go:621-651 | a team's fixture for which nothing was filed is listed and expected exactly from the first to the last day of the week |
| `CoverageMeaning.AcceptStores` | internal/httpserver/admin_compliance.go:741-803 | which requests are accepted, and the exemption added or renewed, field by field |
| `CoverageMeaning.ByeStores` | internal/httpserver/admin_compliance.go:723-739 | only the flag of that fixture changes |
| `ReportMeaning.RowExactly` | internal/httpserver/admin_missing_submissions_report.go:230-312 | when a row counts as submitted and when as resolved |
| `ReportMeaning.SummaryExactly` | internal/httpserver/admin_missing_submissions_report.go:404-431 | a team's summary counts its unsubmitted rows, with and without acceptance, and lists their dates in order |
| `ReportMeaning.SumsTakeEach` | internal/httpserver/admin_compliance.go:246-271 | the sums add what each active team brings |
| `CoverageReports.ComplianceStore.MarkBye` | internal/httpserver/admin_compliance.go:723-739 | the update sets one fixture's flag and nothing else; what that does to the list is `Coverage.ByeEffect` |
| `CoverageReports.ComplianceStore.MarkResolved` | internal/httpserver/admin_compliance.go:741-803 | an accepted request inserts an exemption, or renews only the reason of the one there is, as the specification function does; what that does to the list is `Coverage.ResolveEffect` |
| `CoverageReports.SumsAgree` | internal/httpserver/admin_compliance.go:246-271 | the teams' shortfalls sum to the teams' listed fixtures |
| `CoverageReports.ComplianceCounters` | internal/httpserver/admin_compliance.go:246-271 | the page's three counters add up, the cap never bites, and "missing" is that sum |
| `CoverageReports.ReportMatchesListing` | internal/httpserver/admin_missing_submissions_report.go:230-312 | the team and fixture pairs of the report's actionable rows of a week are exactly the listed pairs, each on one row; hence the counts are equal |
| `CoverageReports.ListedPair` | internal/httpserver/admin_compliance.go:613-653 | a pair is listed exactly when the team is active and the compliance page lists the fixture for it |
| `CoverageReports.Classify` | internal/httpserver/admin_missing_submissions_report.go:364-431 | one pass over the rows yields totals that add up, the unsubmitted rows in order and the specified summary of every team that has one |
| `CoverageReports.SummaryShowsNewest` | internal/httpserver/admin_missing_submissions_report.go:404-431 | whatever the order of the rows, a team's summary shows the date and the sanction state of its newest unsubmitted row |
| `CoverageReports.ActionableByWeek` | internal/httpserver/admin_missing_submissions_report.go:392-404 | the actionable total is the sum of the two weeks' actionable rows |
| `CardMeaning.DueExactly` | internal/httpserver/admin_card_report.go:447-452 | the card due is red exactly for every third offence among the team's live cards of other weeks, and takes one point more than there were reds |
| `CardMeaning.ThirdsAreRed` | internal/httpserver/admin_card_report.go:447-452 | red for the offences numbered 3, 6, 9 and so on, and for no others, whatever number is given |
| `CardMeaning.IssuedExactly` | internal/httpserver/admin_card_report.go:399-452 | a season's run adds the card due as the newest row, red exactly for every third offence, with one point more than there were reds |
| `CardMeaning.SuggestedExactly` | internal/httpserver/admin_compliance.go:208-258 | the compliance page's suggestion by the number of live cards of all weeks |
| `CardMeaning.CurrentExactly` | internal/httpserver/admin_card_report.go:350-398 | the card shown is the last one issued of the week's live cards |
| `CardMeaning.AdjustedExactly` | internal/httpserver/admin_card_report.go:399-434 | the colour and points shown for each reason, colour and points of an existing card |
| `CardMeaning.RowsExactly` | internal/httpserver/admin_card_report.go:279-437 | which teams have a row, in the teams' order |
| `Cards.SeasonAddsUp` | internal/httpserver/admin_card_report.go:447-452 | cards issued exactly as due over n weeks are n/3 red and the rest yellow, and the deductions sum to r(r+1)/2 |
| `Cards.WeekWithoutCard` | internal/httpserver/admin_card_report.go:350-361 | leaving out a week without a counted card leaves out nothing |
| `Cards.SuggestionMatchesDue` | internal/httpserver/admin_compliance.go:208-258 | the two pages name the same colour if and only if the counted cards of the week are a multiple of three, or neither the earlier offences nor all of them leave the remainder two |
| `Cards.SuggestionWithFewCards` | internal/httpserver/admin_compliance.go:208-258 | always without a counted card of the week, and with one exactly when the earlier offences fill whole threes |
| `Cards.FillRow` | internal/httpserver/admin_card_report.go:399-434 | a row's shortfall equals the number of its listed fixtures, and an existing card's colour and points take precedence where they should |
| `Cards.WeeklyReport` | internal/httpserver/admin_card_report.go:279-437 | one sound row for each active team that owes a report or has a card, for all team ids; the listing of a team's row is complete where its id is not empty |
| `Cards.CardReportCounts` | internal/httpserver/admin_card_report.go:454-466 | yellow and red rows add up to all rows |
| `EventStream.ReadSSE` | static/rules-assistant.js:97-119 | for every way of cutting, the reader dispatches exactly the completed blocks of the text received and keeps the unfinished rest |
| `StreamMeaning.LineExactly` | static/rules-assistant.js:113-116 | what an event line, a data line and any other line change |
| `StreamMeaning.BlockExactly` | static/rules-assistant.js:110-117 | a block starts from nothing and is dispatched exactly if it has data and a handler |
| `StreamMeaning.JsTrimExactly` | static/rules-assistant.js:114-115 | trimming takes blanks off both ends and nothing else |
| `EventStream.SplitsBack` | static/rules-assistant.js:106-109 | blocks, blank lines and tail put together are the text, and no block or tail hides a blank line |
| `EventStream.SplitIsUnique` | static/rules-assistant.js:106-109 | it is the only such way of writing the text |
| `EventStream.SplitAppend` | static/rules-assistant.js:104-109 | more text leaves the blocks found so far alone, also when a blank line is cut in two |
| `EventStream.ReceivedExactly` | static/rules-assistant.js:105 | the reader works on the normalised stream if and only if no cut falls inside a CRLF |
| `EventStream.CuttingDoesNotMatter` | static/rules-assistant.js:97-119 | two ways of cutting one stream, neither inside a CRLF, dispatch the same events |
| `EventStream.CutBlankLineIsLost` | static/rules-assistant.js:105 | a stream of one line and an empty line that ends where the latter's CRLF was cut dispatches nothing |
| `EventCuts.BlocksByLine` | static/rules-assistant.js:107-117 | looking for blank lines and splitting each block dispatches what reading the text line by line dispatches |
| `EventCuts.ReceivedLines` | static/rules-assistant.js:105 | the lines received are those of the stream, with a CR at the end of exactly those whose CRLF was cut |
| `EventCuts.ParseCR` | static/rules-assistant.js:113-116 | such a CR changes nothing that the parser takes from the line |
| `EventCuts.SameEventsExactly` | static/rules-assistant.js:97-119 | for every stream and every way of cutting it, all handlers see the events of the uncut stream if and only if of the blocks that run together at cuts at most one carries data, the event they name last is that block's, and none carries data where the stream ends |
| `EventCuts.DataStreamsExactly` | static/rules-assistant.js:97-119 | where every block carries data, they do if and only if every run of empty lines after a block keeps one that is not cut |
| `EventCuts.OnlyEmptyLinesMatter` | static/rules-assistant.js:97-119 | unless a cut separates a CRLF that directly follows another line ending, the events are those of the stream |
| `LineWriter.WrapAt` | internal/email/email.go:341-364 | every byte of the wrapped text: a CRLF after each 76 bytes and the input in order between |
| `LineWriter.LinesAreShort` | internal/email/email.go:341-364 | no line is longer than 76 bytes (section 6.8 of RFC 2045) |
| `LineWriter.EndsWithInput` | internal/email/email.go:341-364 | no line break stands at the end |
| `LineWriter.RecoversInput` | internal/email/email.go:341-364 | leaving the line breaks out gives back the encoder's bytes |
| `LineWriter.LineWriter.Write` | internal/email/email.go:341-364 | whatever the calls, the sink holds the wrapped input; a call reports how much of it was taken, and after a failed write the next call goes on correctly |
| `Linkify.Linkify` | internal/email/sanctions_brand.go:85-99 | the loop writes the specified markup of the matches that `LinkMeaning.MatchesExactly` describes |
| `LinkMeaning.MatchesExactly` | internal/email/sanctions_brand.go:10 | a match begins if and only if "http://" or "https://" stands there in front of a character that is none of the excluded ones, and goes on to the next excluded one |
| `LinkMeaning.FirstUrlExactly` | internal/email/sanctions_brand.go:80-83 | the first address is that of the first such place, without the punctuation of the cut set at its end, and there is none exactly if there is no such place |
| `LinkMeaning.BothSchemes` | internal/email/sanctions_brand.go:10 | either scheme in front of any character that can stand in an address gives an address |
| `LinkMeaning.OneLink` | internal/email/sanctions_brand.go:85-99 | the markup of a text with one address, written out; before and behind it the text is only escaped |
| `LinkMeaning.PlainStaysPlain` | internal/email/sanctions_brand.go:85-99 | a text without an address is only escaped |
| `LinkMeaning.AnchorWritten` | internal/email/sanctions_brand.go:93 | the anchor with its address and its style, written out |
| `LinkMeaning.EscapesEach` | internal/email/sanctions_brand.go:85-99 | the five entities, and that all else stands for itself |
| `Linkify.TextSurvives` | internal/email/sanctions_brand.go:85-99 | for every text and all ordered disjoint matches, removing the tags and unescaping gives back the text |
| `Linkify.FirstLink` | internal/email/sanctions_brand.go:80-99 | the first link of the markup leads to the first address, and there is a link exactly when there is an address |
| `Linkify.RenderedText` | internal/email/sanctions_brand.go:85-99 | the links of the markup are the trimmed addresses, in order |
| `Linkify.FindsAll` | internal/email/sanctions_brand.go:10 | every match of the pattern, as `LinkMeaning.MatchesExactly` says what it is, begins inside one found, and those found are matches |
| `Linkify.FirstUrlExists` | internal/email/sanctions_brand.go:80-83 | trimming punctuation never empties an address |
| `Linkify.UrlRunIsLongest` | internal/email/sanctions_brand.go:10 | an address goes on as far as the pattern allows |
| `Linkify.UnescapeEscape` | internal/email/sanctions_brand.go:85-99 | escaping is undone by unescaping |
| `EmailLists.RuleMatchesExactly` | internal/email/sanctions_brand.go:11 | the pattern for a rule number matches, in whatever way, exactly when no word character follows the first run of digits |
| `EmailMeaning.RuleExactly` | internal/email/sanctions_brand.go:11 | a line names a rule if and only if "rule" in any case, blanks, digits and then no word character stand at its front |
| `EmailMeaning.DashedExactly` | internal/email/sanctions_brand.go:25-36 | which lines become items, with which text |
| `EmailMeaning.AnswerExactly` | internal/email/sanctions_brand.go:40-45 | which lines become buttons or vanish |
| `EmailMeaning.BlockExactly` | internal/email/sanctions_brand.go:46-60 | the kind of every other line, by the words it begins or ends with |
| `EmailLists.LostLine` | internal/email/sanctions_brand.go:38-59 | which lines vanish: those that name the answer page, are no item and hold no address |
| `EmailLists.WriteEntry` | internal/email/sanctions_brand.go:23-60 | one turn of the loop writes the mark that is needed, then the piece |
| `EmailLists.WriteEntries` | internal/email/sanctions_brand.go:13-62 | the loop with its flag writes each longest run of items as one list |
| `EmailLists.DocumentIsWellFormed` | internal/email/sanctions_brand.go:13-62 | list marks balance, every item is inside one list and nothing else is, and no piece is lost, moved or repeated |
| `EmailMarkup.ListTagsBalance` | internal/email/sanctions_brand.go:13-62 | in the text written for any body the list tags balance and every item stands inside one list: no line can open or close one |
| `MarkupMeaning.NestedExactly` | internal/email/sanctions_brand.go:13-62 | what balancing means: list tags balance exactly when each may follow the one before it, the first may begin the text and the last may end it |
| `MarkupMeaning.ButtonText` | internal/email/sanctions_brand.go:43 | the button and its fallback line, written out |
| `MarkupMeaning.ItemWritten` | internal/email/sanctions_brand.go:30 | an item, written out |
| `MarkupMeaning.BlockWritten` | internal/email/sanctions_brand.go:46-60 | every other block, written out |
| `MarkupMeaning.PiecesInOrder` | internal/email/sanctions_brand.go:13-62 | the message is the texts of its pieces in order |
| `EmailMarkup.MarksOfParts` | internal/email/sanctions_brand.go:13-62 | reading the written text back finds the tags that were written and no others |
| `EmailMarkup.PieceParts` | internal/email/sanctions_brand.go:32-57 | each piece's markup has the list marks of the piece, whatever its text |
| `Tracker.AcceptedMatchesAreInjective` | internal/httpserver/admin_ineligible_backfill.go:594-667 | after any run no intake is the accepted match of two rows of one upload |
| `Tracker.ReviewKeeps` | internal/httpserver/admin_ineligible_backfill.go:594-667 | every recorded review keeps that and supersedes the newest review of its row |
| `Tracker.ReviewsFormALine` | internal/httpserver/admin_ineligible_backfill.go:641-660 | every review but the newest of its row is superseded exactly once, by a later review of the row |
| `TrackerMeaning.FirstComplaint` | internal/httpserver/admin_ineligible_backfill.go:595-640 | the problem reported is the first of fourteen written-out complaints that is justified |
| `TrackerMeaning.NoComplaint` | internal/ineligible/backfill_review.go:21-82 | and there is none exactly if none is |
| `TrackerMeaning.ReviewStores` | internal/httpserver/admin_ineligible_backfill.go:641-657 | a review without a justified complaint adds one row with the submitted disposition, state, effects and intake that supersedes the newest; any other changes nothing |
| `TrackerMeaning.ClearedByReview` | internal/ineligible/backfill_review.go:84-106 | after it the row is settled exactly if what was submitted leaves nothing open |
| `TrackerMeaning.ReadinessColumns` | internal/httpserver/admin_ineligible_backfill.go:678-705 | each of the five columns as a number of rows |
| `TrackerMeaning.SignoffStores` | internal/httpserver/admin_ineligible_backfill.go:706-789 | when a sign-off is given, and that it names the newest review of each row of the upload and of no other |
| `TrackerMeaning.OfferedExactly` | internal/httpserver/admin_ineligible_backfill.go:338-421 | which rows are offered for quick confirmation, with which state |
| `Tracker.ReadyExactly` | internal/ineligible/backfill_review.go:84-106 | the sign-off gate opens exactly when the upload has rows and all of them are settled |
| `Tracker.SnapshotIsComplete` | internal/httpserver/admin_ineligible_backfill.go:748-763 | a sign-off that passed names the newest review of every row, one each |
| `Tracker.SnapshotStaysCurrent` | internal/ineligible/backfill_apply.go:224-228 | it still does later if and only if no row of the upload has been reviewed since |
| `Tracker.QuickReviewsSuffice` | internal/httpserver/admin_ineligible_backfill.go:355-421 | if all rows qualify with different matched intakes, confirming them in any order succeeds and zeroes every shortfall |
| `Tracker.QuickInputIsValid` | internal/httpserver/admin_ineligible_backfill.go:421 | the hidden fields of the quick form pass validation |
| `Tracker.RowCounts` | internal/httpserver/admin_ineligible_backfill.go:338-353 | the four counters partition the rows |
| `Tracker.TrackerTables.RecordReview` | internal/httpserver/admin_ineligible_backfill.go:565-671 | the handler equals the review step; what it stores is `TrackerMeaning.ReviewStores`, and its promises are `Tracker.ReviewKeeps` and `Tracker.ReviewsFormALine` |
| `Tracker.TrackerTables.RecordSignoff` | internal/httpserver/admin_ineligible_backfill.go:706-789 | the handler equals the sign-off step; that the gate and the snapshot are right is `Tracker.ReadyExactly` and `Tracker.SnapshotIsComplete` |
| `Lockout.PolicyOf` | internal/auth/admin.go:20-34 | the limit and the duration are above zero whatever is configured |
| `LockoutMeaning.PolicyExactly` | internal/auth/admin.go:20-34 | the limit and the duration for every setting, with their fallbacks |
| `LockoutMeaning.OutcomeExactly` | internal/auth/admin.go:61-88 | when an attempt is refused as disabled or locked, when it fails and when it succeeds |
| `LockoutMeaning.AttemptStores` | internal/auth/admin.go:36-93 | the counter and the lock after every attempt, and that nothing else changes |
| `LockoutMeaning.CodeExactly` | internal/auth/admin.go:156-190 | when a code is accepted, used, expired or wrong |
| `LockoutMeaning.LogInStores` | internal/auth/admin.go:96-203 | the codes after every step |
| `ParallelMeaning.CheckExactly` | internal/auth/admin.go:67-88 | what a request reads, and that reading changes nothing stored |
| `ParallelMeaning.WritesExactly` | internal/auth/admin.go:36-47 | what it writes, on the row as it is then |
| `ParallelMeaning.ReadsExactly` | internal/auth/admin.go:163-190 | when a code is accepted on what is read |
| `Lockout.FailuresAreSpaced` | internal/auth/admin.go:36-47 | failures are counted exactly, and past the limit each lies a whole lock after the one before |
| `Lockout.ChecksAreBounded` | internal/auth/admin.go:61-133 | without a success, a run of attempts one after another from a reset account compares at most limit + floor((last - first) / lock) passwords |
| `Lockout.PatientGuesses` | internal/auth/admin.go:36-92 | the run that waits out every lock has all its passwords compared |
| `Lockout.BoundIsReached` | internal/auth/admin.go:36-92 | the bound is reached for every limit, lock and number of locks |
| `LockoutParallel.AloneIsSequential` | internal/auth/admin.go:61-93 | requests that do not overlap do what the attempts of `Lockout` do |
| `LockoutParallel.ParallelChecksAreBounded` | internal/auth/admin.go:36-93 | without a success, with at most k requests between reading and writing, a run from a reset account compares at most limit + k - 1 + k * floor((last - first) / lock) passwords |
| `LockoutSwarm.ParallelBoundIsReached` | internal/auth/admin.go:36-93 | that bound is reached for every limit, lock, k and number of locks |
| `SecondCodes.ParallelCodesAreBounded` | internal/auth/admin.go:156-203 | with at most k requests in flight, acceptances are at most k times the codes sent, in every interleaving |
| `SecondCodes.CodeAcceptedByAll` | internal/auth/admin.go:156-203 | k requests that all read a code before one of them marks it all accept it |
| `Lockout.SuccessResets` | internal/auth/admin.go:89-133 | a success clears failures and lock; a refused attempt changes nothing |
| `Lockout.AcceptedOnce` | internal/auth/admin.go:156-203 | over any run of requests one after another, accepted codes never outnumber the codes sent |
| `Lockout.NewestCodeOnly` | internal/auth/admin.go:156-203 | after a password sign-in its own code is accepted for ten minutes and no other is |
| `Lockout.Admin.VerifyPasswordOnly` | internal/auth/admin.go:61-93 | the outcome and the stored columns after an attempt are those of the attempt step, to which `Lockout.ChecksAreBounded` and `Lockout.SuccessResets` apply |
| `Lockout.Admin.StartLogin` | internal/auth/admin.go:96-153 | the same, with a code stored on success |
| `Lockout.Admin.VerifyCode` | internal/auth/admin.go:156-203 | the newest code decides, and acceptance uses up every code, as the step does to which `Lockout.AcceptedOnce` and `Lockout.NewestCodeOnly` apply |
| `MagicTokens.NewestWins` | internal/auth/magic.go:69-143 | at every instant after it was issued a link is the only usable one of its scope, until one is added to that scope |
| `TokenMeaning.IssueStores` | internal/auth/magic.go:69-143 | the row added, and which rows are revoked, by captain, season, week, date and address |
| `TokenMeaning.RemindStores` | internal/auth/magic.go:48-65 | the row added, and that all others stay |
| `TokenMeaning.AnswersExactly` | internal/auth/magic.go:148-176 | what is answered for the row of a hash |
| `TokenMeaning.ConsumeStores` | internal/auth/magic.go:180-227 | which row is marked as used |
| `TokenMeaning.ReplaceStores` | internal/httpserver/captain_change_requests.go:471-484 | which rows a change of captain revokes |
| `MagicTokens.IssueEffect` | internal/auth/magic.go:79-137 | the row added, all other scopes untouched, and the links of the scope usable at that same instant |
| `MagicTokens.LinkLasts` | internal/auth/magic.go:48-65 | of the steps modelled, only its own scope, its own use and its captain's replacement end a link; reminders revoke nothing |
| `MagicTokens.RunSucceeds` | internal/auth/magic.go:48-227 | over any run unusable links never become usable, hashes stay unique and rows keep what they stand for |
| `MagicTokens.CheckExactly` | internal/auth/magic.go:148-176 | a link validates exactly when its row is usable |
| `MagicTokens.ConsumedOnce` | internal/auth/magic.go:180-227 | a consumed link is refused ever after |
| `MagicTokens.TokenTable.RevokeScope` | internal/auth/magic.go:82-124 | the four updates each revoke exactly the scope asked for |
| `MagicTokens.TokenTable.GenerateWithDelegate` | internal/auth/magic.go:69-143 | the transaction equals the issue step, or changes nothing when the hash is taken; the promises are `MagicTokens.NewestWins` and `MagicTokens.IssueEffect` |
| `MagicTokens.TokenTable.GenerateForDate` | internal/auth/magic.go:48-65 | a reminder's link is added and nothing else changes; that it lasts is `MagicTokens.LinkLasts` |
| `MagicTokens.TokenTable.Validate` | internal/auth/magic.go:148-176 | the handler equals the check function, which `MagicTokens.CheckExactly` ties to usable rows |
| `MagicTokens.TokenTable.ConsumeToken` | internal/auth/magic.go:180-227 | the handler equals the consume step; that the link is refused ever after is `MagicTokens.ConsumedOnce` |
| `MagicTokens.TokenTable.ReplaceCaptain` | internal/httpserver/captain_change_requests.go:471-484 | the update equals the replacement step: it revokes the old captain's open links and no others; `MagicTokens.LinkLasts` covers it |
| `Sql.ScalarIsLateral` | internal/httpserver/admin_ineligible.go:765-811 | EXISTS over the row that a scalar subquery selects says the same as a lateral join, also for no row |
| `SqlMeaning.Tables` | internal/httpserver/admin_ineligible.go:765-811 | the truth tables of the connectives |
| `CaseMeaning.RowShows` | internal/httpserver/admin_ineligible_case_data.go:106-160 | what each column of a row says of the stored tables and of the viewer |
| `CaseMeaning.ListedExactly` | internal/httpserver/admin_ineligible_case_data.go:182-233 | a case is listed if and only if it is of this kind and meets every part of the filter, each in terms of the stored tables |
| `CaseMeaning.MineIsAssigned` | internal/httpserver/admin_ineligible_case_data.go:200-201 | scope "mine" shows of the whole list exactly what is assigned to the viewer |
| `CaseMeaning.ActionIsOpen` | internal/httpserver/admin_ineligible_case_data.go:162-180 | scope "action" exactly what the viewer could act on, stage by stage |
| `CaseMeaning.CountedExactly` | internal/httpserver/admin_ineligible.go:765-798 | what the dashboard counts in each group |
| `CaseMeaning.LikeAny` | internal/httpserver/admin_ineligible_case_data.go:223-226 | a percent sign in a search stands for any text |
| `CaseMeaning.LikeOne` | internal/httpserver/admin_ineligible_case_data.go:223-226 | what an underscore, a backslash and any other character stand for |
| `CaseGroups.CountMatchesList` | internal/httpserver/admin_ineligible_case_data.go:106-223 | for every history the count's condition and the list's conditions select the same cases of every group; of the closed group the list adds exactly the rejected and withdrawn |
| `CaseGroups.NumberMatchesList` | internal/httpserver/admin_ineligible.go:717-763 | the dashboard's number is the size of the list |
| `CaseGroups.BuildCaseQuery` | internal/httpserver/admin_ineligible_case_data.go:182-233 | the conditions appended one by one select what the filter asks for, which `CaseMeaning.ListedExactly` says in terms of the stored tables |
| `CaseGroups.FiltersNarrow` | internal/httpserver/admin_ineligible_case_data.go:196-232 | scope, search and dates only narrow the list of a group |
| `CaseGroups.SearchFindsSubstrings` | internal/httpserver/admin_ineligible_case_data.go:223-226 | a query without wildcards finds exactly the cases one of whose texts contains it, whatever the letters' case |
| `CaseGroups.HistoryHidesGroups` | internal/httpserver/admin_ineligible_case_data.go:188-197 | the history view shows none of the groups of open cases |
| `CaseGroups.OwnerReviewSame` | internal/httpserver/admin_ineligible.go:800-811 | the pending owner review of the counts is "required and not sent" of the list, also without a proposal |
| `CaseGroups.ReplySame` | internal/httpserver/admin_ineligible.go:782-783 | the unreviewed reply is the same on both sides |
| `CaseGroups.MessagesSame` | internal/httpserver/admin_ineligible.go:784-785 | so is the undelivered message |
| `Filters.ParseDate` | internal/httpserver/admin_ineligible.go:213-219 | a date is kept as it was written and anything else becomes no date |
| `FilterMeaning.QueueLink` | internal/httpserver/admin_ineligible.go:221-239 | a tab's link carries what the tab sets and the filter's switches, and no page and no group |
| `FilterMeaning.DateExactly` | internal/httpserver/admin_ineligible.go:213-219 | a date is a day of the calendar written with four, two and two digits |
| `FilterMeaning.BeforeExactly` | internal/httpserver/admin_ineligible_case_data.go:80-82 | the order by which two dates are exchanged |
| `FilterMeaning.PageExactly` | internal/httpserver/admin_ineligible_case_data.go:75-79 | which texts are page numbers |
| `FilterMeaning.CaseFields` | internal/httpserver/admin_ineligible_case_data.go:49-83 | where each field of the case filter comes from and what it may hold |
| `FilterMeaning.QueueFields` | internal/httpserver/admin_ineligible.go:144-211 | the texts, dates and switches of the queue filter |
| `FilterMeaning.QueueChoices` | internal/httpserver/admin_ineligible.go:144-211 | its choices, with what stands in for anything else |
| `Filters.PageRoundTrip` | internal/httpserver/admin_ineligible_case_data.go:75-100 | a page number survives exactly when it lies in 1..1000000 |
| `Filters.CaseParsesNormal` | internal/httpserver/admin_ineligible_case_data.go:49-83 | parsing the case filter yields a normal form |
| `Filters.CaseRoundTrip` | internal/httpserver/admin_ineligible_case_data.go:85-102 | parsing a printed case filter returns it with the page, exactly for pages in 1..1000000 |
| `Filters.PrintCase` | internal/httpserver/admin_ineligible_case_data.go:85-102 | the link carries each text under its key |
| `Filters.ParseQueueFilters` | internal/httpserver/admin_ineligible.go:144-211 | the field-by-field corrections compute the tidied filter |
| `Filters.QueueParsesNormal` | internal/httpserver/admin_ineligible.go:144-211 | parsing the queue filter yields a normal form |
| `Filters.QueueRoundTrip` | internal/httpserver/admin_ineligible.go:221-255 | parsing a tab's link returns the filter with the tab's scope, state and worklist put right, with the rule for "mine" and "deferred" |
| `Filters.PrintTab` | internal/httpserver/admin_ineligible.go:221-255 | the link carries each text under its key |
| `Delivery.StatusFor` | internal/httpserver/admin_email_health.go:512-523 | which kind of event gives which status, and that only problems are recorded |
| `Delivery.RunKeeps` | internal/httpserver/admin_email_health.go:525-572 | however many notifications and senders are interleaved, repeated and broken off: numbers 1, 2, 3, ... per message, each event text recorded at most once, one case event per recorded attempt |
| `Delivery.NextKeeps` | internal/httpserver/admin_email_health.go:546-571 | every single step keeps it |
| `DeliveryMeaning.LockExactly` | internal/httpserver/admin_email_health.go:546-549 | a notification takes its message's lock exactly if no other holds it |
| `DeliveryMeaning.InsertExactly` | internal/httpserver/admin_email_health.go:553-561 | a known text is skipped and any other takes the next number |
| `DeliveryMeaning.CommitExactly` | internal/httpserver/admin_email_health.go:558-571 | what a commit adds, field by field |
| `DeliveryMeaning.SenderExactly` | internal/httpserver/admin_email_health.go:554-558 | what the sender reads and writes, and when its attempt is dropped |
| `Delivery.NumbersIncrease` | internal/httpserver/admin_email_health.go:554-558 | attempts of one message have different, increasing numbers |
| `Delivery.CommittedIsRecorded` | internal/httpserver/admin_email_health.go:558-571 | a committed notification is recorded, by itself or by an earlier delivery of it |
| `Delivery.RecordedIsLast` | internal/httpserver/admin_email_health.go:553-571 | when it commits, a recorded problem is the message's last attempt and has its case event |
| `Delivery.HolderCanMove` | internal/httpserver/admin_email_health.go:546-571 | the process that holds a message can always go on |

## Left out

Rows and columns

- Serial ids are positions in their tables, and a revision's id is its number within its report.
- Audit events, exception messages, names, timestamps of rows and administrators' ids are not modelled.
- Order of rows in query results is modelled only where a LIMIT or a number depends on it.
- Times of the database and of the application are one clock.

Report triage

- The importer is a step for a first observation and a step for a new revision; its validation and its path for a
  changed attachment without a changed row are not modelled.
- Bytes of retained evidence files and their copy on disk are a Boolean for each file.
- Opening a case from a starred-player finding (internal/httpserver/admin_starred_cases.go:560-617), which inserts its
  link and its resolution itself, is not a step.
- Identity conflicts in the player upsert are not modelled: a player id and a name are different identities.
- Casework after triage is a step that may set any status of a case that was not withdrawn.

Coverage and cards

- Coverage.CountsMatchListing: the equality needs submissions and exemptions that carry the week of their match;
  without it only the inequality holds, because the listing ignores the week.
- CoverageReports.ReportMatchesListing: weeks are taken to have different ids, and team ids to be different. Active teams
  with an empty Play-Cricket id are the case of `Coverage.QueriesAgreeExactly`.
- Weeks do not overlap where the report numbers a day's fixtures over two selected weeks.
- Draft reports, cards' email states and the order of the rows are not modelled.

Streaming text

- EventStream.ReadSSE: a failure of JSON.parse or of a handler, which ends the loop, is not modelled; decoding bytes to
  text is the browser's.
- LineWriter.LineWriter.Write: a write to the sink succeeds or fails as a whole; a partial write is not modelled.
- Linkify.TextSurvives: unescaping knows the five entities that escaping produces.
- EmailMarkup.ListTagsBalance: the tags' style attributes are given, without angle brackets; the frame of the message, the
  test banner and the subject are not modelled.
- Case folding covers ASCII letters only.

Tracker, access, lists, delivery

- Tracker rows are staged before the first step; uploading and applying a tracker are not modelled. The texts of a
  review are validated and not kept.
- Lockout: hashing is a Boolean for each attempt, and an unknown user name, which has no row, is not modelled. Codes are
  ordered by their insertion.
- MagicTokens: random tokens and their hashes are texts; overlapping requests, two issues for one scope or two
  consumptions of one link, are not modelled. Nor is deleting rows: the retention job deletes only unusable links, but
  anonymising a captain deletes all of the captain's links, usable ones included (internal/httpserver/gdpr.go:376).
- CaseGroups.BuildCaseQuery: the order of the list and its pages are not modelled. The stale-report part of the source
  review is a Boolean of the case, and what a viewer may do is given with the viewer.
- Filters: the percent-encoding of query strings is a map from keys to texts.
- Delivery: finding the message that a notification belongs to is not modelled, and the sender is reduced to reading and
  using a number.

Not modelled at all: page rendering, sending and fetching over the network, sessions and routing, exports, rankings,
training forms and retention.
