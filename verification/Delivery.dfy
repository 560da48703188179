/**
 * Delivery problems reported by the mail service: notifications arrive late, repeatedly and at the same
 * time, while the sender numbers its own attempts. Each notification is a transaction that locks the
 * message, inserts an attempt unless its text is already there, notes it on the case and commits.
 */
module Delivery {
  import opened Common

  datatype Status = Sending | Sent | Failed | Bounced | Complained

  predicate IsProblem(s: Status) {
    s.Bounced? || s.Complained? || s.Failed?
  }

  /** The attempt status for a kind of event: only problems are recorded. */
  function StatusFor(kind: string): (s: Option<Status>)
    ensures s.Some? ==> IsProblem(s.value)
    ensures s == Some(Bounced) <==> kind == "bounce"
    ensures s == Some(Complained) <==> kind == "complaint"
    ensures s == Some(Failed) <==> kind == "reject" || kind == "rendering_failure"
  {
    if kind == "bounce" then Some(Bounced)
    else if kind == "complaint" then Some(Complained)
    else if kind == "reject" || kind == "rendering_failure" then Some(Failed)
    else None
  }

  /** A committed attempt. Attempts stand in the order of their commits. */
  datatype Attempt = Attempt(outbox: nat, number: nat, status: Status, text: Option<string>, byEvent: bool)

  /** A committed case event about an attempt. */
  datatype Note = Note(outbox: nat, number: nat, text: string)

  /** A notification to record: the message it belongs to, the status and the text of the event. */
  datatype Delivery = Delivery(outbox: nat, status: Status, text: string)

  /** How far a transaction has come. What it has inserted is its own until it commits. */
  datatype Process =
    | Arrived(d: Delivery)
    | Locked(d: Delivery)
    | Inserted(d: Delivery, number: nat)
    | Noted(d: Delivery, number: nat)
    | Skipping(d: Delivery)
    | Committed(d: Delivery)
    | RolledBack
    | Sender(outbox: nat)
    | Numbered(outbox: nat, number: nat)

  datatype State = State(attempts: seq<Attempt>, notes: seq<Note>, processes: seq<Process>)

  predicate Holds(p: Process, outbox: nat) {
    (p.Locked? || p.Inserted? || p.Noted? || p.Skipping?) && p.d.outbox == outbox
  }

  /** The number of an attempt that is inserted and not committed. */
  predicate Pends(p: Process, outbox: nat, number: nat) {
    (p.Inserted? || p.Noted?) && p.d.outbox == outbox && p.number == number
  }

  /** COALESCE(MAX(attempt_number),0) over the committed attempts of a message. */
  function MaxNumber(attempts: seq<Attempt>, outbox: nat): (n: nat)
    ensures forall a | a in attempts && a.outbox == outbox :: a.number <= n
    ensures n == 0 || exists a :: a in attempts && a.outbox == outbox && a.number == n
  {
    if attempts == [] then 0
    else
      var last := attempts[|attempts| - 1];
      var earlier := MaxNumber(attempts[..|attempts| - 1], outbox);
      if last.outbox == outbox && last.number > earlier then last.number else earlier
  }

  predicate HasText(attempts: seq<Attempt>, outbox: nat, text: string) {
    exists a :: a in attempts && a.outbox == outbox && a.text == Some(text)
  }

  datatype Step =
    | Lock(p: nat) | Insert(p: nat) | NoteCase(p: nat) | Commit(p: nat) | Abort(p: nat)
    | ReadNumber(p: nat) | WriteAttempt(p: nat, status: Status, text: Option<string>)

  function Advance(s: State, p: nat, to: Process): State
    requires p < |s.processes|
  {
    s.(processes := s.processes[p := to])
  }

  predicate LockedByOther(s: State, p: nat, outbox: nat) {
    exists q :: 0 <= q < |s.processes| && q != p && Holds(s.processes[q], outbox)
  }

  predicate PendsElsewhere(s: State, outbox: nat, number: nat) {
    exists q :: 0 <= q < |s.processes| && Pends(s.processes[q], outbox, number)
  }

  /** Where a step takes its process, or None where it has to wait or has nothing of the kind to do. */
  function Target(s: State, step: Step): Option<Process>
    requires step.p < |s.processes|
  {
    var process := s.processes[step.p];
    match step
    case Lock(p) =>
      if process.Arrived? && !LockedByOther(s, p, process.d.outbox) then Some(Locked(process.d)) else None
    case Insert(_) =>
      if !process.Locked? then None
      else if HasText(s.attempts, process.d.outbox, process.d.text) then Some(Skipping(process.d))
      else Some(Inserted(process.d, MaxNumber(s.attempts, process.d.outbox) + 1))
    case NoteCase(_) => if process.Inserted? then Some(Noted(process.d, process.number)) else None
    case Commit(_) => if process.Noted? || process.Skipping? then Some(Committed(process.d)) else None
    case Abort(_) => if process.Committed? || process.RolledBack? then None else Some(RolledBack)
    case ReadNumber(_) =>
      if process.Sender? then Some(Numbered(process.outbox, MaxNumber(s.attempts, process.outbox) + 1)) else None
    case WriteAttempt(_, _, _) =>
      if process.Numbered? && !PendsElsewhere(s, process.outbox, process.number) then Some(RolledBack) else None
  }

  /** One step of one process: what it had inserted shows when it commits. */
  function Next(s: State, step: Step): Option<State> {
    if step.p >= |s.processes| || Target(s, step).None? then None
    else
      var process := s.processes[step.p];
      var moved := Advance(s, step.p, Target(s, step).value);
      if step.Commit? && process.Noted? then Some(Recorded(moved, process.d, process.number))
      else if step.WriteAttempt? then
        Some(Written(moved, Attempt(process.outbox, process.number, step.status, step.text, false)))
      else Some(moved)
  }

  function Recorded(s: State, d: Delivery, number: nat): State {
    s.(
      attempts := s.attempts + [Attempt(d.outbox, number, d.status, Some(d.text), true)],
      notes := s.notes + [Note(d.outbox, number, d.text)])
  }

  /** The sender's attempt is dropped when its number has been taken meanwhile. */
  function Written(s: State, a: Attempt): State {
    if exists b :: b in s.attempts && b.outbox == a.outbox && b.number == a.number then s
    else s.(attempts := s.attempts + [a])
  }

  function Run(s: State, steps: seq<Step>): State
    decreases |steps|
  {
    if steps == [] then s
    else
      var mid := Run(s, steps[..|steps| - 1]);
      var next := Next(mid, steps[|steps| - 1]);
      if next.Some? then next.value else mid
  }

  /** Nothing recorded, and every process about to start. */
  predicate Initial(s: State) {
    s.attempts == [] && s.notes == [] && forall p | p in s.processes :: p.Arrived? || p.Sender?
  }

  // -------- what holds throughout --------

  /** The attempts of a message are numbered 1, 2, 3, ... in the order of their commits. */
  ghost predicate Dense(attempts: seq<Attempt>) {
    forall k | 0 <= k < |attempts| :: IsNext(attempts, k)
  }

  ghost predicate IsNext(attempts: seq<Attempt>, k: nat)
    requires k < |attempts|
  {
    attempts[k].number == MaxNumber(attempts[..k], attempts[k].outbox) + 1
  }

  ghost predicate OneHolder(s: State) {
    forall p, q, outbox | 0 <= p < |s.processes| && 0 <= q < |s.processes|
      && Holds(s.processes[p], outbox) && Holds(s.processes[q], outbox) :: p == q
  }

  /** An inserted attempt carries the next number and a text that is new; a sender's number is not beyond the next. */
  ghost predicate Current(s: State, p: Process) {
    match p
    case Inserted(d, n) => n == MaxNumber(s.attempts, d.outbox) + 1 && !HasText(s.attempts, d.outbox, d.text)
    case Noted(d, n) => n == MaxNumber(s.attempts, d.outbox) + 1 && !HasText(s.attempts, d.outbox, d.text)
    case Skipping(d) => HasText(s.attempts, d.outbox, d.text)
    case Committed(d) => HasText(s.attempts, d.outbox, d.text)
    case Numbered(outbox, n) => 0 < n <= MaxNumber(s.attempts, outbox) + 1
    case _ => true
  }

  ghost predicate AllCurrent(s: State) {
    forall p | 0 <= p < |s.processes| :: Current(s, s.processes[p])
  }

  /** At most one attempt of a message is recorded for one event text. */
  ghost predicate OncePerText(attempts: seq<Attempt>) {
    forall i, j | 0 <= i < j < |attempts| && attempts[i].byEvent && attempts[j].byEvent
      && attempts[i].outbox == attempts[j].outbox :: attempts[i].text != attempts[j].text
  }

  function NoteOf(a: Attempt): Note {
    Note(a.outbox, a.number, if a.text.Some? then a.text.value else "")
  }

  /** The case events are those of the attempts recorded for events, one for each and in their order. */
  function NotesOf(attempts: seq<Attempt>): seq<Note> {
    if attempts == [] then []
    else
      var last := attempts[|attempts| - 1];
      NotesOf(attempts[..|attempts| - 1]) + if last.byEvent then [NoteOf(last)] else []
  }

  ghost predicate Inv(s: State) {
    Dense(s.attempts) && OneHolder(s) && AllCurrent(s) && OncePerText(s.attempts) && s.notes == NotesOf(s.attempts)
  }

  lemma MaxMore(attempts: seq<Attempt>, a: Attempt, outbox: nat)
    ensures MaxNumber(attempts + [a], outbox)
      == if a.outbox == outbox && a.number > MaxNumber(attempts, outbox) then a.number else MaxNumber(attempts, outbox)
  {
    assert (attempts + [a])[..|attempts|] == attempts;
  }

  lemma TextMore(attempts: seq<Attempt>, a: Attempt, outbox: nat, text: string)
    ensures HasText(attempts + [a], outbox, text)
      <==> HasText(attempts, outbox, text) || (a.outbox == outbox && a.text == Some(text))
  {
    var more := attempts + [a];
    assert a in more && forall b | b in attempts :: b in more;
  }

  lemma DensePrefix(attempts: seq<Attempt>, n: nat)
    requires Dense(attempts) && n <= |attempts|
    ensures Dense(attempts[..n])
  {
    forall k | 0 <= k < n ensures IsNext(attempts[..n], k) {
      assert IsNext(attempts, k) && attempts[..n][..k] == attempts[..k];
    }
  }

  /** No number up to the largest is free. */
  lemma {:induction false} NumberTaken(attempts: seq<Attempt>, outbox: nat, n: nat)
    requires Dense(attempts) && 0 < n <= MaxNumber(attempts, outbox)
    ensures exists b :: b in attempts && b.outbox == outbox && b.number == n
    decreases |attempts|
  {
    var earlier, last := attempts[..|attempts| - 1], attempts[|attempts| - 1];
    assert last in attempts;
    if last.outbox != outbox || last.number != n {
      DensePrefix(attempts, |attempts| - 1);
      assert IsNext(attempts, |attempts| - 1);
      NumberTaken(earlier, outbox, n);
      var b :| b in earlier && b.outbox == outbox && b.number == n;
      assert b in attempts;
    }
  }

  lemma DenseMore(attempts: seq<Attempt>, a: Attempt)
    requires Dense(attempts) && a.number == MaxNumber(attempts, a.outbox) + 1
    ensures Dense(attempts + [a])
  {
    var more := attempts + [a];
    assert more[..|attempts|] == attempts;
    forall k | 0 <= k < |attempts| ensures IsNext(more, k) {
      assert IsNext(attempts, k) && more[..k] == attempts[..k];
    }
  }

  lemma OnceMore(attempts: seq<Attempt>, a: Attempt)
    requires OncePerText(attempts)
    requires a.byEvent ==> a.text.Some? && !HasText(attempts, a.outbox, a.text.value)
    ensures OncePerText(attempts + [a])
  {
    forall i | 0 <= i < |attempts| && a.byEvent && attempts[i].outbox == a.outbox ensures attempts[i].text != a.text {
      assert attempts[i] in attempts;
    }
  }

  /** An attempt that is committed with the next number, its text being new if an event recorded it. */
  lemma AttemptAdded(attempts: seq<Attempt>, a: Attempt)
    requires Dense(attempts) && OncePerText(attempts)
    requires a.number == MaxNumber(attempts, a.outbox) + 1
    requires a.byEvent ==> a.text.Some? && !HasText(attempts, a.outbox, a.text.value)
    ensures Dense(attempts + [a]) && OncePerText(attempts + [a])
    ensures NotesOf(attempts + [a]) == NotesOf(attempts) + if a.byEvent then [NoteOf(a)] else []
  {
    DenseMore(attempts, a);
    OnceMore(attempts, a);
    assert (attempts + [a])[..|attempts|] == attempts;
  }

  lemma StillCurrent(s: State, next: State, p: nat, a: Attempt)
    requires Inv(s) && p < |s.processes| && next.attempts == s.attempts + [a] && |next.processes| == |s.processes|
    requires a.number == MaxNumber(s.attempts, a.outbox) + 1
    requires forall q | 0 <= q < |s.processes| && q != p ::
      next.processes[q] == s.processes[q] && !Pends(s.processes[q], a.outbox, a.number)
    requires Current(next, next.processes[p])
    ensures AllCurrent(next)
  {
    forall q | 0 <= q < |next.processes| && q != p ensures Current(next, next.processes[q]) {
      assert Current(s, s.processes[q]);
      CurrentMore(s, next, a, s.processes[q]);
    }
  }

  lemma CurrentMore(s: State, next: State, a: Attempt, process: Process)
    requires Current(s, process) && next.attempts == s.attempts + [a] && a.number == MaxNumber(s.attempts, a.outbox) + 1
    requires !Pends(process, a.outbox, a.number)
    ensures Current(next, process)
  {
    if process.Inserted? || process.Noted? || process.Skipping? || process.Committed? {
      MaxMore(s.attempts, a, process.d.outbox);
      TextMore(s.attempts, a, process.d.outbox, process.d.text);
    } else if process.Numbered? {
      MaxMore(s.attempts, a, process.outbox);
    }
  }

  /** A process may move where the invariant lets it be and where it takes no lock from another. */
  lemma Moved(s: State, p: nat, to: Process)
    requires Inv(s) && p < |s.processes| && Current(s, to)
    requires forall outbox | Holds(to, outbox) :: Holds(s.processes[p], outbox) || !LockedByOther(s, p, outbox)
    ensures Inv(Advance(s, p, to))
  {
    var next := Advance(s, p, to);
    assert AllCurrent(next) by {
      forall q | 0 <= q < |next.processes| ensures Current(next, next.processes[q]) {
        assert Current(s, s.processes[q]);
      }
    }
    forall q, r, outbox | 0 <= q < |next.processes| && 0 <= r < |next.processes|
      && Holds(next.processes[q], outbox) && Holds(next.processes[r], outbox) ensures q == r
    {
      assert q != p ==> Holds(s.processes[q], outbox);
      assert r != p ==> Holds(s.processes[r], outbox);
    }
  }

  /** An attempt may be added with the next number where no other process is about to take that number. */
  lemma Added(s: State, p: nat, to: Process, a: Attempt, next: State)
    requires Inv(s) && p < |s.processes| && a.number == MaxNumber(s.attempts, a.outbox) + 1
    requires next.processes == s.processes[p := to] && next.attempts == s.attempts + [a]
    requires next.notes == s.notes + if a.byEvent then [NoteOf(a)] else []
    requires a.byEvent ==> a.text.Some? && !HasText(s.attempts, a.outbox, a.text.value)
    requires forall q | 0 <= q < |s.processes| && q != p :: !Pends(s.processes[q], a.outbox, a.number)
    requires Current(next, to) && (forall outbox :: !Holds(to, outbox))
    ensures Inv(next)
  {
    AttemptAdded(s.attempts, a);
    StillCurrent(s, next, p, a);
    forall q, r, outbox | 0 <= q < |next.processes| && 0 <= r < |next.processes|
      && Holds(next.processes[q], outbox) && Holds(next.processes[r], outbox) ensures q == r
    {
      assert Holds(s.processes[q], outbox) && Holds(s.processes[r], outbox);
    }
  }

  lemma CommitKeeps(s: State, p: nat)
    requires Inv(s) && p < |s.processes| && s.processes[p].Noted?
    ensures Inv(Next(s, Commit(p)).value)
  {
    var d, n := s.processes[p].d, s.processes[p].number;
    var a := Attempt(d.outbox, n, d.status, Some(d.text), true);
    assert Current(s, s.processes[p]);
    forall q | 0 <= q < |s.processes| && q != p ensures !Pends(s.processes[q], d.outbox, n) {
      assert Holds(s.processes[p], d.outbox);
      assert Pends(s.processes[q], d.outbox, n) ==> Holds(s.processes[q], d.outbox);
    }
    TextMore(s.attempts, a, d.outbox, d.text);
    Added(s, p, Committed(d), a, Next(s, Commit(p)).value);
  }

  lemma WriteKeeps(s: State, p: nat, status: Status, text: Option<string>)
    requires Inv(s) && Next(s, WriteAttempt(p, status, text)).Some?
    ensures Inv(Next(s, WriteAttempt(p, status, text)).value)
  {
    var outbox, n := s.processes[p].outbox, s.processes[p].number;
    var a := Attempt(outbox, n, status, text, false);
    assert Current(s, s.processes[p]);
    if n <= MaxNumber(s.attempts, outbox) {
      NumberTaken(s.attempts, outbox, n);
      Moved(s, p, RolledBack);
    } else {
      Added(s, p, RolledBack, a, Next(s, WriteAttempt(p, status, text)).value);
    }
  }

  lemma TargetIsCurrent(s: State, step: Step)
    requires Inv(s) && step.p < |s.processes| && Target(s, step).Some?
    requires !(step.Commit? && s.processes[step.p].Noted?)
    ensures var to := Target(s, step).value;
      && Current(s, to)
      && forall outbox | Holds(to, outbox) :: Holds(s.processes[step.p], outbox) || !LockedByOther(s, step.p, outbox)
  {
    assert Current(s, s.processes[step.p]);
  }

  lemma NextKeeps(s: State, step: Step)
    requires Inv(s) && Next(s, step).Some?
    ensures Inv(Next(s, step).value)
  {
    if step.Commit? && s.processes[step.p].Noted? {
      CommitKeeps(s, step.p);
    } else if step.WriteAttempt? {
      WriteKeeps(s, step.p, step.status, step.text);
    } else {
      TargetIsCurrent(s, step);
      Moved(s, step.p, Target(s, step).value);
    }
  }

  lemma InitialHolds(s: State)
    requires Initial(s)
    ensures Inv(s)
  {
    assert forall p | 0 <= p < |s.processes| :: s.processes[p] in s.processes;
  }

  /**
   * Whatever the number of notifications and senders, and however their steps are interleaved, repeated
   * and broken off, the numbers of a message's attempts stay 1, 2, 3, ..., no event text is recorded
   * twice, and the case has one event for each attempt that a notification recorded.
   */
  lemma {:induction false} RunKeeps(s: State, steps: seq<Step>)
    requires Initial(s)
    ensures Inv(Run(s, steps))
    decreases |steps|
  {
    if steps == [] {
      InitialHolds(s);
    } else {
      RunKeeps(s, steps[..|steps| - 1]);
      var mid := Run(s, steps[..|steps| - 1]);
      if Next(mid, steps[|steps| - 1]).Some? {
        NextKeeps(mid, steps[|steps| - 1]);
      }
    }
  }

  /** Two attempts of one message have different numbers, the later one the larger. */
  lemma NumbersIncrease(attempts: seq<Attempt>, i: nat, j: nat)
    requires Dense(attempts) && i < j < |attempts| && attempts[i].outbox == attempts[j].outbox
    ensures attempts[i].number < attempts[j].number
  {
    assert IsNext(attempts, j) && attempts[..j][i] == attempts[i];
    assert attempts[i] in attempts[..j];
  }

  /** A notification that has been committed is recorded, by itself or by an earlier delivery of it. */
  lemma CommittedIsRecorded(s: State, steps: seq<Step>, p: nat)
    requires Initial(s) && p < |Run(s, steps).processes| && Run(s, steps).processes[p].Committed?
    ensures var end := Run(s, steps); HasText(end.attempts, end.processes[p].d.outbox, end.processes[p].d.text)
  {
    RunKeeps(s, steps);
    assert Current(Run(s, steps), Run(s, steps).processes[p]);
  }

  /** At the moment it is committed, a recorded problem is the message's last attempt. */
  lemma RecordedIsLast(s: State, steps: seq<Step>, p: nat)
    requires Initial(s) && p < |Run(s, steps).processes| && Run(s, steps).processes[p].Noted?
    ensures var now := Run(s, steps);
      var after := Next(now, Commit(p)).value;
      var last := after.attempts[|after.attempts| - 1];
      && after.attempts == now.attempts + [last] && last.status == now.processes[p].d.status
      && last.outbox == now.processes[p].d.outbox && last.number == MaxNumber(after.attempts, last.outbox)
      && after.notes == now.notes + [NoteOf(last)]
  {
    RunKeeps(s, steps);
    var now := Run(s, steps);
    var d := now.processes[p].d;
    assert Current(now, now.processes[p]);
    MaxMore(now.attempts, Attempt(d.outbox, now.processes[p].number, d.status, Some(d.text), true), d.outbox);
  }

  /** Nobody waits for ever: the process that holds a message can always go on. */
  lemma HolderCanMove(s: State, p: nat, outbox: nat)
    requires p < |s.processes| && Holds(s.processes[p], outbox)
    ensures exists step: Step :: step.p == p && !step.Abort? && Next(s, step).Some?
  {
    var process := s.processes[p];
    var step := if process.Locked? then Insert(p) else if process.Inserted? then NoteCase(p) else Commit(p);
    assert Next(s, step).Some?;
  }
}
