/** When each step of a notification or of the sender can be taken, and what it does to the stored rows. */
module DeliveryMeaning {
  import opened Common
  import opened Delivery

  /** Another notification of the message is between its lock and its commit. */
  predicate Busy(s: State, p: nat, outbox: nat) {
    exists q | 0 <= q < |s.processes| && q != p ::
      match s.processes[q]
      case Locked(d) => d.outbox == outbox
      case Inserted(d, _) => d.outbox == outbox
      case Noted(d, _) => d.outbox == outbox
      case Skipping(d) => d.outbox == outbox
      case _ => false
  }

  /** A number that some notification has inserted and not yet committed. */
  predicate Reserved(s: State, outbox: nat, number: nat) {
    exists q | 0 <= q < |s.processes| ::
      match s.processes[q]
      case Inserted(d, n) => d.outbox == outbox && n == number
      case Noted(d, n) => d.outbox == outbox && n == number
      case _ => false
  }

  predicate Known(s: State, outbox: nat, text: string) {
    exists a :: a in s.attempts && a.outbox == outbox && a.text == Some(text)
  }

  /** One more than the largest number of the message's attempts, or one. */
  predicate IsNextNumber(s: State, outbox: nat, n: nat) {
    && n >= 1 && (forall a | a in s.attempts && a.outbox == outbox :: a.number < n)
    && (n > 1 ==> exists a :: a in s.attempts && a.outbox == outbox && a.number == n - 1)
  }

  /** The process moves on, and nothing stored changes. */
  predicate OnlyMoves(s: State, p: nat, to: Process, u: State) {
    p < |s.processes| && u.processes == s.processes[p := to] && u.attempts == s.attempts && u.notes == s.notes
  }

  lemma BusyExactly(s: State, p: nat, outbox: nat, number: nat)
    ensures LockedByOther(s, p, outbox) <==> Busy(s, p, outbox)
    ensures PendsElsewhere(s, outbox, number) <==> Reserved(s, outbox, number)
    ensures IsNextNumber(s, outbox, MaxNumber(s.attempts, outbox) + 1)
  {
    if LockedByOther(s, p, outbox) {
      var q :| 0 <= q < |s.processes| && q != p && Holds(s.processes[q], outbox);
      assert s.processes[q].d.outbox == outbox;
    }
    if PendsElsewhere(s, outbox, number) {
      var q :| 0 <= q < |s.processes| && Pends(s.processes[q], outbox, number);
      assert s.processes[q].d.outbox == outbox && s.processes[q].number == number;
    }
  }

  lemma LockExactly(s: State, p: nat)
    ensures var can := p < |s.processes| && s.processes[p].Arrived? && !Busy(s, p, s.processes[p].d.outbox);
      && (Next(s, Lock(p)).Some? <==> can)
      && (can ==> OnlyMoves(s, p, Locked(s.processes[p].d), Next(s, Lock(p)).value))
  {
    if p < |s.processes| && s.processes[p].Arrived? {
      BusyExactly(s, p, s.processes[p].d.outbox, 0);
    }
  }

  /** A notification whose text is known is skipped, any other takes the next number. */
  lemma InsertExactly(s: State, p: nat, n: nat)
    ensures Next(s, Insert(p)).Some? <==> p < |s.processes| && s.processes[p].Locked?
    ensures Next(s, Insert(p)).Some? ==>
      var d, u := s.processes[p].d, Next(s, Insert(p)).value;
      && (Known(s, d.outbox, d.text) ==> OnlyMoves(s, p, Skipping(d), u))
      && (!Known(s, d.outbox, d.text) && IsNextNumber(s, d.outbox, n) ==> OnlyMoves(s, p, Inserted(d, n), u))
  {
    if p < |s.processes| && s.processes[p].Locked? {
      BusyExactly(s, p, s.processes[p].d.outbox, 0);
    }
  }

  lemma NoteExactly(s: State, p: nat)
    ensures Next(s, NoteCase(p)).Some? <==> p < |s.processes| && s.processes[p].Inserted?
    ensures Next(s, NoteCase(p)).Some? ==>
      OnlyMoves(s, p, Noted(s.processes[p].d, s.processes[p].number), Next(s, NoteCase(p)).value)
  {
  }

  /** The commit shows the attempt and the case event; a skipped notification shows nothing. */
  lemma CommitExactly(s: State, p: nat)
    ensures Next(s, Commit(p)).Some? <==> p < |s.processes| && (s.processes[p].Noted? || s.processes[p].Skipping?)
    ensures Next(s, Commit(p)).Some? ==>
      var d, u := s.processes[p].d, Next(s, Commit(p)).value;
      && u.processes == s.processes[p := Committed(d)]
      && (s.processes[p].Skipping? ==> u.attempts == s.attempts && u.notes == s.notes)
      && (s.processes[p].Noted? ==>
        && |u.attempts| == |s.attempts| + 1 && u.attempts[..|s.attempts|] == s.attempts
        && |u.notes| == |s.notes| + 1 && u.notes[..|s.notes|] == s.notes
        && var a, note := u.attempts[|s.attempts|], u.notes[|s.notes|];
           && a.outbox == d.outbox && a.number == s.processes[p].number && a.status == d.status
           && a.text == Some(d.text) && a.byEvent
           && note.outbox == d.outbox && note.number == s.processes[p].number && note.text == d.text)
  {
  }

  lemma AbortExactly(s: State, p: nat)
    ensures Next(s, Abort(p)).Some? <==> p < |s.processes| && !s.processes[p].Committed? && !s.processes[p].RolledBack?
    ensures Next(s, Abort(p)).Some? ==> OnlyMoves(s, p, RolledBack, Next(s, Abort(p)).value)
  {
  }

  /** The sender reads the next number first, and its attempt is dropped if the number has been taken since. */
  lemma SenderExactly(s: State, p: nat, status: Status, text: Option<string>, n: nat)
    ensures Next(s, ReadNumber(p)).Some? <==> p < |s.processes| && s.processes[p].Sender?
    ensures Next(s, ReadNumber(p)).Some? && IsNextNumber(s, s.processes[p].outbox, n) ==>
      OnlyMoves(s, p, Numbered(s.processes[p].outbox, n), Next(s, ReadNumber(p)).value)
    ensures Next(s, WriteAttempt(p, status, text)).Some? <==>
      p < |s.processes| && s.processes[p].Numbered? && !Reserved(s, s.processes[p].outbox, s.processes[p].number)
    ensures Next(s, WriteAttempt(p, status, text)).Some? ==>
      var outbox, number, u := s.processes[p].outbox, s.processes[p].number,
        Next(s, WriteAttempt(p, status, text)).value;
      && u.processes == s.processes[p := RolledBack] && u.notes == s.notes
      && u.attempts == s.attempts +
        if exists a :: a in s.attempts && a.outbox == outbox && a.number == number then []
        else [Attempt(outbox, number, status, text, false)]
  {
    if p < |s.processes| && s.processes[p].Sender? {
      BusyExactly(s, p, s.processes[p].outbox, 0);
    }
    if p < |s.processes| && s.processes[p].Numbered? {
      BusyExactly(s, p, s.processes[p].outbox, s.processes[p].number);
    }
  }

  /** Any number of notifications and senders may be about to start, in any mix. */
  lemma StartsAnywhere(s: State)
    ensures Initial(s) <==>
      && s == State([], [], s.processes)
      && forall p | 0 <= p < |s.processes| ::
        || (exists d :: s.processes[p] == Arrived(d))
        || exists outbox :: s.processes[p] == Sender(outbox)
  {
    forall p | 0 <= p < |s.processes|
      ensures s.processes[p].Arrived? || s.processes[p].Sender? <==>
        (exists d :: s.processes[p] == Arrived(d)) || exists outbox :: s.processes[p] == Sender(outbox)
    {
      if s.processes[p].Arrived? {
        assert s.processes[p] == Arrived(s.processes[p].d);
      }
      if s.processes[p].Sender? {
        assert s.processes[p] == Sender(s.processes[p].outbox);
      }
    }
    assert (forall p | p in s.processes :: p.Arrived? || p.Sender?) <==>
      forall p | 0 <= p < |s.processes| :: s.processes[p].Arrived? || s.processes[p].Sender?;
  }

  /** A run takes the steps that can be taken and passes over the others. */
  lemma RunTakesEach(s: State, steps: seq<Step>, step: Step)
    ensures Run(s, []) == s
    ensures Run(s, steps + [step])
      == if Next(Run(s, steps), step).Some? then Next(Run(s, steps), step).value else Run(s, steps)
  {
    assert (steps + [step])[..|steps|] == steps;
  }
}
