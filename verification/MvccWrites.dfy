/** What a write is for: what the writer reads next, what transactions that begin after its commit read, and which later
    writes it rules out. */
module MvccWrites {
  import opened Mvcc
  import opened MvccSafety
  import opened MvccReads

  // ---- what is read after a write ----

  ghost predicate IsWrite(step: Step) {
    step.InsertInto? || step.UpdateIn? || step.DeleteFrom?
  }

  /** The cells of the row after the write: the values written, and the rest as it was. */
  ghost predicate Written(s: State, step: Step, cells: Cells, cols: set<Col>)
    requires IsWrite(step) && (!step.InsertInto? ==> step.r in s.rows)
  {
    match step
    case InsertInto(_, _, given) =>
      cells.Keys == given.Keys * cols && forall c | c in cells :: cells[c] == given[c]
    case UpdateIn(_, r, values) =>
      && cells.Keys == s.rows[r].cells.Keys * cols
      && forall c | c in cells :: cells[c] == if c in values then values[c] else s.rows[r].cells[c]
    case DeleteFrom(_, r, _) =>
      cells.Keys == s.rows[r].cells.Keys * cols && forall c | c in cells :: cells[c] == s.rows[r].cells[c]
    case _ => false
  }

  ghost predicate ReadsWritten(s: State, step: Step, row: Row, t: Txn, cols: set<Col>)
    requires IsWrite(step) && (!step.InsertInto? ==> step.r in s.rows)
  {
    var (cells, status) := Select(row, t, cols);
    Written(s, step, cells, cols) && status == if step.DeleteFrom? then Deleted else Visible
  }

  /** A row whose newest record is t's own, or was committed before t began, reads as it is on the page. */
  lemma NewestRead(s: State, t: Txn, r: RowId, cols: set<Col>)
    requires Inv(s) && IsRunning(s, t) && r in s.rows && s.rows[r].chain != []
    requires s.rows[r].chain[0].owner == t || Settled(s, s.rows[r].chain[0], t)
    ensures Select(s.rows[r], t, cols)
      == (Restrict(s.rows[r].cells, cols), if s.rows[r].chain[0].kind.Delete? then Deleted else Visible)
  {
    hide LatchOk, ClockOk, LogOk, Settled, Restrict;
    ReaderView(s, t, r);
    var e := s.rows[r].chain[0];
    assert (IsNewerThan(e.stamp, t) <==> !Settled(s, e, t)) && (e.stamp == Uncommitted(t) <==> e.owner == t);
  }

  /** The row right after the write: on the page what was written, at the head a record of the writer. */
  lemma RightAfter(s: State, step: Step, cols: set<Col>)
    requires Enabled(s, step) && IsWrite(step)
    ensures var u := Do(s, step);
      && step.r in u.rows && u.rows[step.r].chain != [] && u.rows[step.r].chain[0].owner == step.t
      && (u.rows[step.r].chain[0].kind.Delete? <==> step.DeleteFrom?)
      && Written(s, step, Restrict(u.rows[step.r].cells, cols), cols)
  {
    hide CanUpdate, CanDelete;
  }

  /** Whoever writes a row reads what it wrote, in any columns. */
  lemma OwnWriteRead(s: State, step: Step, cols: set<Col>)
    requires Inv(s) && Enabled(s, step) && IsWrite(step)
    ensures step.r in Do(s, step).rows && ReadsWritten(s, step, Do(s, step).rows[step.r], step.t, cols)
  {
    hide Inv, Select, Written, Do, Restrict;
    StepKeeps(s, step);
    RightAfter(s, step, cols);
    WriterRuns(s, step);
    NewestRead(Do(s, step), step.t, step.r, cols);
  }

  lemma WriterRuns(s: State, step: Step)
    requires Enabled(s, step) && IsWrite(step)
    ensures IsRunning(Do(s, step), step.t)
  {
    hide CanUpdate, CanDelete, UpdateRow, InsertRow, DeleteRow;
  }

  /** As long as nobody else writes the row it keeps its cells, and its head the kind and owner. */
  lemma {:induction false} StaysNewest(s: State, steps: seq<Step>, u: State, r: RowId)
    requires Inv(s) && Along(s, steps, u) && r in s.rows && s.rows[r].chain != []
    requires forall i | 0 <= i < |steps| :: !Pushes(steps[i], r)
    ensures Inv(u) && r in u.rows && u.rows[r].chain != [] && u.rows[r].cells == s.rows[r].cells
    ensures u.rows[r].chain[0].kind == s.rows[r].chain[0].kind && u.rows[r].chain[0].owner == s.rows[r].chain[0].owner
    decreases |steps|
  {
    hide Inv, Enabled, Do, Pushes;
    if steps != [] {
      assert !Pushes(steps[0], r);
      StepKeeps(s, steps[0]);
      SameButStamp(s, steps[0], r);
      forall i | 0 <= i < |steps[1..]| ensures !Pushes(steps[1..][i], r) {
        assert !Pushes(steps[i + 1], r);
      }
      StaysNewest(Do(s, steps[0]), steps[1..], u, r);
    }
  }

  /** The writer had committed when t began. */
  ghost predicate CommittedBefore(s: State, v: Txn, t: Txn) {
    v in s.txns && s.txns[v].Committed? && s.txns[v].commit < t
  }

  /** Until the row is written again, its writer, and everybody who begins after the writer has committed, reads what was
      written, in any columns. */
  lemma LaterReads(s: State, step: Step, steps: seq<Step>, u: State, t: Txn, cols: set<Col>)
    requires Inv(s) && Enabled(s, step) && IsWrite(step) && Along(Do(s, step), steps, u)
    requires forall i | 0 <= i < |steps| :: !Pushes(steps[i], step.r)
    requires IsRunning(u, t) && (t == step.t || CommittedBefore(u, step.t, t))
    ensures step.r in u.rows && ReadsWritten(s, step, u.rows[step.r], t, cols)
  {
    hide Inv, Select, Written, Do, Along, Restrict, Enabled, IsRunning;
    StepKeeps(s, step);
    RightAfter(s, step, cols);
    StaysNewest(Do(s, step), steps, u, step.r);
    NewestRead(u, t, step.r, cols);
  }

  // ---- the deletion bit ----

  /** The step is a page delete of row r. */
  ghost predicate DeletesOnPage(step: Step, r: RowId) {
    step.DeleteFrom? && step.r == r && step.page
  }

  lemma BitStep(s: State, step: Step, r: RowId)
    requires Enabled(s, step) && r in Do(s, step).rows
    ensures Do(s, step).rows[r].bitmap <==> (r in s.rows && s.rows[r].bitmap) || DeletesOnPage(step, r)
    ensures r in s.rows && s.rows[r].chain != [] ==> Do(s, step).rows[r].chain != []
  {
    hide CanUpdate, CanDelete, Unstamped, Restrict, Merge;
  }

  lemma RowsStay(s: State, step: Step, r: RowId)
    requires Enabled(s, step) && r in s.rows
    ensures r in Do(s, step).rows
  {
    hide CanUpdate, CanDelete, Unstamped, UpdateRow, DeleteRow, InsertRow, Stamped;
  }

  lemma PageDeleteHasRow(s: State, step: Step, r: RowId)
    requires Enabled(s, step) && DeletesOnPage(step, r)
    ensures r in s.rows
  {
    hide CanDelete;
  }

  /** In every run the deletion bit of a row is set if and only if it was at the start, or a page delete of the row has gone
      through. */
  lemma {:induction false} BitIff(s: State, steps: seq<Step>, u: State, r: RowId)
    requires Along(s, steps, u) && r in u.rows
    ensures u.rows[r].bitmap <==>
      (r in s.rows && s.rows[r].bitmap) || exists i :: 0 <= i < |steps| && DeletesOnPage(steps[i], r)
    decreases |steps|
  {
    hide Enabled, Do, DeletesOnPage;
    if steps != [] {
      var mid, rest := Do(s, steps[0]), steps[1..];
      BitIff(mid, rest, u, r);
      assert forall i | 0 <= i < |rest| :: rest[i] == steps[i + 1];
      assert forall i | 0 < i < |steps| :: steps[i] == rest[i - 1];
      if r in mid.rows {
        BitStep(s, steps[0], r);
      } else {
        if r in s.rows || DeletesOnPage(steps[0], r) {
          if DeletesOnPage(steps[0], r) {
            PageDeleteHasRow(s, steps[0], r);
          }
          RowsStay(s, steps[0], r);
        }
      }
    }
  }

  /** After a page delete nobody writes the row any more, whatever happens next: no update and no delete of it is let
      through. */
  lemma PageDeleteIsFinal(s: State, t: Txn, r: RowId, steps: seq<Step>, u: State)
    requires Enabled(s, DeleteFrom(t, r, true)) && Along(Do(s, DeleteFrom(t, r, true)), steps, u)
    ensures r in u.rows && u.rows[r].bitmap && IsDeleted(u.rows[r])
    ensures forall v, values :: !Enabled(u, UpdateIn(v, r, values))
    ensures forall v, page :: !Enabled(u, DeleteFrom(v, r, page))
  {
    hide Enabled, Do, Along;
    DeletedOnPage(s, t, r);
    StaysDeleted(Do(s, DeleteFrom(t, r, true)), steps, u, r);
    forall v, values ensures !Enabled(u, UpdateIn(v, r, values)) {
      NoWrite(u, UpdateIn(v, r, values), r);
    }
    forall v, page ensures !Enabled(u, DeleteFrom(v, r, page)) {
      NoWrite(u, DeleteFrom(v, r, page), r);
    }
  }

  ghost predicate GoneForGood(s: State, r: RowId) {
    r in s.rows && s.rows[r].bitmap && s.rows[r].chain != [] && s.rows[r].chain[0].kind.Delete?
  }

  lemma DeletedOnPage(s: State, t: Txn, r: RowId)
    requires Enabled(s, DeleteFrom(t, r, true))
    ensures GoneForGood(Do(s, DeleteFrom(t, r, true)), r)
  {
  }

  lemma NoWrite(s: State, step: Step, r: RowId)
    requires GoneForGood(s, r) && Pushes(step, r)
    ensures !Enabled(s, step)
  {
  }

  lemma {:induction false} StaysDeleted(s: State, steps: seq<Step>, u: State, r: RowId)
    requires GoneForGood(s, r) && Along(s, steps, u)
    ensures GoneForGood(u, r)
    decreases |steps|
  {
    hide Enabled, Do;
    if steps != [] {
      if Pushes(steps[0], r) {
        NoWrite(s, steps[0], r);
        assert false;
      } else {
        SameButStamp(s, steps[0], r);
        StaysDeleted(Do(s, steps[0]), steps[1..], u, r);
      }
    }
  }

  // ---- aborts ----

  lemma AbortedStays(s: State, step: Step, t: Txn)
    requires ClockOk(s) && Enabled(s, step) && InPhase(s, t, Aborted)
    ensures InPhase(Do(s, step), t, Aborted) && step.t != t
  {
  }

  lemma {:induction false} AbortedAlong(s: State, steps: seq<Step>, u: State, t: Txn)
    requires Inv(s) && Along(s, steps, u) && InPhase(s, t, Aborted)
    ensures Inv(u) && InPhase(u, t, Aborted) && forall i | 0 <= i < |steps| :: steps[i].t != t
    decreases |steps|
  {
    hide Inv, Enabled, Do, InPhase;
    if steps != [] {
      ClockOf(s);
      AbortedStays(s, steps[0], t);
      StepKeeps(s, steps[0]);
      AbortedAlong(Do(s, steps[0]), steps[1..], u, t);
    }
  }

  /** After its abort a transaction takes no more steps, and no reader ever counts one of its records as committed. */
  lemma AbortIsFinal(s: State, t: Txn, steps: seq<Step>, u: State, e: Record, v: Txn)
    requires Inv(s) && Enabled(s, Abort(t)) && Along(Do(s, Abort(t)), steps, u)
    ensures (forall i | 0 <= i < |steps| :: steps[i].t != t) && (forall step | Enabled(u, step) :: step.t != t)
    ensures e.owner == t ==> !Settled(u, e, v)
  {
    hide Inv, Enabled, Do, Along;
    StepKeeps(s, Abort(t));
    assert InPhase(Do(s, Abort(t)), t, Aborted) by { NowAborted(s, t); }
    AbortedAlong(Do(s, Abort(t)), steps, u, t);
    ClockOf(u);
    forall step | Enabled(u, step) ensures step.t != t {
      AbortedStays(u, step, t);
    }
  }

  lemma NowAborted(s: State, t: Txn)
    requires Enabled(s, Abort(t))
    ensures InPhase(Do(s, Abort(t)), t, Aborted)
  {
  }
}
