/** Every step of the transactions keeps the invariant, so every run does. */
module MvccSafety {
  import opened Counting
  import opened Mvcc

  // ---- phases only ----

  /** u differs from s in the phase of t, and gives no committed transaction another commit time. */
  ghost predicate PhaseStep(s: State, u: State, t: Txn) {
    && u.rows == s.rows && t in u.txns && u.txns.Keys == s.txns.Keys + {t}
    && (forall v | v in s.txns && v != t :: u.txns[v] == s.txns[v])
    && (t in s.txns && s.txns[t].Committed? ==> u.txns[t] == s.txns[t])
  }

  lemma HoldersOf(s: State, u: State, t: Txn)
    requires PhaseStep(s, u, t)
    ensures |Holders(u)| - |Holders(s)| == (if Holding(u.txns[t]) then 1 else 0) - (if t in s.txns
      && Holding(s.txns[t]) then 1 else 0)
  {
    hide Holding;
    forall v | v != t ensures v in Holders(u) <==> v in Holders(s) {
    }
    SizeWithout(Holders(s), Holders(u), t);
  }

  /** A new phase of t leaves a chain as it was, when t's own records fit the new phase. */
  lemma ChainKept(s: State, u: State, t: Txn, chain: seq<Record>)
    requires PhaseStep(s, u, t) && ChainOk(s, chain)
    requires forall i | 0 <= i < |chain| && chain[i].owner == t :: RecordOk(u, chain[i])
    ensures ChainOk(u, chain)
  {
    forall i | 0 <= i < |chain| ensures RecordOk(u, chain[i]) {
      assert RecordOk(s, chain[i]);
    }
    forall i | 0 <= i < |chain| - 1 ensures NeighboursOk(u, chain[i], chain[i + 1]) {
      assert NeighboursOk(s, chain[i], chain[i + 1]);
    }
  }

  lemma PhaseRowsKept(s: State, u: State, t: Txn)
    requires PhaseStep(s, u, t) && RowsOk(s)
    requires forall r, i | r in s.rows && 0 <= i < |s.rows[r].chain| && s.rows[r].chain[i].owner == t ::
               RecordOk(u, s.rows[r].chain[i])
    ensures RowsOk(u)
  {
    forall r | r in u.rows ensures ChainOk(u, u.rows[r].chain) {
      assert forall i | 0 <= i < |s.rows[r].chain| && s.rows[r].chain[i].owner == t :: RecordOk(u, s.rows[r].chain[i]);
      ChainKept(s, u, t, s.rows[r].chain);
    }
  }

  lemma HasRecord(s: State, r: RowId, i: nat)
    requires RowsOk(s) && r in s.rows && i < |s.rows[r].chain|
    ensures RecordOk(s, s.rows[r].chain[i])
  {
  }

  lemma BeginTickKeeps(s: State, t: Txn)
    requires Inv(s) && Enabled(s, BeginTick(t))
    ensures Inv(Do(s, BeginTick(t)))
  {
    hide RowsOk, Holders, Links, NeighboursOk, CanUpdate, CanDelete, Unstamped, UpdateRow, DeleteRow, InsertRow;
    var u := Do(s, BeginTick(t));
    HoldersOf(s, u, t);
    forall r, i | r in s.rows && 0 <= i < |s.rows[r].chain| ensures s.rows[r].chain[i].owner != t {
      HasRecord(s, r, i);
    }
    PhaseRowsKept(s, u, t);
  }

  /** The latch is free: nobody is restamping. */
  lemma NobodyHolds(s: State, t: Txn)
    requires LatchOk(s) && s.latch == 0 && t in s.txns
    ensures !Holding(s.txns[t])
  {
    assert Holders(s) == {};
    assert t !in Holders(s);
  }

  lemma BeginPassKeeps(s: State, t: Txn)
    requires Inv(s) && Enabled(s, BeginPass(t))
    ensures Inv(Do(s, BeginPass(t)))
  {
    hide RowsOk, Holders, Links, NeighboursOk, CanUpdate, CanDelete, Unstamped, UpdateRow, DeleteRow, InsertRow;
    var u := Do(s, BeginPass(t));
    HoldersOf(s, u, t);
    forall v | v in s.txns ensures !Holding(s.txns[v]) {
      NobodyHolds(s, v);
    }
    forall r, i | r in s.rows && 0 <= i < |s.rows[r].chain| ensures s.rows[r].chain[i].owner != t {
      HasRecord(s, r, i);
    }
    PhaseRowsKept(s, u, t);
  }

  lemma OwnPhaseRecords(s: State, u: State, t: Txn)
    requires PhaseStep(s, u, t) && RowsOk(s) && t in s.txns && !HasCommit(s.txns[t]) && !s.txns[t].Begun?
    requires !u.txns[t].Committed? && !u.txns[t].Begun?
    ensures RowsOk(u)
  {
    forall r, i | r in s.rows && 0 <= i < |s.rows[r].chain| && s.rows[r].chain[i].owner == t
      ensures RecordOk(u, s.rows[r].chain[i])
    {
      HasRecord(s, r, i);
    }
    PhaseRowsKept(s, u, t);
  }

  lemma ClockKept(s: State, u: State, t: Txn)
    requires PhaseStep(s, u, t) && ClockOk(s) && t in s.txns && u.time == s.time
    requires HasCommit(u.txns[t]) ==> HasCommit(s.txns[t]) && u.txns[t].commit == s.txns[t].commit
    ensures ClockOk(u)
  {
  }

  lemma LatchKept(s: State, u: State, t: Txn)
    requires PhaseStep(s, u, t) && LatchOk(s) && t in s.txns && !s.txns[t].Begun?
    requires u.latch == s.latch + (if Holding(u.txns[t]) then 1 else 0) - (if Holding(s.txns[t]) then 1 else 0)
    requires !u.txns[t].Committing?
    ensures LatchOk(u)
  {
    hide Holders;
    HoldersOf(s, u, t);
  }

  lemma TakeLatchKeeps(s: State, t: Txn)
    requires Inv(s) && Enabled(s, TakeLatch(t))
    ensures Inv(Do(s, TakeLatch(t)))
  {
    hide ClockOk, LatchOk, RowsOk, CanUpdate, CanDelete, Unstamped, UpdateRow, DeleteRow, InsertRow;
    var u := Do(s, TakeLatch(t));
    ClockKept(s, u, t);
    LatchKept(s, u, t);
    OwnPhaseRecords(s, u, t);
  }

  /** Everybody past the latch began before now, and nobody else has this commit time. */
  lemma TickedClock(s: State, u: State, t: Txn)
    requires PhaseStep(s, u, t) && ClockOk(s) && t in s.txns && s.time + 1 == u.time < UNCOMMITTED
    requires u.txns[t] == Committing(s.time)
    ensures ClockOk(u)
  {
  }

  lemma TickedLatch(s: State, u: State, t: Txn)
    requires PhaseStep(s, u, t) && ClockOk(s) && LatchOk(s) && t in s.txns && s.txns[t].Latched? && u.latch == s.latch
    requires u.txns[t] == Committing(s.time)
    ensures LatchOk(u)
  {
    hide Holders;
    HoldersOf(s, u, t);
  }

  lemma CommitTickKeeps(s: State, t: Txn)
    requires Inv(s) && Enabled(s, CommitTick(t))
    ensures Inv(Do(s, CommitTick(t)))
  {
    hide ClockOk, LatchOk, RowsOk, CanUpdate, CanDelete, Unstamped, UpdateRow, DeleteRow, InsertRow;
    var u := Do(s, CommitTick(t));
    TickedClock(s, u, t);
    TickedLatch(s, u, t);
    OwnPhaseRecords(s, u, t);
  }

  lemma AbortKeeps(s: State, t: Txn)
    requires Inv(s) && Enabled(s, Abort(t))
    ensures Inv(Do(s, Abort(t)))
  {
    hide ClockOk, LatchOk, RowsOk, CanUpdate, CanDelete, Unstamped, UpdateRow, DeleteRow, InsertRow;
    var u := Do(s, Abort(t));
    ClockKept(s, u, t);
    LatchKept(s, u, t);
    OwnPhaseRecords(s, u, t);
  }

  lemma ReleaseLatchKeeps(s: State, t: Txn)
    requires Inv(s) && Enabled(s, ReleaseLatch(t))
    ensures Inv(Do(s, ReleaseLatch(t)))
  {
    hide ClockOk, LatchOk, RowsOk, CanUpdate, CanDelete, UpdateRow, DeleteRow, InsertRow;
    var u := Do(s, ReleaseLatch(t));
    ClockKept(s, u, t);
    LatchKept(s, u, t);
    forall r, i | r in s.rows && 0 <= i < |s.rows[r].chain| && s.rows[r].chain[i].owner == t
      ensures RecordOk(u, s.rows[r].chain[i])
    {
      HasRecord(s, r, i);
      assert !Unstamped(s, t, r);
    }
    PhaseRowsKept(s, u, t);
  }

  // ---- one row only ----

  lemma SameTxns(s: State, u: State, chain: seq<Record>)
    requires u.txns == s.txns && ChainOk(s, chain)
    ensures ChainOk(u, chain)
  {
    assert forall i | 0 <= i < |chain| :: RecordOk(s, chain[i]);
    assert forall i | 0 <= i < |chain| - 1 :: NeighboursOk(s, chain[i], chain[i + 1]);
  }

  lemma RowReplaced(s: State, u: State, r: RowId, row: Row)
    requires Inv(s) && u == s.(rows := s.rows[r := row]) && ChainOk(s, row.chain) && LogOk(row)
    ensures Inv(u)
  {
    hide LogOk, RecordOk, NeighboursOk;
    assert Holders(u) == Holders(s);
    assert ClockOk(u) && LatchOk(u);
    forall x | x in u.rows ensures ChainOk(u, u.rows[x].chain) && LogOk(u.rows[x]) {
      SameTxns(s, u, u.rows[x].chain);
    }
  }

  /** Whoever passes the conflict test with the head of a chain owns it, or began after it was committed. */
  lemma ConflictDecides(s: State, chain: seq<Record>, t: Txn)
    requires ClockOk(s) && LatchOk(s) && ChainOk(s, chain) && t in s.txns && !s.txns[t].Begun? && chain != []
    requires !HasCommit(s.txns[t])
    ensures Conflicts(chain, t) <==> chain[0].owner != t && !Settled(s, chain[0], t)
  {
    assert RecordOk(s, chain[0]);
  }

  lemma PushKeeps(s: State, chain: seq<Record>, e: Record)
    requires Inv(s) && ChainOk(s, chain) && IsRunning(s, e.owner) && e.stamp == Uncommitted(e.owner)
    requires !Conflicts(chain, e.owner)
    ensures ChainOk(s, [e] + chain)
  {
    var longer := [e] + chain;
    forall i | 0 <= i < |longer| - 1 ensures NeighboursOk(s, longer[i], longer[i + 1]) {
      if i == 0 {
        ConflictDecides(s, chain, e.owner);
        assert RecordOk(s, chain[0]);
      } else {
        assert NeighboursOk(s, chain[i - 1], chain[i]);
      }
    }
  }

  lemma UpdateLog(row: Row, t: Txn, values: Cells)
    requires LogOk(row) && values.Keys <= row.cells.Keys
    ensures LogOk(UpdateRow(row, t, values))
  {
    var u, n := UpdateRow(row, t, values), |row.chain|;
    assert Merge(u.cells, u.chain[0].delta) == row.cells;
    forall i | 0 <= i < |u.chain| ensures Links(u.chain[i], u.log[|u.chain| - i], u.log[|u.chain| - i - 1]) {
      if i > 0 {
        assert Links(row.chain[i - 1], row.log[n - (i - 1)], row.log[n - (i - 1) - 1]);
      }
    }
  }

  lemma DeleteLog(row: Row, t: Txn, page: bool)
    requires LogOk(row)
    ensures LogOk(DeleteRow(row, t, page))
  {
    var u, n := DeleteRow(row, t, page), |row.chain|;
    forall i | 0 <= i < |u.chain| ensures Links(u.chain[i], u.log[|u.chain| - i], u.log[|u.chain| - i - 1]) {
      if i > 0 {
        assert Links(row.chain[i - 1], row.log[n - (i - 1)], row.log[n - (i - 1) - 1]);
      }
    }
  }

  lemma WriteKeeps(s: State, step: Step)
    requires Inv(s) && Enabled(s, step) && (step.InsertInto? || step.UpdateIn? || step.DeleteFrom?)
    ensures Inv(Do(s, step))
  {
    hide ChainOk, LogOk, ClockOk, LatchOk;
    var u := Do(s, step);
    match step
    case InsertInto(t, r, cells) =>
      assert ChainOk(s, []) by { EmptyChain(s); }
      var row := InsertRow(t, cells);
      PushKeeps(s, [], row.chain[0]);
      assert [row.chain[0]] + [] == row.chain;
      InsertLog(t, cells);
      RowReplaced(s, u, r, row);
    case UpdateIn(t, r, values) =>
      var row := UpdateRow(s.rows[r], t, values);
      PushKeeps(s, s.rows[r].chain, row.chain[0]);
      UpdateLog(s.rows[r], t, values);
      RowReplaced(s, u, r, row);
    case DeleteFrom(t, r, page) =>
      var row := DeleteRow(s.rows[r], t, page);
      PushKeeps(s, s.rows[r].chain, row.chain[0]);
      DeleteLog(s.rows[r], t, page);
      RowReplaced(s, u, r, row);
  }

  lemma EmptyChain(s: State)
    ensures ChainOk(s, [])
  {
  }

  lemma InsertLog(t: Txn, cells: Cells)
    ensures LogOk(InsertRow(t, cells))
  {
  }

  lemma StampedChain(s: State, t: Txn, r: RowId, i: nat)
    requires Inv(s) && Enabled(s, Restamp(t, r, i))
    ensures ChainOk(s, Stamped(s.rows[r], i, s.txns[t].commit).chain)
  {
    var chain := s.rows[r].chain;
    var stamped := Stamped(s.rows[r], i, s.txns[t].commit).chain;
    assert ChainOk(s, chain);
    forall j | 0 <= j < |stamped| ensures RecordOk(s, stamped[j]) {
      assert RecordOk(s, chain[j]);
    }
    forall j | 0 <= j < |stamped| - 1 ensures NeighboursOk(s, stamped[j], stamped[j + 1]) {
      assert NeighboursOk(s, chain[j], chain[j + 1]);
      assert RecordOk(s, chain[j]) && RecordOk(s, chain[j + 1]);
    }
  }

  lemma RestampKeeps(s: State, t: Txn, r: RowId, i: nat)
    requires Inv(s) && Enabled(s, Restamp(t, r, i))
    ensures Inv(Do(s, Restamp(t, r, i)))
  {
    hide ClockOk, LatchOk, ChainOk, RecordOk, CanUpdate, CanDelete, Unstamped, UpdateRow, DeleteRow, InsertRow;
    StampedChain(s, t, r, i);
    var row := s.rows[r];
    var stamped := Stamped(row, i, s.txns[t].commit);
    assert LogOk(stamped) by {
      assert LogOk(row);
      forall j | 0 <= j < |stamped.chain|
        ensures Links(stamped.chain[j], stamped.log[|stamped.chain| - j], stamped.log[|stamped.chain| - j - 1])
      {
        assert Links(row.chain[j], row.log[|row.chain| - j], row.log[|row.chain| - j - 1]);
      }
    }
    RowReplaced(s, Do(s, Restamp(t, r, i)), r, stamped);
  }

  // ---- runs ----

  lemma StepKeeps(s: State, step: Step)
    requires Inv(s) && Enabled(s, step)
    ensures Inv(Do(s, step))
  {
    hide Inv, Enabled, Do;
    match step
    case BeginTick(t) => BeginTickKeeps(s, t);
    case BeginPass(t) => BeginPassKeeps(s, t);
    case ReleaseLatch(t) => ReleaseLatchKeeps(s, t);
    case Restamp(t, r, i) => RestampKeeps(s, t, r, i);
    case TakeLatch(t) => TakeLatchKeeps(s, t);
    case CommitTick(t) => CommitTickKeeps(s, t);
    case Abort(t) => AbortKeeps(s, t);
    case InsertInto(t, r, cells) => WriteKeeps(s, step);
    case UpdateIn(t, r, values) => WriteKeeps(s, step);
    case DeleteFrom(t, r, page) => WriteKeeps(s, step);
  }

  lemma InitOk(s: State)
    requires Init(s)
    ensures Inv(s)
  {
    assert Holders(s) == {};
  }

  lemma {:induction false} RunKeeps(init: State, steps: seq<Step>, s: State)
    requires Runs(init, steps, s)
    ensures Inv(s)
    decreases |steps|
  {
    hide Inv, Enabled, Do, Init;
    if steps == [] {
      InitOk(s);
    } else {
      var n := |steps| - 1;
      var mid :| Runs(init, steps[..n], mid) && Enabled(mid, steps[n]) && s == Do(mid, steps[n]);
      RunKeeps(init, steps[..n], mid);
      StepKeeps(mid, steps[n]);
    }
  }
}
