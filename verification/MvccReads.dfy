/** What the invariant is for: snapshots, repeatable reads, invisible restamping, no lost updates. */
module MvccReads {
  import opened Mvcc
  import opened MvccSafety

  // ---- the order on a chain ----

  /** For i newer than j: stamps do not increase downwards, and another writer's record was committed
      before the newer writer began. */
  lemma {:induction false} OlderOnChain(s: State, chain: seq<Record>, i: nat, j: nat)
    requires ClockOk(s) && ChainOk(s, chain) && i < j < |chain|
    ensures chain[i].stamp >= chain[j].stamp
    ensures chain[i].owner != chain[j].owner ==> Settled(s, chain[j], chain[i].owner)
    decreases j
  {
    assert RecordOk(s, chain[i]) && RecordOk(s, chain[j - 1]) && RecordOk(s, chain[j]);
    assert NeighboursOk(s, chain[j - 1], chain[j]);
    if i < j - 1 {
      OlderOnChain(s, chain, i, j - 1);
    }
  }

  /** No lost updates: of two writers of one row, one had committed when the other began; so at most one
      of them is uncommitted, and its records are the newest. */
  lemma WritersAreSerial(s: State, r: RowId, i: nat, j: nat)
    requires Inv(s) && r in s.rows && i < |s.rows[r].chain| && j < |s.rows[r].chain|
    requires s.rows[r].chain[i].owner != s.rows[r].chain[j].owner
    ensures var x, y := s.rows[r].chain[i], s.rows[r].chain[j];
      && (i < j <==> Settled(s, y, x.owner)) && (j < i <==> Settled(s, x, y.owner))
      && (i < j ==> IsCommitted(y.stamp) && y.stamp <= x.stamp)
  {
    var chain := s.rows[r].chain;
    assert ChainOk(s, chain);
    assert RecordOk(s, chain[i]) && RecordOk(s, chain[j]);
    if i < j {
      OlderOnChain(s, chain, i, j);
    } else {
      OlderOnChain(s, chain, j, i);
    }
  }

  /** First writer wins: a write goes through just when the newest record is the writer's own, or was
      committed before the writer began; and the page does not hold the row for deleted. */
  lemma FirstWriterWins(s: State, t: Txn, r: RowId)
    requires Inv(s) && IsRunning(s, t) && r in s.rows && s.rows[r].chain != []
    ensures var row := s.rows[r]; var e := row.chain[0];
      && (CanUpdate(row, t) <==> (e.owner == t || Settled(s, e, t)) && !row.bitmap)
      && (CanDelete(row, t, true) <==> (e.owner == t || Settled(s, e, t)) && !row.bitmap)
      && (CanDelete(row, t, false) <==> (e.owner == t || Settled(s, e, t)) && !e.kind.Delete?)
  {
    assert ChainOk(s, s.rows[r].chain);
    ConflictDecides(s, s.rows[r].chain, t);
  }

  // ---- steps and rows ----

  /** The step puts a record in front of the chain of row r. */
  ghost predicate Pushes(step: Step, r: RowId) {
    (step.UpdateIn? || step.DeleteFrom?) && step.r == r
  }

  ghost predicate Ends(step: Step, t: Txn) {
    (step.TakeLatch? || step.Abort?) && step.t == t
  }

  lemma RunsOn(s: State, step: Step, t: Txn)
    requires ClockOk(s) && Enabled(s, step) && IsRunning(s, t) && !Ends(step, t)
    ensures IsRunning(Do(s, step), t)
  {
  }

  lemma ClockOf(s: State)
    requires Inv(s)
    ensures ClockOk(s)
  {
  }

  lemma SameButStamp(s: State, step: Step, r: RowId)
    requires Enabled(s, step) && r in s.rows && !Pushes(step, r)
    ensures r in Do(s, step).rows
    ensures var a, b := s.rows[r], Do(s, step).rows[r];
      && b.cells == a.cells && b.bitmap == a.bitmap && |b.chain| == |a.chain|
      && forall i | 0 <= i < |a.chain| :: b.chain[i].kind == a.chain[i].kind && b.chain[i].owner == a.chain[i].owner
  {
    hide CanUpdate, CanDelete, Unstamped, UpdateRow, DeleteRow, InsertRow;
    if !(step.Restamp? && step.r == r) {
      assert Do(s, step).rows[r] == s.rows[r];
    }
  }

  // ---- what a reader should see ----

  /** How many of the newest records had not been committed when t began. */
  ghost function Unsettled(s: State, chain: seq<Record>, t: Txn): (n: nat)
    ensures n <= |chain|
    ensures forall i | 0 <= i < n :: !Settled(s, chain[i], t)
    ensures n < |chain| ==> Settled(s, chain[n], t)
  {
    if chain == [] || Settled(s, chain[0], t) then 0 else 1 + Unsettled(s, chain[1..], t)
  }

  /** The image t should see: the newest one if t wrote the row last, else the one after all the commits
      before its start. */
  ghost function SeenBy(s: State, row: Row, t: Txn): Image
    requires LogOk(row)
  {
    if row.chain != [] && row.chain[0].owner == t then row.log[|row.chain|]
    else row.log[|row.chain| - Unsettled(s, row.chain, t)]
  }

  /** The records from Unsettled on are just those committed before t began. */
  lemma SettledIsSuffix(s: State, chain: seq<Record>, t: Txn, i: nat)
    requires ClockOk(s) && ChainOk(s, chain) && i < |chain|
    ensures Settled(s, chain[i], t) <==> Unsettled(s, chain, t) <= i
  {
    var n := Unsettled(s, chain, t);
    if n < i {
      OlderOnChain(s, chain, n, i);
    }
  }

  /** The stamp tells a running reader what it needs: commits older than it are fully stamped, and no other
      record looks older, however far a commit has got with its restamping. */
  lemma NewerIffUnsettled(s: State, e: Record, t: Txn)
    requires ClockOk(s) && LatchOk(s) && RecordOk(s, e) && IsRunning(s, t)
    ensures IsNewerThan(e.stamp, t) <==> !Settled(s, e, t)
    ensures e.stamp == Uncommitted(t) <==> e.owner == t
  {
  }

  lemma {:induction false} UndoFindsImage(s: State, chain: seq<Record>, log: seq<Image>, t: Txn, cols: set<Col>)
    requires |log| == |chain| + 1 && log[|chain|].Present?
    requires forall i | 0 <= i < |chain| :: Links(chain[i], log[|chain| - i], log[|chain| - i - 1])
    requires forall i | 0 <= i < |chain| :: IsNewerThan(chain[i].stamp, t) <==> !Settled(s, chain[i], t)
    ensures var seen := log[|chain| - Unsettled(s, chain, t)];
      var (cells, there) := Undo(chain, Restrict(log[|chain|].cells, cols), t);
      && (there <==> seen.Present?)
      && (there ==> cells == Restrict(seen.cells, cols))
    decreases |chain|
  {
    if chain != [] && !Settled(s, chain[0], t) {
      var n := |chain|;
      assert Links(chain[0], log[n], log[n - 1]);
      forall i | 0 <= i < n - 1 ensures Links(chain[1..][i], log[..n][n - 1 - i], log[..n][n - 1 - i - 1]) {
        assert Links(chain[i + 1], log[n - (i + 1)], log[n - (i + 1) - 1]);
      }
      assert n > 1 ==> Links(chain[1], log[n - 1], log[n - 2]);
      if !chain[0].kind.Insert? {
        UndoFindsImage(s, chain[1..], log[..n], t, cols);
        if chain[0].kind.Update? {
          MergeRestricted(log[n].cells, chain[0].delta, cols);
        }
      }
    }
  }

  lemma MergeRestricted(cells: Cells, delta: Cells, cols: set<Col>)
    ensures Merge(Restrict(cells, cols), delta) == Restrict(Merge(cells, delta), cols)
  {
  }

  /** Snapshot reads are right, for every chain and every choice of columns. */
  lemma SnapshotCorrect(s: State, t: Txn, r: RowId, cols: set<Col>)
    requires Inv(s) && IsRunning(s, t) && r in s.rows
    ensures var seen := SeenBy(s, s.rows[r], t);
      var (cells, status) := Select(s.rows[r], t, cols);
      && (status.NotVisible? <==> seen.Absent?)
      && (seen.Present? ==> cells == Restrict(seen.cells, cols))
  {
    hide LatchOk, ClockOk;
    var row := s.rows[r];
    ReaderView(s, t, r);
    UndoFindsImage(s, row.chain, row.log, t, cols);
  }

  lemma ReaderView(s: State, t: Txn, r: RowId)
    requires Inv(s) && IsRunning(s, t) && r in s.rows
    ensures LogOk(s.rows[r])
    ensures forall i | 0 <= i < |s.rows[r].chain| ::
      var e := s.rows[r].chain[i];
      (IsNewerThan(e.stamp, t) <==> !Settled(s, e, t)) && (e.stamp == Uncommitted(t) <==> e.owner == t)
  {
    hide LatchOk, ClockOk, Settled;
    var chain := s.rows[r].chain;
    assert ChainOk(s, chain);
    forall i | 0 <= i < |chain|
      ensures IsNewerThan(chain[i].stamp, t) <==> !Settled(s, chain[i], t)
      ensures chain[i].stamp == Uncommitted(t) <==> chain[i].owner == t
    {
      NewerIffUnsettled(s, chain[i], t);
    }
  }

  // ---- deletion status ----

  /** A delete is the last thing that happens to a row: update and delete go to rows found through an
      index, which are not deleted. */
  ghost predicate Careful(s: State, step: Step) {
    step.UpdateIn? || step.DeleteFrom? ==> step.r in s.rows && !IsDeleted(s.rows[step.r])
  }

  ghost predicate DeleteIsLast(row: Row) {
    forall k | 0 <= k < |row.log| - 1 :: row.log[k].Present? ==> !row.log[k].deleted
  }

  ghost predicate DeletesLast(s: State) {
    forall r | r in s.rows :: DeleteIsLast(s.rows[r])
  }

  lemma CarefulKeeps(s: State, step: Step)
    requires Inv(s) && Enabled(s, step) && Careful(s, step) && DeletesLast(s)
    ensures DeletesLast(Do(s, step))
  {
    hide ClockOk, LatchOk, ChainOk;
    var u := Do(s, step);
    forall r | r in u.rows ensures DeleteIsLast(u.rows[r]) {
      if r in s.rows {
        assert DeleteIsLast(s.rows[r]) && LogOk(s.rows[r]);
      }
    }
  }

  /** The record at which a reader's walk down the chain stops: the head if it is its own, else the first that is not
      newer than the reader. */
  ghost function Stop(chain: seq<Record>, t: Txn): (n: nat)
    ensures n <= |chain|
  {
    if chain == [] || chain[0].stamp == Uncommitted(t) || !IsNewerThan(chain[0].stamp, t) then 0
    else 1 + Walk(chain[1..], t)
  }

  ghost function Walk(chain: seq<Record>, t: Txn): (n: nat)
    ensures n <= |chain|
  {
    if chain == [] || !IsNewerThan(chain[0].stamp, t) then 0 else 1 + Walk(chain[1..], t)
  }

  /** Whether the row was deleted where the walk stops. */
  ghost predicate DeletedAt(row: Row, n: nat)
    requires LogOk(row) && n <= |row.chain|
  {
    if n < |row.chain| then row.chain[n].kind.Delete? else row.log[0].Present? && row.log[0].deleted
  }

  lemma {:induction false} WalkIsUnsettled(s: State, chain: seq<Record>, t: Txn)
    requires forall i | 0 <= i < |chain| :: IsNewerThan(chain[i].stamp, t) <==> !Settled(s, chain[i], t)
    ensures Walk(chain, t) == Unsettled(s, chain, t)
    decreases |chain|
  {
    hide Settled;
    if chain != [] {
      assert IsNewerThan(chain[0].stamp, t) <==> !Settled(s, chain[0], t);
      WalkIsUnsettled(s, chain[1..], t);
    }
  }

  lemma StopIsSeen(s: State, t: Txn, r: RowId)
    requires Inv(s) && IsRunning(s, t) && r in s.rows
    ensures LogOk(s.rows[r])
    ensures SeenBy(s, s.rows[r], t) == s.rows[r].log[|s.rows[r].chain| - Stop(s.rows[r].chain, t)]
  {
    hide ClockOk, LatchOk, ChainOk, Settled, LogOk;
    ReaderView(s, t, r);
    WalkIsUnsettled(s, s.rows[r].chain, t);
  }

  lemma LogDeleted(row: Row, n: nat)
    requires LogOk(row) && n <= |row.chain| && row.log[|row.chain| - n].Present?
    ensures row.log[|row.chain| - n].deleted <==> DeletedAt(row, n)
  {
    if n < |row.chain| {
      assert Links(row.chain[n], row.log[|row.chain| - n], row.log[|row.chain| - n - 1]);
    }
  }

  /** For every chain: the status told to a reader who should see the row is right exactly when the row's newest state
      and the one where the walk stops are both deleted, or both not. */
  lemma StatusExact(s: State, t: Txn, r: RowId, cols: set<Col>)
    requires Inv(s) && IsRunning(s, t) && r in s.rows
    requires SeenBy(s, s.rows[r], t).Present?
    ensures var row := s.rows[r];
      (Select(row, t, cols).1.Deleted? <==> SeenBy(s, row, t).deleted)
      <==> (IsDeleted(row) <==> DeletedAt(row, Stop(row.chain, t)))
  {
    hide ClockOk, LatchOk, ChainOk, LogOk, SeenBy, Stop, DeletedAt, IsDeleted, Undo;
    SnapshotCorrect(s, t, r, cols);
    StopIsSeen(s, t, r);
    LogDeleted(s.rows[r], Stop(s.rows[r].chain, t));
  }

  /** Where deletes come last, that is except in just one case: the head of the chain is a delete that is newer than
      the reader and not its own. */
  lemma StatusWhereDeletesLast(s: State, t: Txn, r: RowId, cols: set<Col>)
    requires Inv(s) && IsRunning(s, t) && r in s.rows && DeleteIsLast(s.rows[r])
    requires SeenBy(s, s.rows[r], t).Present?
    ensures var row := s.rows[r];
      (Select(row, t, cols).1.Deleted? <==> SeenBy(s, row, t).deleted)
      <==> !(row.chain != [] && row.chain[0].kind.Delete? && row.chain[0].owner != t && IsNewerThan(row.chain[0].stamp, t))
  {
    hide ClockOk, LatchOk, ChainOk;
    SnapshotCorrect(s, t, r, cols);
    ReaderView(s, t, r);
  }

  /** Such a case: transaction 1 deletes a row while transaction 0 is running, and transaction 0, which
      should see the row as it was, is told it is deleted. */
  lemma StatusFails() returns (init: State, steps: seq<Step>, s: State)
    ensures Runs(init, steps, s) && DeletesLast(s)
    ensures IsRunning(s, 0) && 0 in s.rows && LogOk(s.rows[0])
    ensures SeenBy(s, s.rows[0], 0) == Present(map[0 := 7], false)
    ensures Select(s.rows[0], 0, {0}) == (map[0 := 7], Deleted)
  {
    hide Undo, Select, Unsettled, SeenBy, LogOk, Restrict, IsDeleted, DeleteRow;
    var old' := Row(map[0 := 7], false, [], [Present(map[0 := 7], false)]);
    init := State(0, 0, map[], map[0 := old']);
    steps, s := [], init;
    s, steps := Start(init, steps, s, 0);
    s, steps := Start(init, steps, s, 1);
    assert s == State(2, 0, map[0 := Running, 1 := Running], map[0 := old']);
    assert CanDelete(old', 1, false);
    s, steps := Extend(init, steps, s, DeleteFrom(1, 0, false));
    SkippedDelete(s, map[0 := 7]);
  }

  lemma Start(init: State, steps: seq<Step>, s: State, t: Txn) returns (u: State, more: seq<Step>)
    requires Runs(init, steps, s) && s.time == t < 100 && s.latch == 0
    ensures Runs(init, more, u) && u == s.(time := t + 1, txns := s.txns[t := Running])
  {
    u, more := Extend(init, steps, s, BeginTick(t));
    u, more := Extend(init, more, u, BeginPass(t));
    assert s.txns[t := Begun][t := Running] == s.txns[t := Running];
  }

  lemma SkippedDelete(s: State, cells: Cells)
    requires s == State(2, 0, map[0 := Running, 1 := Running],
               map[0 := DeleteRow(Row(cells, false, [], [Present(cells, false)]), 1, false)])
    requires cells == map[0 := 7]
    ensures DeletesLast(s) && LogOk(s.rows[0]) && SeenBy(s, s.rows[0], 0) == Present(cells, false)
    ensures Select(s.rows[0], 0, {0}) == (cells, Deleted)
  {
    var chain := s.rows[0].chain;
    assert chain == [Record(Delete, Uncommitted(1), 1, map[])];
    assert Unsettled(s, chain, 0) == 1;
    assert Restrict(cells, {0}) == cells;
    assert Undo(chain[1..], cells, 0) == (cells, true);
  }

  /** The other case: a row with a committed raw delete is updated, which the page's deletion bit does not prevent. A
      reader from between the two, who should see the row deleted, is told that it is visible. */
  lemma StatusAfterRevival() returns (init: State, steps: seq<Step>, s: State)
    ensures Runs(init, steps, s)
    ensures IsRunning(s, 2) && 0 in s.rows && LogOk(s.rows[0])
    ensures SeenBy(s, s.rows[0], 2) == Present(map[0 := 7], true)
    ensures Select(s.rows[0], 2, {0}) == (map[0 := 7], Visible)
  {
    hide Undo, Select, Unsettled, SeenBy, LogOk, Restrict, IsDeleted, Unstamped, Runs;
    var cells: Cells := map[0 := 7];
    init, steps, s := DeletedRow(cells);
    s, steps := Start(init, steps, s, 2);
    s, steps := Start(init, steps, s, 3);
    var row := s.rows[0];
    assert s == State(4, 0, map[0 := Committed(1), 2 := Running, 3 := Running], map[0 := row]);
    assert CanUpdate(row, 3);
    s, steps := Extend(init, steps, s, UpdateIn(3, 0, map[0 := 9]));
    assert s == State(4, 0, map[0 := Committed(1), 2 := Running, 3 := Running], map[0 := UpdateRow(row, 3, map[0 := 9])]);
    RevivedRow(s, row, cells);
  }

  /** Transaction 0 deletes the row, leaving the page's deletion bit alone, and commits. */
  lemma DeletedRow(cells: Cells) returns (init: State, steps: seq<Step>, s: State)
    ensures Runs(init, steps, s) && init == State(0, 0, map[], map[0 := Row(cells, false, [], [Present(cells, false)])])
    ensures s == State(2, 0, map[0 := Committed(1)],
      map[0 := Row(cells, false, [Record(Delete, 1, 0, map[])], [Present(cells, false), Present(cells, true)])])
  {
    hide IsDeleted, Unstamped;
    var old' := Row(cells, false, [], [Present(cells, false)]);
    init := State(0, 0, map[], map[0 := old']);
    steps, s := [], init;
    s, steps := Start(init, steps, s, 0);
    assert CanDelete(old', 0, false);
    s, steps := Extend(init, steps, s, DeleteFrom(0, 0, false));
    assert s.rows[0].chain == [Record(Delete, Uncommitted(0), 0, map[])];
    assert s.rows[0].log == [Present(cells, false), Present(cells, true)];
    s, steps := CommitOne(init, steps, s);
  }

  /** Transaction 0 commits the one record it has. */
  lemma CommitOne(init: State, steps: seq<Step>, s: State) returns (u: State, more: seq<Step>)
    requires Runs(init, steps, s) && s.time == 1 && s.latch == 0 && s.txns == map[0 := Running]
    requires s.rows.Keys == {0} && s.rows[0].chain == [Record(Delete, Uncommitted(0), 0, map[])]
    ensures Runs(init, more, u)
    ensures u == State(2, 0, map[0 := Committed(1)], map[0 := s.rows[0].(chain := [Record(Delete, 1, 0, map[])])])
  {
    hide Runs, Unstamped;
    u, more := Extend(init, steps, s, TakeLatch(0));
    u, more := Extend(init, more, u, CommitTick(0));
    assert u == State(2, 1, map[0 := Committing(1)], s.rows);
    u, more := Extend(init, more, u, Restamp(0, 0, 0));
    assert s.rows[0].chain[0 := Record(Delete, 1, 0, map[])] == [Record(Delete, 1, 0, map[])];
    assert u.rows[0] == s.rows[0].(chain := [Record(Delete, 1, 0, map[])]);
    assert u.rows == map[0 := s.rows[0].(chain := [Record(Delete, 1, 0, map[])])];
    AllStamped(u);
    u, more := Extend(init, more, u, ReleaseLatch(0));
  }

  lemma AllStamped(s: State)
    requires s.rows.Keys == {0} && s.rows[0].chain == [Record(Delete, 1, 0, map[])]
    ensures forall r :: !Unstamped(s, 0, r)
  {
  }

  lemma RevivedRow(s: State, row: Row, cells: Cells)
    requires cells == map[0 := 7]
    requires row == Row(cells, false, [Record(Delete, 1, 0, map[])], [Present(cells, false), Present(cells, true)])
    requires s == State(4, 0, map[0 := Committed(1), 2 := Running, 3 := Running], map[0 := UpdateRow(row, 3, map[0 := 9])])
    ensures LogOk(s.rows[0]) && SeenBy(s, s.rows[0], 2) == Present(cells, true)
    ensures Select(s.rows[0], 2, {0}) == (cells, Visible)
  {
    var u := s.rows[0];
    assert Restrict(cells, {0}) == cells && Merge(cells, map[0 := 9]) == map[0 := 9];
    assert (map[0 := 9]).Keys == {0};
    assert u.chain == [Record(Update, Uncommitted(3), 3, cells), Record(Delete, 1, 0, map[])];
    assert u.cells == map[0 := 9];
    assert u.log == [Present(cells, false), Present(cells, true), Present(u.cells, false)];
    assert Merge(u.cells, cells) == cells;
    assert u.chain[1..] == [u.chain[1]];
    assert Unsettled(s, u.chain[1..], 2) == 0 && Unsettled(s, u.chain, 2) == 1;
    assert Restrict(u.cells, {0}) == u.cells;
    assert Undo(u.chain[1..], cells, 2) == (cells, true);
    assert Undo(u.chain, u.cells, 2) == (cells, true);
  }

  lemma Extend(init: State, steps: seq<Step>, s: State, step: Step) returns (u: State, more: seq<Step>)
    requires Runs(init, steps, s) && Enabled(s, step)
    ensures u == Do(s, step) && more == steps + [step] && Runs(init, more, u)
  {
    hide Enabled, Do;
    u, more := Do(s, step), steps + [step];
    assert more[..|steps|] == steps;
  }

  // ---- repeatable reads ----

  /** A step of others, or of t on other rows. */
  ghost predicate Elsewhere(step: Step, t: Txn, r: RowId) {
    && !((step.TakeLatch? || step.Abort?) && step.t == t)
    && !((step.UpdateIn? || step.DeleteFrom?) && step.t == t && step.r == r)
  }

  lemma SameSettled(s: State, u: State, chain: seq<Record>, t: Txn)
    requires forall i | 0 <= i < |chain| :: Settled(u, chain[i], t) <==> Settled(s, chain[i], t)
    ensures Unsettled(u, chain, t) == Unsettled(s, chain, t)
  {
    var n, m := Unsettled(s, chain, t), Unsettled(u, chain, t);
    assert n < |chain| ==> Settled(u, chain[n], t);
    assert m < |chain| ==> Settled(s, chain[m], t);
  }

  /** Nobody who commits while t runs gets to count as settled for t. */
  lemma SettledStays(s: State, step: Step, t: Txn, e: Record)
    requires Inv(s) && Enabled(s, step) && IsRunning(s, t)
    ensures Settled(Do(s, step), e, t) <==> Settled(s, e, t)
  {
    hide RowsOk;
  }

  lemma PushedImage(s: State, row: Row, e: Record, newer: Row, t: Txn)
    requires LogOk(row) && LogOk(newer) && newer.chain == [e] + row.chain && row.log == newer.log[..|row.log|]
    requires e.owner != t && !Settled(s, e, t)
    requires row.chain == [] || row.chain[0].owner != t
    ensures SeenBy(s, newer, t) == SeenBy(s, row, t)
  {
    assert newer.chain[1..] == row.chain;
  }

  lemma RunningStays(s: State, step: Step, t: Txn, r: RowId)
    requires ClockOk(s) && Enabled(s, step) && Elsewhere(step, t, r) && IsRunning(s, t)
    ensures IsRunning(Do(s, step), t)
  {
  }

  lemma PushRepeats(s: State, step: Step, t: Txn, r: RowId)
    requires Inv(s) && Enabled(s, step) && IsRunning(s, t) && Inv(Do(s, step))
    requires (step.UpdateIn? || step.DeleteFrom?) && step.r == r && step.t != t
    ensures SeenBy(Do(s, step), Do(s, step).rows[r], t) == SeenBy(Do(s, step), s.rows[r], t)
  {
    hide ClockOk, LatchOk, ChainOk, Settled, LogOk;
    var u := Do(s, step);
    OthersCannotPush(s, step, t, r);
    assert u.rows[r].chain == [u.rows[r].chain[0]] + s.rows[r].chain;
    assert s.rows[r].log == u.rows[r].log[..|s.rows[r].log|];
    PushedImage(u, s.rows[r], u.rows[r].chain[0], u.rows[r], t);
  }

  lemma StampRepeats(s: State, row: Row, i: nat, stamp: nat, t: Txn)
    requires i < |row.chain| && LogOk(row) && LogOk(Stamped(row, i, stamp))
    ensures SeenBy(s, Stamped(row, i, stamp), t) == SeenBy(s, row, t)
  {
    hide Settled;
    SameOwners(s, row.chain, Stamped(row, i, stamp).chain, t);
  }

  lemma SettledRepeats(s: State, u: State, row: Row, t: Txn)
    requires LogOk(row) && forall e :: Settled(u, e, t) <==> Settled(s, e, t)
    ensures SeenBy(u, row, t) == SeenBy(s, row, t)
  {
    hide Settled;
    SameSettled(s, u, row.chain, t);
  }

  lemma StepRepeats(s: State, step: Step, t: Txn, r: RowId)
    requires Inv(s) && Enabled(s, step) && Elsewhere(step, t, r) && IsRunning(s, t) && r in s.rows
    ensures Inv(Do(s, step)) && IsRunning(Do(s, step), t) && r in Do(s, step).rows
    ensures SeenBy(Do(s, step), Do(s, step).rows[r], t) == SeenBy(s, s.rows[r], t)
  {
    hide ClockOk, LatchOk, ChainOk, Settled, SeenBy, LogOk, Unsettled;
    StepKeeps(s, step);
    RunningStays(s, step, t, r);
    var u := Do(s, step);
    forall e ensures Settled(u, e, t) <==> Settled(s, e, t) {
      SettledStays(s, step, t, e);
    }
    SettledRepeats(s, u, s.rows[r], t);
    if (step.UpdateIn? || step.DeleteFrom?) && step.r == r {
      PushRepeats(s, step, t, r);
    } else if step.Restamp? && step.r == r {
      assert Inv(u) && LogOk(u.rows[r]) && u.rows[r] == Stamped(s.rows[r], step.i, s.txns[step.t].commit);
      StampRepeats(u, s.rows[r], step.i, s.txns[step.t].commit, t);
    } else {
      assert u.rows[r] == s.rows[r];
    }
  }

  lemma SameOwners(s: State, a: seq<Record>, b: seq<Record>, t: Txn)
    requires |a| == |b| && forall i | 0 <= i < |a| :: a[i].owner == b[i].owner
    ensures Unsettled(s, a, t) == Unsettled(s, b, t)
  {
    assert forall i | 0 <= i < |a| :: Settled(s, a[i], t) <==> Settled(s, b[i], t);
  }

  lemma OthersCannotPush(s: State, step: Step, t: Txn, r: RowId)
    requires Inv(s) && Enabled(s, step) && (step.UpdateIn? || step.DeleteFrom?) && step.t != t && step.r == r
    requires IsRunning(s, t)
    ensures s.rows[r].chain == [] || s.rows[r].chain[0].owner != t
    ensures !Settled(Do(s, step), Do(s, step).rows[r].chain[0], t)
  {
    var chain := s.rows[r].chain;
    if chain != [] {
      assert ChainOk(s, chain);
      ConflictDecides(s, chain, step.t);
    }
  }

  ghost predicate Along(s: State, steps: seq<Step>, u: State)
    decreases |steps|
  {
    if steps == [] then u == s
    else Enabled(s, steps[0]) && Along(Do(s, steps[0]), steps[1..], u)
  }

  /** Repeated reads agree: as long as t only runs and does not write the row, it reads the same, whatever
      the others do. */
  lemma {:induction false} RepeatableRead(s: State, steps: seq<Step>, u: State, t: Txn, r: RowId, cols: set<Col>)
    requires Inv(s) && Along(s, steps, u) && IsRunning(s, t) && r in s.rows
    requires forall i | 0 <= i < |steps| :: Elsewhere(steps[i], t, r)
    ensures Inv(u) && IsRunning(u, t) && r in u.rows
    ensures SeenBy(u, u.rows[r], t) == SeenBy(s, s.rows[r], t)
    ensures Select(u.rows[r], t, cols).1.NotVisible? <==> Select(s.rows[r], t, cols).1.NotVisible?
    ensures !Select(s.rows[r], t, cols).1.NotVisible? ==> Select(u.rows[r], t, cols).0 == Select(s.rows[r], t, cols).0
    decreases |steps|
  {
    hide Enabled, Do, Select, SeenBy, ClockOk, LatchOk, ChainOk, Elsewhere;
    if steps != [] {
      assert Elsewhere(steps[0], t, r);
      StepRepeats(s, steps[0], t, r);
      forall i | 0 <= i < |steps[1..]| ensures Elsewhere(steps[1..][i], t, r) {
        assert Elsewhere(steps[i + 1], t, r);
      }
      RepeatableRead(Do(s, steps[0]), steps[1..], u, t, r, cols);
    }
    SnapshotCorrect(s, t, r, cols);
    SnapshotCorrect(u, t, r, cols);
  }

  // ---- restamping ----

  /** The same row with its owners' restamping at another point. */
  ghost predicate SameButStamps(a: Row, b: Row) {
    && a.cells == b.cells && a.bitmap == b.bitmap && |a.chain| == |b.chain|
    && forall i | 0 <= i < |a.chain| :: a.chain[i].(stamp := 0) == b.chain[i].(stamp := 0)
  }

  lemma {:induction false} UndoIgnoresStamps(a: seq<Record>, b: seq<Record>, chunk: Cells, t: Txn)
    requires |a| == |b|
    requires forall i | 0 <= i < |a| :: a[i].(stamp := 0) == b[i].(stamp := 0)
    requires forall i | 0 <= i < |a| :: IsNewerThan(a[i].stamp, t) <==> IsNewerThan(b[i].stamp, t)
    ensures Undo(a, chunk, t) == Undo(b, chunk, t)
    decreases |a|
  {
    if a != [] && IsNewerThan(a[0].stamp, t) {
      assert a[0].(stamp := 0) == b[0].(stamp := 0);
      assert a[0].kind == b[0].kind && a[0].delta == b[0].delta;
      forall i | 0 <= i < |a| - 1 ensures a[1..][i].(stamp := 0) == b[1..][i].(stamp := 0) {
        assert a[i + 1].(stamp := 0) == b[i + 1].(stamp := 0);
      }
      match a[0].kind
      case Update => UndoIgnoresStamps(a[1..], b[1..], Merge(chunk, a[0].delta), t);
      case Insert =>
      case Delete => UndoIgnoresStamps(a[1..], b[1..], chunk, t);
    }
  }

  /** Restamping one record at a time is invisible: whatever a running transaction reads or tests comes out
      the same, however far the commits under way have got. */
  lemma RestampInvisible(s: State, a: Row, b: Row, t: Txn, cols: set<Col>, page: bool)
    requires ClockOk(s) && LatchOk(s) && IsRunning(s, t)
    requires ChainOk(s, a.chain) && ChainOk(s, b.chain) && SameButStamps(a, b)
    ensures Select(a, t, cols) == Select(b, t, cols)
    ensures (CanUpdate(a, t) <==> CanUpdate(b, t)) && (CanDelete(a, t, page) <==> CanDelete(b, t, page))
    ensures Conflicts(a.chain, t) <==> Conflicts(b.chain, t)
  {
    hide ClockOk, LatchOk, Settled;
    forall i | 0 <= i < |a.chain|
      ensures IsNewerThan(a.chain[i].stamp, t) <==> IsNewerThan(b.chain[i].stamp, t)
      ensures a.chain[i].stamp == Uncommitted(t) <==> b.chain[i].stamp == Uncommitted(t)
      ensures a.chain[i].kind == b.chain[i].kind && a.chain[i].owner == b.chain[i].owner
    {
      assert a.chain[i].(stamp := 0) == b.chain[i].(stamp := 0);
      assert a.chain[i].owner == b.chain[i].owner;
      assert RecordOk(s, a.chain[i]) && RecordOk(s, b.chain[i]);
      NewerIffUnsettled(s, a.chain[i], t);
      NewerIffUnsettled(s, b.chain[i], t);
      assert Settled(s, a.chain[i], t) <==> Settled(s, b.chain[i], t) by {
        SettledByOwner(s, a.chain[i], b.chain[i], t);
      }
    }
    UndoIgnoresStamps(a.chain, b.chain, Restrict(a.cells, cols), t);
    if a.chain != [] {
      ConflictDecides(s, a.chain, t);
      ConflictDecides(s, b.chain, t);
      SettledByOwner(s, a.chain[0], b.chain[0], t);
    }
  }

  lemma SettledByOwner(s: State, d: Record, e: Record, t: Txn)
    requires d.owner == e.owner
    ensures Settled(s, d, t) <==> Settled(s, e, t)
  {
  }

  /** In particular a commit seen half stamped reads as if all its records were stamped at once. */
  lemma RestampStepInvisible(s: State, v: Txn, r: RowId, i: nat, t: Txn, x: RowId, cols: set<Col>, page: bool)
    requires Inv(s) && Enabled(s, Restamp(v, r, i)) && IsRunning(s, t) && x in s.rows
    ensures var row, again := s.rows[x], Do(s, Restamp(v, r, i)).rows[x];
      && Select(again, t, cols) == Select(row, t, cols)
      && (CanUpdate(again, t) <==> CanUpdate(row, t)) && (CanDelete(again, t, page) <==> CanDelete(row, t, page))
  {
    hide Select, CanUpdate, CanDelete, Conflicts;
    if x == r {
      StampedChain(s, v, r, i);
      RestampInvisible(s, Do(s, Restamp(v, r, i)).rows[r], s.rows[r], t, cols, page);
    }
  }
}
