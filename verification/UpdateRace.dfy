/** An update as the two steps it is: the old values are saved and the row is overwritten; then the record goes in front of
    the version chain by compare-and-swap, or everything is tried again if the chain's head has moved. The page's data latch
    keeps other updates, page deletes and reads away from the row in between, but not raw deletes. */
module UpdateRace {
  import opened Mvcc
  import opened MvccSafety
  import opened MvccReads

  /** An update under way. delta: what it has saved; seen: the length of the chain whose head it read last; from: of the one
      it read first. */
  datatype Work = Work(t: Txn, values: Cells, delta: Cells, seen: nat, from: nat)

  /** m: the rows as if an update had not touched them until its record is on the chain. page: the cells as they are. */
  datatype Race = Race(m: State, page: map<RowId, Cells>, work: map<RowId, Work>)

  /** The row as it is. */
  ghost function Real(x: Race, r: RowId): Row
    requires r in x.m.rows && r in x.page
  {
    x.m.rows[r].(cells := x.page[r])
  }

  /** The row with the update's record in front. */
  function Pushed(row: Row, cells: Cells, t: Txn, delta: Cells): Row {
    Row(cells, row.bitmap, [Record(Update, Uncommitted(t), t, delta)] + row.chain, row.log + [Present(cells, false)])
  }

  // ---- steps ----

  ghost predicate Save(x: Race, y: Race, t: Txn, r: RowId, values: Cells) {
    && r !in x.work && IsRunning(x.m, t) && r in x.m.rows && r in x.page
    && values.Keys <= x.m.rows[r].cells.Keys && CanUpdate(x.m.rows[r], t)
    && var n := |x.m.rows[r].chain|;
       y == Race(x.m, x.page[r := Merge(x.page[r], values)],
                 x.work[r := Work(t, values, Restrict(x.page[r], values.Keys), n, n)])
  }

  ghost predicate Working(x: Race, r: RowId) {
    r in x.work && r in x.m.rows && r in x.page
  }

  ghost predicate HeadMoved(x: Race, r: RowId) {
    Working(x, r) && |x.m.rows[r].chain| != x.work[r].seen
  }

  /** The swap succeeds. */
  ghost predicate Swap(x: Race, y: Race, r: RowId) {
    && Working(x, r) && !HeadMoved(x, r)
    && var w := x.work[r];
       y == Race(x.m.(rows := x.m.rows[r := Pushed(x.m.rows[r], x.page[r], w.t, w.delta)]), x.page, x.work - {r})
  }

  /** It fails, the test passes once more, and values are saved and written once more. */
  ghost predicate SaveAgain(x: Race, y: Race, r: RowId) {
    && HeadMoved(x, r) && CanUpdate(x.m.rows[r], x.work[r].t)
    && var w := x.work[r];
       y == Race(x.m, x.page[r := Merge(x.page[r], w.values)],
                 x.work[r := w.(delta := Restrict(x.page[r], w.values.Keys), seen := |x.m.rows[r].chain|)])
  }

  /** It fails, and now the test does too: the update is refused, and the row stays overwritten. */
  ghost predicate Refuse(x: Race, y: Race, r: RowId) {
    HeadMoved(x, r) && !CanUpdate(x.m.rows[r], x.work[r].t) && y == x.(work := x.work - {r})
  }

  /** Any other step: no page delete of a row that is being updated, and no end of a transaction that is updating one. */
  ghost predicate Other(x: Race, y: Race, step: Step) {
    && Enabled(x.m, step) && !step.UpdateIn? && (step.DeleteFrom? && step.page ==> step.r !in x.work)
    && (step.TakeLatch? || step.Abort? ==> forall r | r in x.work :: x.work[r].t != step.t)
    && y == x.(m := Do(x.m, step), page := if step.InsertInto? then x.page[step.r := step.cells] else x.page)
  }

  ghost predicate Finishes(x: Race, y: Race, r: RowId) {
    Swap(x, y, r) || Refuse(x, y, r)
  }

  ghost predicate Moves(x: Race, y: Race) {
    || (exists t, r, values :: Save(x, y, t, r, values)) || (exists r :: SaveAgain(x, y, r))
    || (exists r :: Finishes(x, y, r)) || (exists step :: Other(x, y, step))
  }

  ghost predicate Starts(x: Race) {
    && Init(x.m) && x.work == map[] && x.page.Keys == x.m.rows.Keys
    && forall r | r in x.page :: x.page[r] == x.m.rows[r].cells
  }

  ghost predicate Run(run: seq<Race>) {
    && run != [] && Starts(run[0]) && forall j | 0 <= j < |run| - 1 :: Moves(run[j], run[j + 1])
  }

  // ---- what an update under way has left ----

  ghost predicate WorkOk(m: State, r: RowId, page: Cells, w: Work) {
    && r in m.rows && IsRunning(m, w.t)
    && var row := m.rows[r];
    && w.values.Keys <= row.cells.Keys && page == Merge(row.cells, w.values)
    && w.from <= w.seen <= |row.chain|
    && w.delta == Restrict(if w.from == w.seen then row.cells else page, w.values.Keys)
    && (w.seen == |row.chain| ==> CanUpdate(row, w.t))
    && forall i | 0 <= i < |row.chain| - w.from :: !Settled(m, row.chain[i], w.t)
  }

  ghost predicate Good(x: Race) {
    && Inv(x.m) && x.page.Keys == x.m.rows.Keys
    && (forall r | r in x.page && r !in x.work :: x.page[r] == x.m.rows[r].cells)
    && forall r | r in x.work :: r in x.page && WorkOk(x.m, r, x.page[r], x.work[r])
  }

  /** Every row that is not being updated has the records that lead back to all its older images. */
  ghost predicate RowsRight(x: Race) {
    forall r | r in x.m.rows && r !in x.work :: r in x.page && LogOk(Real(x, r))
  }

  ghost predicate Changes(x: Race, r: RowId)
    requires Working(x, r)
  {
    Merge(x.m.rows[r].cells, x.work[r].values) != x.m.rows[r].cells
  }

  /** An update of other values finishes after the head it read first has moved. */
  ghost predicate Spoils(x: Race, y: Race, r: RowId) {
    Finishes(x, y, r) && |x.m.rows[r].chain| != x.work[r].from && Changes(x, r)
  }

  lemma MergeAgain(cells: Cells, values: Cells)
    requires values.Keys <= cells.Keys
    ensures Merge(Merge(cells, values), values) == Merge(cells, values)
    ensures Merge(Merge(cells, values), Restrict(Merge(cells, values), values.Keys)) == Merge(cells, values)
    ensures Merge(Merge(cells, values), Restrict(cells, values.Keys)) == cells
    ensures Merge(cells, values).Keys == cells.Keys
  {
    var u := Merge(cells, values);
    assert Merge(u, values) == u;
    assert Merge(u, Restrict(u, values.Keys)) == u;
    assert Merge(u, Restrict(cells, values.Keys)) == cells;
  }

  // ---- one update ----

  /** With the head where it was, both steps together are the update in one step. */
  lemma UnmovedIsUpdate(x: Race, y: Race, r: RowId)
    requires Good(x) && Swap(x, y, r) && (x.work[r].from == x.work[r].seen || !Changes(x, r))
    ensures var w := x.work[r];
      && r in x.m.rows && w.values.Keys <= x.m.rows[r].cells.Keys
      && Enabled(x.m, UpdateIn(w.t, r, w.values)) && y.m == Do(x.m, UpdateIn(w.t, r, w.values))
  {
    hide Inv, Settled, CanUpdate, Restrict, Merge;
    assert WorkOk(x.m, r, x.page[r], x.work[r]);
  }

  /** What the log of a row says of its newest record and image. */
  lemma NewestLink(row: Row, cells: Cells, t: Txn, delta: Cells)
    requires LogOk(row) && row.log[|row.chain|].Present? && cells.Keys == row.cells.Keys
    ensures LogOk(Pushed(row, cells, t, delta)) <==> Merge(cells, delta) == row.cells
  {
    hide Merge;
    var u, n := Pushed(row, cells, t, delta), |row.chain|;
    assert u.log[n] == row.log[n] && u.log[n + 1] == Present(cells, false);
    if LogOk(u) {
      assert Links(u.chain[0], u.log[|u.chain| - 0], u.log[|u.chain| - 0 - 1]);
    } else {
      forall i | 0 < i < |u.chain| ensures Links(u.chain[i], u.log[|u.chain| - i], u.log[|u.chain| - i - 1]) {
        assert Links(row.chain[i - 1], row.log[n - (i - 1)], row.log[n - (i - 1) - 1]);
      }
    }
  }

  /** The record leads back to the old row if and only if the head had not moved since the update first read it, or the
      update changes nothing. */
  lemma SwapExact(x: Race, y: Race, r: RowId)
    requires Good(x) && Swap(x, y, r)
    ensures r in y.m.rows && r in y.page
    ensures LogOk(Real(y, r)) <==> |x.m.rows[r].chain| == x.work[r].from || !Changes(x, r)
  {
    hide Settled, CanUpdate, Restrict, Merge, LogOk, ClockOk, LatchOk, ChainOk;
    var w, row := x.work[r], x.m.rows[r];
    assert WorkOk(x.m, r, x.page[r], w) && LogOk(row);
    MergeAgain(row.cells, w.values);
    LastPresent(row);
    assert Real(y, r) == Pushed(row, x.page[r], w.t, w.delta);
    NewestLink(row, x.page[r], w.t, w.delta);
  }

  lemma LastPresent(row: Row)
    requires LogOk(row)
    ensures row.log[|row.chain|] == Present(row.cells, IsDeleted(row))
  {
  }

  /** A refused update leaves the row right if and only if it changes nothing: the values are on the page, and no record
      leads back. */
  lemma RefuseExact(x: Race, y: Race, r: RowId)
    requires Good(x) && Refuse(x, y, r)
    ensures r in y.m.rows && r in y.page && |x.m.rows[r].chain| != x.work[r].from
    ensures LogOk(Real(y, r)) <==> !Changes(x, r)
  {
    hide Settled, CanUpdate, Restrict, Merge, LogOk, ClockOk, LatchOk, ChainOk;
    assert WorkOk(x.m, r, x.page[r], x.work[r]) && LogOk(x.m.rows[r]);
    OtherCells(x.m.rows[r], x.page[r]);
  }

  lemma OtherCells(row: Row, cells: Cells)
    requires LogOk(row)
    ensures LogOk(row.(cells := cells)) <==> cells == row.cells
  {
    var u := row.(cells := cells);
    assert forall i | 0 <= i < |row.chain| :: Links(row.chain[i], row.log[|row.chain| - i], row.log[|row.chain| - i - 1]);
  }

  /** Once the head has moved, the retry is refused if and only if it was another that moved it last, or the deletion bit
      of a row that had no chain comes into play. */
  lemma RetryIff(x: Race, r: RowId)
    requires Good(x) && HeadMoved(x, r)
    ensures x.m.rows[r].chain != []
    ensures CanUpdate(x.m.rows[r], x.work[r].t) <==> x.m.rows[r].chain[0].owner == x.work[r].t && !x.m.rows[r].bitmap
  {
    hide Settled, Inv, CanUpdate, Restrict, Merge;
    assert WorkOk(x.m, r, x.page[r], x.work[r]);
    assert !Settled(x.m, x.m.rows[r].chain[0], x.work[r].t);
    FirstWriterWins(x.m, x.work[r].t, r);
  }

  // ---- steps keep it ----

  lemma SavedOk(m: State, r: RowId, t: Txn, values: Cells)
    requires r in m.rows && IsRunning(m, t) && values.Keys <= m.rows[r].cells.Keys && CanUpdate(m.rows[r], t)
    ensures var row := m.rows[r];
      WorkOk(m, r, Merge(row.cells, values), Work(t, values, Restrict(row.cells, values.Keys), |row.chain|, |row.chain|))
  {
    hide Settled, CanUpdate, Restrict, Merge, IsRunning;
  }

  lemma SaveKeeps(x: Race, y: Race, t: Txn, r: RowId, values: Cells)
    requires Good(x) && Save(x, y, t, r, values)
    ensures Good(y)
  {
    hide Inv, WorkOk, CanUpdate, Restrict, Merge, IsRunning;
    SavedOk(x.m, r, t, values);
  }

  lemma SavedAgainOk(m: State, r: RowId, page: Cells, w: Work)
    requires WorkOk(m, r, page, w) && |m.rows[r].chain| != w.seen && CanUpdate(m.rows[r], w.t)
    ensures var v := w.(delta := Restrict(page, w.values.Keys), seen := |m.rows[r].chain|);
      WorkOk(m, r, Merge(page, w.values), v)
  {
    hide Settled, CanUpdate, Restrict, Merge, IsRunning;
    MergeAgain(m.rows[r].cells, w.values);
  }

  lemma SaveAgainKeeps(x: Race, y: Race, r: RowId)
    requires Good(x) && SaveAgain(x, y, r)
    ensures Good(y)
  {
    hide Inv, WorkOk, CanUpdate, Restrict, Merge, IsRunning;
    assert r in x.m.rows && WorkOk(x.m, r, x.page[r], x.work[r]);
    SavedAgainOk(x.m, r, x.page[r], x.work[r]);
  }

  lemma RefuseKeeps(x: Race, y: Race, r: RowId)
    requires Good(x) && Refuse(x, y, r) && !Changes(x, r)
    ensures Good(y)
  {
    hide Inv, Settled, CanUpdate, Restrict, Merge, IsRunning;
    assert WorkOk(x.m, r, x.page[r], x.work[r]);
  }

  /** What a raw delete of the row leaves of it. */
  lemma AfterRawDelete(m: State, step: Step, t: Txn)
    requires Inv(m) && Enabled(m, step) && IsRunning(m, t) && step.DeleteFrom? && !step.page
    ensures step.r in Do(m, step).rows
    ensures var a, b := m.rows[step.r], Do(m, step).rows[step.r];
      b.cells == a.cells && b.bitmap == a.bitmap && b.chain == [b.chain[0]] + a.chain && !Settled(Do(m, step), b.chain[0], t)
  {
    hide RowsOk, CanDelete, LatchOk;
  }

  lemma StillAllowed(m: State, step: Step, t: Txn, r: RowId)
    requires Inv(m) && Enabled(m, step) && IsRunning(m, t) && !Ends(step, t)
    requires r in m.rows && !Pushes(step, r) && CanUpdate(m.rows[r], t)
    ensures r in Do(m, step).rows && CanUpdate(Do(m, step).rows[r], t)
  {
    hide Inv, Enabled, Do, Settled, Conflicts;
    var u := Do(m, step);
    StepKeeps(m, step);
    RunsOn(m, step, t) by { assert ClockOk(m) by { ClockOf(m); } }
    SameButStamp(m, step, r);
    if m.rows[r].chain != [] {
      FirstWriterWins(m, t, r);
      FirstWriterWins(u, t, r);
      SettledStays(m, step, t, m.rows[r].chain[0]);
      SettledByOwner(u, m.rows[r].chain[0], u.rows[r].chain[0], t);
    }
  }

  /** A raw delete of the row moves the head, and nothing else does. */
  lemma DeleteMeetsWork(m: State, step: Step, r: RowId, page: Cells, w: Work)
    requires Inv(m) && Enabled(m, step) && WorkOk(m, r, page, w) && !Ends(step, w.t)
    requires step.DeleteFrom? && !step.page && step.r == r
    ensures WorkOk(Do(m, step), r, page, w)
  {
    hide Inv, Enabled, Do, Settled, CanUpdate, Restrict, Merge, IsRunning;
    var u := Do(m, step);
    AfterRawDelete(m, step, w.t);
    RunsOn(m, step, w.t) by { assert ClockOk(m) by { ClockOf(m); } }
    var a, b := m.rows[r].chain, u.rows[r].chain;
    forall i | 0 <= i < |b| - w.from ensures !Settled(u, b[i], w.t) {
      if i > 0 {
        assert b[i] == a[i - 1];
        SettledStays(m, step, w.t, a[i - 1]);
      }
    }
  }

  lemma OtherMeetsWork(m: State, step: Step, r: RowId, page: Cells, w: Work)
    requires Inv(m) && Enabled(m, step) && WorkOk(m, r, page, w) && !Ends(step, w.t)
    requires !Pushes(step, r)
    ensures WorkOk(Do(m, step), r, page, w)
  {
    hide Inv, Enabled, Do, Settled, CanUpdate, Restrict, Merge, IsRunning;
    var u := Do(m, step);
    SameButStamp(m, step, r);
    RunsOn(m, step, w.t) by { assert ClockOk(m) by { ClockOf(m); } }
    if w.seen == |m.rows[r].chain| {
      StillAllowed(m, step, w.t, r);
    }
    var a, b := m.rows[r].chain, u.rows[r].chain;
    forall i | 0 <= i < |b| - w.from ensures !Settled(u, b[i], w.t) {
      SettledStays(m, step, w.t, a[i]);
      SettledByOwner(u, a[i], b[i], w.t);
    }
  }

  lemma UpdateElsewhere(m: State, step: Step, r: RowId, page: Cells, w: Work)
    requires Inv(m) && Enabled(m, step) && WorkOk(m, r, page, w) && step.UpdateIn? && step.r != r
    ensures WorkOk(Do(m, step), r, page, w)
  {
    hide Inv, Enabled, Do, WorkOk, Ends;
    assert !Ends(step, w.t) by { NotEnding(step, w.t); }
    OtherMeetsWork(m, step, r, page, w);
  }

  lemma NotEnding(step: Step, t: Txn)
    requires step.UpdateIn?
    ensures !Ends(step, t)
  {
  }

  lemma SwapKeeps(x: Race, y: Race, r: RowId)
    requires Good(x) && Swap(x, y, r) && (|x.m.rows[r].chain| == x.work[r].from || !Changes(x, r))
    ensures Good(y)
  {
    hide Inv, Enabled, Do, Settled, CanUpdate, Restrict, WorkOk, Changes, Merge;
    UnmovedIsUpdate(x, y, r) by { FromIsSeen(x, r); }
    var w := x.work[r];
    StepKeeps(x.m, UpdateIn(w.t, r, w.values));
    forall q | q in y.work ensures q in y.page && WorkOk(y.m, q, y.page[q], y.work[q]) {
      UpdateElsewhere(x.m, UpdateIn(w.t, r, w.values), q, x.page[q], x.work[q]);
    }
  }

  lemma FromIsSeen(x: Race, r: RowId)
    requires Good(x) && Working(x, r) && !HeadMoved(x, r)
    ensures |x.m.rows[r].chain| == x.work[r].from ==> x.work[r].from == x.work[r].seen
  {
  }

  lemma OtherKeeps(x: Race, y: Race, step: Step)
    requires Good(x) && Other(x, y, step)
    ensures Good(y)
  {
    hide Inv, Enabled, Settled, CanUpdate, CanDelete, Restrict, Merge, WorkOk, Do;
    StepKeeps(x.m, step);
    forall q | q in y.work ensures q in y.page && WorkOk(y.m, q, y.page[q], y.work[q]) {
      var w := x.work[q];
      assert !Ends(step, w.t);
      assert y.page[q] == x.page[q] by { NotInserted(x, step, q); }
      if step.DeleteFrom? && step.r == q {
        DeleteMeetsWork(x.m, step, q, x.page[q], w);
      } else {
        OtherMeetsWork(x.m, step, q, x.page[q], w);
      }
    }
    PagesKept(x, y, step);
  }

  lemma NotInserted(x: Race, step: Step, q: RowId)
    requires Enabled(x.m, step) && x.page.Keys == x.m.rows.Keys && q in x.page
    ensures !(step.InsertInto? && step.r == q)
  {
  }

  lemma PagesKept(x: Race, y: Race, step: Step)
    requires Other(x, y, step) && x.page.Keys == x.m.rows.Keys
    requires forall r | r in x.page && r !in x.work :: x.page[r] == x.m.rows[r].cells
    ensures y.page.Keys == y.m.rows.Keys
    ensures forall r | r in y.page && r !in y.work :: y.page[r] == y.m.rows[r].cells
  {
    hide CanUpdate, CanDelete, Unstamped, Inv;
  }

  // ---- runs ----

  lemma GoodIsRight(x: Race)
    requires Good(x)
    ensures RowsRight(x)
  {
    hide WorkOk, LogOk, ClockOk, LatchOk, ChainOk;
    forall r | r in x.m.rows && r !in x.work ensures r in x.page && LogOk(Real(x, r)) {
      assert Real(x, r) == x.m.rows[r];
    }
  }

  ghost predicate Spoiling(x: Race, y: Race) {
    exists r :: Spoils(x, y, r)
  }

  lemma FinishIff(x: Race, y: Race, r: RowId)
    requires Good(x) && Finishes(x, y, r)
    ensures Spoils(x, y, r) ==> !RowsRight(y)
    ensures !Spoils(x, y, r) ==> Good(y)
  {
    hide Good, Swap, Refuse, Changes, LogOk, Real;
    if Swap(x, y, r) {
      AtRest(x, y, r);
      SwapExact(x, y, r);
      if !Spoils(x, y, r) {
        SwapKeeps(x, y, r);
      }
    } else {
      AtRest(x, y, r);
      RefuseExact(x, y, r);
      if !Spoils(x, y, r) {
        RefuseKeeps(x, y, r);
      }
    }
  }

  lemma AtRest(x: Race, y: Race, r: RowId)
    requires Finishes(x, y, r)
    ensures Working(x, r) && r !in y.work && r in y.m.rows
  {
  }

  lemma MoveIff(x: Race, y: Race)
    requires Good(x) && Moves(x, y)
    ensures Spoiling(x, y) ==> !RowsRight(y)
    ensures !Spoiling(x, y) ==> Good(y)
  {
    hide Good, Save, SaveAgain, Finishes, Other, Spoils, RowsRight;
    if r :| Spoils(x, y, r) {
      assert Finishes(x, y, r) by { SpoilFinishes(x, y, r); }
      FinishIff(x, y, r);
    } else if r :| Finishes(x, y, r) {
      FinishIff(x, y, r);
    } else if t, r, values :| Save(x, y, t, r, values) {
      SaveKeeps(x, y, t, r, values);
    } else if r :| SaveAgain(x, y, r) {
      SaveAgainKeeps(x, y, r);
    } else {
      var step :| Other(x, y, step);
      OtherKeeps(x, y, step);
    }
  }

  lemma SpoilFinishes(x: Race, y: Race, r: RowId)
    requires Spoils(x, y, r)
    ensures Finishes(x, y, r)
  {
  }

  lemma StartsGood(x: Race)
    requires Starts(x)
    ensures Good(x)
  {
    InitOk(x.m);
  }

  lemma {:induction false} GoodAt(run: seq<Race>, n: nat)
    requires Run(run) && n < |run| && forall j | 0 <= j < n :: RowsRight(run[j + 1]) || !Spoiling(run[j], run[j + 1])
    ensures Good(run[n])
  {
    hide Good, Moves, Spoiling, RowsRight, Starts;
    if n == 0 {
      StartsGood(run[0]);
    } else {
      GoodAt(run, n - 1);
      assert Moves(run[n - 1], run[n - 1 + 1]);
      assert RowsRight(run[n - 1 + 1]) || !Spoiling(run[n - 1], run[n - 1 + 1]);
      MoveIff(run[n - 1], run[n]);
    }
  }

  /** In every run: all rows that are not being updated lead back to their older images in every state, if and only if no
      update of other values ever finishes after the head it read first has moved. */
  lemma RowsRightIff(run: seq<Race>)
    requires Run(run)
    ensures (forall j | 0 <= j < |run| :: RowsRight(run[j]))
      <==> (forall j | 0 <= j < |run| - 1 :: !Spoiling(run[j], run[j + 1]))
  {
    hide Good, Moves, Spoiling, RowsRight, Starts;
    if forall j | 0 <= j < |run| :: RowsRight(run[j]) {
      forall j | 0 <= j < |run| - 1 ensures !Spoiling(run[j], run[j + 1]) {
        assert RowsRight(run[j + 1]);
        GoodAt(run, j);
        MoveIff(run[j], run[j + 1]);
      }
    }
    if forall j | 0 <= j < |run| - 1 :: !Spoiling(run[j], run[j + 1]) {
      forall j | 0 <= j < |run| ensures RowsRight(run[j]) {
        GoodAt(run, j);
        GoodIsRight(run[j]);
      }
    }
  }

  /** Then the two steps are one to everybody else: the rows go through steps of the machine in which an update is one
      step, and whoever reads a row that is not being updated reads the row of that machine. */
  lemma UnspoiltIsAtomic(x: Race, y: Race)
    requires Good(x) && Moves(x, y) && !Spoiling(x, y)
    ensures y.m == x.m || exists step :: Enabled(x.m, step) && y.m == Do(x.m, step)
    ensures forall r | r in y.m.rows && r !in y.work :: r in y.page && Real(y, r) == y.m.rows[r]
  {
    hide Inv, Enabled, Do, WorkOk, CanUpdate, Restrict, Merge, Changes, IsRunning;
    MoveIff(x, y);
    if r :| Swap(x, y, r) {
      assert !Spoils(x, y, r);
      var w := x.work[r];
      FromIsSeen(x, r);
      UnmovedIsUpdate(x, y, r);
      assert Enabled(x.m, UpdateIn(w.t, r, w.values)) && y.m == Do(x.m, UpdateIn(w.t, r, w.values));
    } else if step :| Other(x, y, step) {
      assert Enabled(x.m, step) && y.m == Do(x.m, step);
    }
  }

  // ---- a spoilt row ----

  lemma LongerRun(run: seq<Race>, y: Race) returns (more: seq<Race>)
    requires Run(run) && Moves(run[|run| - 1], y)
    ensures more == run + [y] && Run(more)
  {
    hide Moves, Starts;
    more := run + [y];
    forall j | 0 <= j < |more| - 1 ensures Moves(more[j], more[j + 1]) {
      if j < |run| - 1 {
        assert Moves(run[j], run[j + 1]);
      }
    }
  }

  lemma Step(run: seq<Race>, step: Mvcc.Step) returns (more: seq<Race>)
    requires Run(run) && (step.BeginTick? || step.BeginPass? || (step.DeleteFrom? && !step.page))
    requires Enabled(run[|run| - 1].m, step)
    ensures Run(more) && more[|more| - 1] == run[|run| - 1].(m := Do(run[|run| - 1].m, step))
  {
    hide Enabled, Do, Starts, Save, SaveAgain, Finishes;
    var x := run[|run| - 1];
    var y := x.(m := Do(x.m, step));
    assert Other(x, y, step);
    more := LongerRun(run, y);
  }

  lemma StartOne(run: seq<Race>, t: Txn) returns (more: seq<Race>)
    requires Run(run) && run[|run| - 1].m.time == t < 100 && run[|run| - 1].m.latch == 0
    ensures var x := run[|run| - 1];
      Run(more) && more[|more| - 1] == x.(m := x.m.(time := t + 1, txns := x.m.txns[t := Running]))
  {
    hide Moves, Starts;
    var x := run[|run| - 1];
    more := Step(run, BeginTick(t));
    more := Step(more, BeginPass(t));
    assert x.m.txns[t := Begun][t := Running] == x.m.txns[t := Running];
  }

  /** Such a run: transaction 0 has overwritten the row, transaction 1 deletes it raw, and the update of transaction 0 is
      refused. Transaction 0 should see the row as it was, and reads the value it was refused. */
  lemma RefusedButRead() returns (run: seq<Race>)
    ensures Run(run)
    ensures var x := run[|run| - 1];
      && x.work == map[] && IsRunning(x.m, 0) && 0 in x.m.rows && 0 in x.page && LogOk(x.m.rows[0])
      && SeenBy(x.m, x.m.rows[0], 0) == Present(map[0 := 7], false)
      && Select(Real(x, 0), 0, {0}).0 == map[0 := 9]
  {
    hide Moves, Starts, LogOk, SeenBy, Select, DeleteRow, Restrict, Merge;
    var seven: Cells, nine: Cells := map[0 := 7], map[0 := 9];
    var row := Row(seven, false, [], [Present(seven, false)]);
    run := [Race(State(0, 0, map[], map[0 := row]), map[0 := seven], map[])];
    assert Starts(run[0]) by { StartsWith(run[0], row); }
    run := StartOne(run, 0);
    run := StartOne(run, 1);
    var m := State(2, 0, map[0 := Running, 1 := Running], map[0 := row]);
    assert run[|run| - 1] == Race(m, map[0 := seven], map[]);
    Overwritten(run[|run| - 1], seven, nine);
    run := LongerRun(run, Race(m, map[0 := nine], map[0 := Work(0, nine, seven, 0, 0)]));
    assert CanDelete(row, 1, false);
    run := Step(run, DeleteFrom(1, 0, false));
    var u := m.(rows := map[0 := DeleteRow(row, 1, false)]);
    assert run[|run| - 1].m == u;
    var y := Race(u, map[0 := nine], map[]);
    assert Moves(run[|run| - 1], y) by { Refused(run[|run| - 1], y, row); }
    run := LongerRun(run, y);
    ReadsNine(u, y, row, seven, nine);
  }

  lemma StartsWith(x: Race, row: Row)
    requires x == Race(State(0, 0, map[], map[0 := row]), map[0 := row.cells], map[])
    requires row == Row(row.cells, false, [], [Present(row.cells, false)])
    ensures Starts(x)
  {
  }

  lemma Overwritten(x: Race, seven: Cells, nine: Cells)
    requires seven == map[0 := 7] && nine == map[0 := 9] && x.page == map[0 := seven] && x.work == map[]
    requires IsRunning(x.m, 0) && 0 in x.m.rows && x.m.rows[0] == Row(seven, false, [], [Present(seven, false)])
    ensures Moves(x, Race(x.m, map[0 := nine], map[0 := Work(0, nine, seven, 0, 0)]))
  {
    assert Merge(seven, nine) == nine && Restrict(seven, nine.Keys) == seven;
    assert Save(x, Race(x.m, map[0 := nine], map[0 := Work(0, nine, seven, 0, 0)]), 0, 0, nine);
  }

  lemma Refused(x: Race, y: Race, row: Row)
    requires row.chain == [] && 0 in x.page && x.m.rows == map[0 := DeleteRow(row, 1, false)]
    requires x.work.Keys == {0} && x.work[0].t == 0 && x.work[0].seen == 0 && y == x.(work := map[])
    ensures Moves(x, y)
  {
    assert x.work - {0} == map[];
    assert Refuse(x, y, 0);
    assert Finishes(x, y, 0);
  }

  lemma ReadsNine(u: State, x: Race, row: Row, seven: Cells, nine: Cells)
    requires seven == map[0 := 7] && nine == map[0 := 9] && row == Row(seven, false, [], [Present(seven, false)])
    requires u.txns == map[0 := Running, 1 := Running] && u.rows == map[0 := DeleteRow(row, 1, false)]
    requires x == Race(u, map[0 := nine], map[])
    ensures LogOk(u.rows[0]) && SeenBy(u, u.rows[0], 0) == Present(seven, false)
    ensures Select(Real(x, 0), 0, {0}).0 == nine
  {
    var chain := u.rows[0].chain;
    assert chain == [Record(Delete, Uncommitted(1), 1, map[])];
    assert Unsettled(u, chain, 0) == 1;
    assert Restrict(nine, {0}) == nine;
    assert Undo(chain[1..], nine, 0) == (nine, true);
  }
}
