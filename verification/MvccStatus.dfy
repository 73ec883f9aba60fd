/** The deletion status a reader is told, decided by the row's own fields wherever they can decide it. */
module MvccStatus {
  import opened Mvcc
  import opened MvccSafety
  import opened MvccReads

  ghost predicate StartsDeleted(row: Row)
    requires row.log != []
  {
    row.log[0].Present? && row.log[0].deleted
  }

  /** What the deletion bit says of how the row was before its first record: it was deleted then, and at most an update
      and a raw delete came after; or the bit is from a page delete, which is the newest record. */
  ghost predicate BitmapOk(row: Row) {
    && row.log != []
    && (if StartsDeleted(row) then
          && row.bitmap && |row.chain| <= 2
          && (|row.chain| == 1 ==> !row.chain[0].kind.Insert?)
          && (|row.chain| == 2 ==> row.chain[0].kind.Delete? && row.chain[1].kind.Update?)
        else
          row.bitmap ==> row.chain != [] && row.chain[0].kind.Delete?)
  }

  ghost predicate BitmapsOk(s: State) {
    forall r | r in s.rows :: BitmapOk(s.rows[r])
  }

  lemma WriteBitmap(row: Row, t: Txn, values: Cells, page: bool)
    requires BitmapOk(row)
    ensures CanUpdate(row, t) ==> BitmapOk(UpdateRow(row, t, values))
    ensures CanDelete(row, t, page) ==> BitmapOk(DeleteRow(row, t, page))
  {
    hide Restrict, Merge, HasConflict;
  }

  lemma StampBitmap(row: Row, i: nat, stamp: nat)
    requires BitmapOk(row) && i < |row.chain|
    ensures BitmapOk(Stamped(row, i, stamp))
  {
  }

  lemma BitmapsKept(s: State, step: Step)
    requires Enabled(s, step) && BitmapsOk(s)
    ensures BitmapsOk(Do(s, step))
  {
    hide CanUpdate, CanDelete, UpdateRow, DeleteRow, BitmapOk, Unstamped, Stamped;
    match step
    case UpdateIn(t, r, values) => WriteBitmap(s.rows[r], t, values, false);
    case DeleteFrom(t, r, page) => WriteBitmap(s.rows[r], t, map[], page);
    case Restamp(t, r, i) => StampBitmap(s.rows[r], i, s.txns[t].commit);
    case InsertInto(t, r, cells) => assert BitmapOk(InsertRow(t, cells)) by { InsertBitmap(t, cells); }
    case _ =>
  }

  lemma InsertBitmap(t: Txn, cells: Cells)
    ensures BitmapOk(InsertRow(t, cells))
  {
  }

  lemma {:induction false} RunsBitmapsOk(init: State, steps: seq<Step>, s: State)
    requires Runs(init, steps, s)
    ensures BitmapsOk(s)
    decreases |steps|
  {
    hide Enabled, Do;
    if steps != [] {
      var n := |steps| - 1;
      var mid :| Runs(init, steps[..n], mid) && Enabled(mid, steps[n]) && s == Do(mid, steps[n]);
      RunsBitmapsOk(init, steps[..n], mid);
      BitmapsKept(mid, steps[n]);
    }
  }

  /** Whether the row was deleted where the walk stops, told by the kinds of its records and the deletion bit. */
  predicate DeletedByFields(row: Row, n: nat)
    requires n <= |row.chain|
  {
    if n < |row.chain| then row.chain[n].kind.Delete?
    else row.bitmap && (row.chain == [] || !row.chain[0].kind.Delete?)
  }

  /** The deletion bit is set, and the page delete that is at the head may have set it, or it was set before a raw delete. */
  predicate BitOfEither(row: Row) {
    && row.bitmap && 1 <= |row.chain| <= 2 && row.chain[0].kind.Delete?
    && (|row.chain| == 2 ==> row.chain[1].kind.Update?)
  }

  lemma FieldsDecide(row: Row, n: nat)
    requires LogOk(row) && BitmapOk(row) && n <= |row.chain|
    requires !(n == |row.chain| && BitOfEither(row))
    ensures DeletedAt(row, n) <==> DeletedByFields(row, n)
  {
    hide LogOk;
  }

  /** In every run: the status told to a reader who should see the row is right if and only if the row's newest state and
      the one where its walk stops agree on deletion, as the kinds of the records and the deletion bit tell; except for a
      walk that passes all records of a row that BitOfEither leaves open. */
  lemma StatusByFields(init: State, steps: seq<Step>, s: State, t: Txn, r: RowId, cols: set<Col>)
    requires Runs(init, steps, s) && IsRunning(s, t) && r in s.rows
    ensures LogOk(s.rows[r])
    ensures var row := s.rows[r]; var n := Stop(row.chain, t);
      SeenBy(s, row, t).Present? && !(n == |row.chain| && BitOfEither(row)) ==>
        ((Select(row, t, cols).1.Deleted? <==> SeenBy(s, row, t).deleted)
         <==> (IsDeleted(row) <==> DeletedByFields(row, n)))
  {
    hide Runs, ClockOk, LatchOk, ChainOk, LogOk, SeenBy, Stop, DeletedAt, IsDeleted, Undo, BitmapOk, BitOfEither,
      DeletedByFields;
    RunKeeps(init, steps, s);
    RunsBitmapsOk(init, steps, s);
    var row := s.rows[r];
    assert LogOk(row);
    if SeenBy(s, row, t).Present? && !(Stop(row.chain, t) == |row.chain| && BitOfEither(row)) {
      StatusExact(s, t, r, cols);
      FieldsDecide(row, Stop(row.chain, t));
    }
  }

  /** What is left open no reader could tell: two runs leave the same transactions and a row with the same fields, and a
      reader who is told Deleted in both should see the row deleted in the one and live in the other. In the first the row
      was deleted from the start and is raw-deleted, in the second it is deleted on the page. */
  lemma FieldsCannotDecide() returns (i1: State, p1: seq<Step>, s1: State, i2: State, p2: seq<Step>, s2: State)
    ensures Runs(i1, p1, s1) && Runs(i2, p2, s2)
    ensures s1.(rows := map[]) == s2.(rows := map[]) && s1.rows.Keys == s2.rows.Keys == {0}
    ensures s1.rows[0].(log := []) == s2.rows[0].(log := []) && IsRunning(s1, 0) && IsRunning(s2, 0)
    ensures LogOk(s1.rows[0]) && LogOk(s2.rows[0])
    ensures SeenBy(s1, s1.rows[0], 0) == Present(map[0 := 7], true)
    ensures SeenBy(s2, s2.rows[0], 0) == Present(map[0 := 7], false)
    ensures Select(s1.rows[0], 0, {0}) == Select(s2.rows[0], 0, {0}) == (map[0 := 7], Deleted)
  {
    hide Runs, LogOk, SeenBy, Select, DeleteRow;
    i1, p1, s1 := DeletedOnce(map[0 := 7], true);
    i2, p2, s2 := DeletedOnce(map[0 := 7], false);
    ReaderOfDeleted(s1, map[0 := 7], true);
    ReaderOfDeleted(s2, map[0 := 7], false);
    SameFields(map[0 := 7]);
  }

  ghost function BaseRow(cells: Cells, before: bool): Row {
    Row(cells, before, [], [Present(cells, before)])
  }

  /** With transactions 0 and 1 running, 1 deletes the row: raw if it is deleted before, else on the page. */
  lemma DeletedOnce(cells: Cells, before: bool) returns (init: State, steps: seq<Step>, s: State)
    ensures Runs(init, steps, s)
    ensures s == State(2, 0, map[0 := Running, 1 := Running], map[0 := DeleteRow(BaseRow(cells, before), 1, !before)])
  {
    hide Runs, DeleteRow;
    var row := BaseRow(cells, before);
    init := State(0, 0, map[], map[0 := row]);
    steps, s := [], init;
    assert Runs(init, steps, s) by { EmptyRun(init); }
    s, steps := Start(init, steps, s, 0);
    s, steps := Start(init, steps, s, 1);
    assert CanDelete(row, 1, !before);
    s, steps := Extend(init, steps, s, DeleteFrom(1, 0, !before));
  }

  lemma EmptyRun(init: State)
    requires Init(init)
    ensures Runs(init, [], init)
  {
  }

  lemma SameFields(cells: Cells)
    ensures DeleteRow(BaseRow(cells, true), 1, false).(log := []) == DeleteRow(BaseRow(cells, false), 1, true).(log := [])
  {
  }

  lemma ReaderOfDeleted(s: State, cells: Cells, before: bool)
    requires s == State(2, 0, map[0 := Running, 1 := Running], map[0 := DeleteRow(BaseRow(cells, before), 1, !before)])
    requires cells == map[0 := 7]
    ensures LogOk(s.rows[0]) && SeenBy(s, s.rows[0], 0) == Present(cells, before)
    ensures Select(s.rows[0], 0, {0}) == (cells, Deleted)
  {
    var chain := s.rows[0].chain;
    assert chain == [Record(Delete, Uncommitted(1), 1, map[])];
    assert Unsettled(s, chain, 0) == 1;
    assert Restrict(cells, {0}) == cells;
    assert Undo(chain[1..], cells, 0) == (cells, true);
  }
}
