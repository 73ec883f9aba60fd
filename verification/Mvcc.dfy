/** Multi-version rows: updated in place, before-images on a chain per row. A state machine of any number
    of transactions; a commit restamps its records one step at a time. */
module Mvcc {

  type Txn = nat    // a transaction is named by its start time
  type RowId = nat
  type Col = nat
  type Cells = map<Col, int>

  /** The sign bit of a 64-bit stamp: an uncommitted record carries start + 2^63. */
  const UNCOMMITTED := 0x8000_0000_0000_0000

  datatype Kind = Update | Insert | Delete

  /** delta: the values the update overwrote, for the columns it wrote. owner is for the proofs only;
      the code has it in the stamp while the record is uncommitted. */
  datatype Record = Record(kind: Kind, stamp: nat, owner: Txn, delta: Cells)

  /** What a row is at one time: not there, or there with its cells and perhaps marked deleted. */
  datatype Image = Absent | Present(cells: Cells, deleted: bool)

  /** chain: newest record first. log: every image the row has had, oldest first: the one before the
      first record, then one per record. It is for the proofs only. */
  datatype Row = Row(cells: Cells, bitmap: bool, chain: seq<Record>, log: seq<Image>)

  datatype Phase =
    | Begun                       // has a start time, waits at the commit latch
    | Running
    | Latched                     // holds the commit latch, has no commit time yet
    | Committing(commit: nat)     // restamping
    | Committed(commit: nat)
    | Aborted

  datatype State = State(time: nat, latch: int, txns: map<Txn, Phase>, rows: map<RowId, Row>)

  datatype Status = Visible | Deleted | NotVisible

  // ---- stamps ----

  function Uncommitted(t: Txn): nat {
    t + UNCOMMITTED
  }

  predicate IsCommitted(stamp: nat) {
    stamp < UNCOMMITTED
  }

  predicate IsNewerThan(a: nat, b: nat) {
    a > b
  }

  predicate HasConflict(stamp: nat, id: nat, start: nat) {
    var ownedByOther := !IsCommitted(stamp) && stamp != id;
    var newerCommitted := IsCommitted(stamp) && IsNewerThan(stamp, start);
    ownedByOther || newerCommitted
  }

  /** HasConflict on a version pointer: an empty chain conflicts with nobody. */
  predicate Conflicts(chain: seq<Record>, t: Txn) {
    chain != [] && HasConflict(chain[0].stamp, Uncommitted(t), t)
  }

  // ---- images ----

  function Restrict(m: Cells, cols: set<Col>): Cells {
    map c | c in m && c in cols :: m[c]
  }

  /** The saved values replace the current ones, for the columns the chunk has. */
  function Merge(chunk: Cells, delta: Cells): Cells {
    map c | c in chunk :: if c in delta then delta[c] else chunk[c]
  }

  predicate IsDeleted(row: Row) {
    if row.chain == [] then row.bitmap else row.chain[0].kind.Delete?
  }

  // ---- writes ----

  function UpdateRow(row: Row, t: Txn, values: Cells): Row {
    var delta := Restrict(row.cells, values.Keys);
    var cells := Merge(row.cells, values);
    Row(cells, row.bitmap, [Record(Update, Uncommitted(t), t, delta)] + row.chain, row.log + [Present(cells, false)])
  }

  function InsertRow(t: Txn, cells: Cells): Row {
    Row(cells, false, [Record(Insert, Uncommitted(t), t, map[])], [Absent, Present(cells, false)])
  }

  /** page: the page's deletion bit is set too; the raw delete leaves the page alone. */
  function DeleteRow(row: Row, t: Txn, page: bool): Row {
    Row(row.cells, row.bitmap || page, [Record(Delete, Uncommitted(t), t, map[])] + row.chain,
      row.log + [Present(row.cells, true)])
  }

  predicate CanUpdate(row: Row, t: Txn) {
    !(row.chain != [] && (Conflicts(row.chain, t) || row.bitmap))
  }

  predicate CanDelete(row: Row, t: Txn, page: bool) {
    if page then !(Conflicts(row.chain, t) || row.bitmap)
    else !(row.chain != [] && (Conflicts(row.chain, t) || row.chain[0].kind.Delete?))
  }

  // ---- reads ----

  /** The walk of SelectIntoChunk over a chain. The flag is false when an insert newer than the reader
      was met. */
  function Undo(chain: seq<Record>, chunk: Cells, start: nat): (r: (Cells, bool)) {
    if chain == [] || !IsNewerThan(chain[0].stamp, start) then (chunk, true)
    else match chain[0].kind
      case Update => Undo(chain[1..], Merge(chunk, chain[0].delta), start)
      case Insert => (chunk, false)
      case Delete => Undo(chain[1..], chunk, start)
  }

  function Select(row: Row, t: Txn, cols: set<Col>): (r: (Cells, Status)) {
    var chunk := Restrict(row.cells, cols);
    var status := if IsDeleted(row) then Deleted else Visible;
    if row.chain == [] || row.chain[0].stamp == Uncommitted(t) then (chunk, status)
    else
      var (cells, there) := Undo(row.chain, chunk, t);
      (cells, if there then status else NotVisible)
  }

  // ---- steps ----

  datatype Step =
    | BeginTick(t: Txn)
    | BeginPass(t: Txn)
    | TakeLatch(t: Txn)
    | CommitTick(t: Txn)
    | Restamp(t: Txn, r: RowId, i: nat)
    | ReleaseLatch(t: Txn)
    | Abort(t: Txn)
    | InsertInto(t: Txn, r: RowId, cells: Cells)
    | UpdateIn(t: Txn, r: RowId, values: Cells)
    | DeleteFrom(t: Txn, r: RowId, page: bool)

  function Stamped(row: Row, i: nat, stamp: nat): Row
    requires i < |row.chain|
  {
    row.(chain := row.chain[i := row.chain[i].(stamp := stamp)])
  }

  predicate InPhase(s: State, t: Txn, p: Phase) {
    t in s.txns && s.txns[t] == p
  }

  predicate IsRunning(s: State, t: Txn) {
    InPhase(s, t, Running)
  }

  /** Row r has a record of t that the restamp loop of t has not come to. */
  predicate Unstamped(s: State, t: Txn, r: RowId) {
    r in s.rows && exists i :: 0 <= i < |s.rows[r].chain| && s.rows[r].chain[i].owner == t
                            && s.rows[r].chain[i].stamp == Uncommitted(t)
  }

  ghost predicate Enabled(s: State, step: Step) {
    match step
    case BeginTick(t) => t == s.time && s.time + 1 < UNCOMMITTED
    case BeginPass(t) => InPhase(s, t, Begun) && s.latch == 0
    case TakeLatch(t) => IsRunning(s, t)
    case CommitTick(t) => InPhase(s, t, Latched) && s.time + 1 < UNCOMMITTED
    case Restamp(t, r, i) =>
      // the undo buffer holds the records oldest first, and is walked in that order
      && t in s.txns && s.txns[t].Committing? && r in s.rows && i < |s.rows[r].chain|
      && s.rows[r].chain[i].owner == t && s.rows[r].chain[i].stamp == Uncommitted(t)
      && forall j | i < j < |s.rows[r].chain| && s.rows[r].chain[j].owner == t ::
           s.rows[r].chain[j].stamp != Uncommitted(t)
    case ReleaseLatch(t) => t in s.txns && s.txns[t].Committing? && forall r :: !Unstamped(s, t, r)
    case Abort(t) => IsRunning(s, t)
    case InsertInto(t, r, cells) => IsRunning(s, t) && r !in s.rows
    case UpdateIn(t, r, values) =>
      IsRunning(s, t) && r in s.rows && values.Keys <= s.rows[r].cells.Keys && CanUpdate(s.rows[r], t)
    case DeleteFrom(t, r, page) => IsRunning(s, t) && r in s.rows && CanDelete(s.rows[r], t, page)
  }

  ghost function Do(s: State, step: Step): State
    requires Enabled(s, step)
  {
    match step
    case BeginTick(t) => s.(time := s.time + 1, txns := s.txns[t := Begun])
    case BeginPass(t) => s.(txns := s.txns[t := Running])
    case TakeLatch(t) => s.(latch := s.latch + 1, txns := s.txns[t := Latched])
    case CommitTick(t) => s.(time := s.time + 1, txns := s.txns[t := Committing(s.time)])
    case Restamp(t, r, i) => s.(rows := s.rows[r := Stamped(s.rows[r], i, s.txns[t].commit)])
    case ReleaseLatch(t) => s.(latch := s.latch - 1, txns := s.txns[t := Committed(s.txns[t].commit)])
    case Abort(t) => s.(txns := s.txns[t := Aborted])
    case InsertInto(t, r, cells) => s.(rows := s.rows[r := InsertRow(t, cells)])
    case UpdateIn(t, r, values) => s.(rows := s.rows[r := UpdateRow(s.rows[r], t, values)])
    case DeleteFrom(t, r, page) => s.(rows := s.rows[r := DeleteRow(s.rows[r], t, page)])
  }

  /** Rows may be there from before, without a chain. */
  ghost predicate Init(s: State) {
    && s.time == 0 && s.latch == 0 && s.txns == map[]
    && forall r | r in s.rows :: s.rows[r].chain == [] && s.rows[r].log == [Present(s.rows[r].cells, s.rows[r].bitmap)]
  }

  /** s ends a run from an initial state along the steps. */
  ghost predicate Runs(init: State, steps: seq<Step>, s: State)
    decreases |steps|
  {
    if steps == [] then s == init && Init(init)
    else
      var n := |steps| - 1;
      exists mid :: Runs(init, steps[..n], mid) && Enabled(mid, steps[n]) && s == Do(mid, steps[n])
  }

  // ---- invariant ----

  ghost predicate HasCommit(p: Phase) {
    p.Committing? || p.Committed?
  }

  ghost predicate Holding(p: Phase) {
    p.Latched? || p.Committing?
  }

  ghost predicate ClockOk(s: State) {
    && s.time < UNCOMMITTED
    && (forall t | t in s.txns :: t < s.time)
    && (forall t | t in s.txns && HasCommit(s.txns[t]) :: t < s.txns[t].commit < s.time && s.txns[t].commit !in s.txns)
    && (forall t, v | t in s.txns && v in s.txns && t != v && HasCommit(s.txns[t]) && HasCommit(s.txns[v]) ::
          s.txns[t].commit != s.txns[v].commit)
  }

  ghost function Holders(s: State): set<Txn> {
    set t | t in s.txns && Holding(s.txns[t])
  }

  /** Who is past the latch began before every commit that is still restamping. */
  ghost predicate LatchOk(s: State) {
    && s.latch == |Holders(s)|
    && forall r, t | r in s.txns && t in s.txns && !s.txns[r].Begun? && s.txns[t].Committing? :: r < s.txns[t].commit
  }

  /** The stamp of a record says how far its owner has got. */
  ghost predicate RecordOk(s: State, e: Record) {
    && e.owner in s.txns
    && match s.txns[e.owner]
       case Begun => false
       case Committing(c) => e.stamp == Uncommitted(e.owner) || e.stamp == c
       case Committed(c) => e.stamp == c
       case _ => e.stamp == Uncommitted(e.owner)
  }

  /** The owner of the record had committed when r began. */
  ghost predicate Settled(s: State, e: Record, r: Txn) {
    e.owner in s.txns && s.txns[e.owner].Committed? && s.txns[e.owner].commit < r
  }

  /** Neighbours on a chain: the same writer, or the older one was committed before the newer one began. */
  ghost predicate NeighboursOk(s: State, newer: Record, older: Record) {
    if newer.owner == older.owner then newer.stamp >= older.stamp else Settled(s, older, newer.owner)
  }

  ghost predicate ChainOk(s: State, chain: seq<Record>) {
    && (forall i | 0 <= i < |chain| :: RecordOk(s, chain[i]))
    && (forall i | 0 <= i < |chain| - 1 :: NeighboursOk(s, chain[i], chain[i + 1]))
  }

  /** The record leads from the older image to the newer one, and holds what it takes to go back. */
  ghost predicate Links(e: Record, newer: Image, older: Image) {
    match e.kind
    case Update =>
      && older.Present? && newer.Present? && !newer.deleted
      && newer.cells.Keys == older.cells.Keys && Merge(newer.cells, e.delta) == older.cells
    case Insert => older.Absent? && newer.Present? && !newer.deleted
    case Delete => older.Present? && newer == Present(older.cells, true)
  }

  ghost predicate LogOk(row: Row) {
    && |row.log| == |row.chain| + 1
    && row.log[|row.chain|] == Present(row.cells, IsDeleted(row))
    && forall i | 0 <= i < |row.chain| :: Links(row.chain[i], row.log[|row.chain| - i], row.log[|row.chain| - i - 1])
  }

  ghost predicate RowsOk(s: State) {
    forall r | r in s.rows :: ChainOk(s, s.rows[r].chain) && LogOk(s.rows[r])
  }

  ghost predicate Inv(s: State) {
    ClockOk(s) && LatchOk(s) && RowsOk(s)
  }
}
