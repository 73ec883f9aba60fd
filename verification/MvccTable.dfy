/** One page of a table as the code has it: cells overwritten in place, version pointers to linked records,
    chunks of columns. Each method is tied to the row functions of Mvcc. */
module MvccTable {
  import opened Mvcc
  import opened MvccSafety
  import opened MvccReads

  ghost predicate Distinct(ids: seq<Col>) {
    forall i, j | 0 <= i < j < |ids| :: ids[i] != ids[j]
  }

  /** Some columns of a row: data[i] belongs to column ids[i]. */
  class DataChunk {
    const ids: seq<Col>
    const data: array<int>

    constructor (ids: seq<Col>)
      ensures this.ids == ids && data.Length == |ids| && fresh(data)
    {
      this.ids := ids;
      data := new int[|ids|];
    }

    /** Finds the column, and writes it. */
    method Write(id: Col, value: int)
      requires Valid()
      modifies data
      ensures forall i | 0 <= i < |ids| :: data[i] == if ids[i] == id then value else old(data[i])
    {
      for n := 0 to |ids|
        invariant forall i | 0 <= i < n :: ids[i] != id
        invariant data[..] == old(data[..])
      {
        if ids[n] == id {
          data[n] := value;
          break;
        }
      }
    }

    ghost predicate Valid() {
      Distinct(ids) && data.Length == |ids|
    }

    ghost function Contents(): (m: Cells)
      requires Valid()
      reads data
    {
      CellsOf(ids, data[..])
    }
  }

  ghost function CellsOf(ids: seq<Col>, values: seq<int>): (m: Cells)
    requires Distinct(ids) && |values| == |ids|
    ensures forall i | 0 <= i < |ids| :: ids[i] in m && m[ids[i]] == values[i]
    ensures forall c | c in m :: c in ids
    decreases |ids|
  {
    if ids == [] then map[]
    else CellsOf(ids[..|ids| - 1], values[..|ids| - 1])[ids[|ids| - 1] := values[|ids| - 1]]
  }

  /** Two maps with the same columns and the same value in each are the same. */
  lemma SameCells(m: Cells, ids: seq<Col>, values: seq<int>)
    requires Distinct(ids) && |values| == |ids|
    requires forall c :: c in m <==> c in ids
    requires forall i | 0 <= i < |ids| && ids[i] in m :: m[ids[i]] == values[i]
    ensures CellsOf(ids, values) == m
  {
    var n := CellsOf(ids, values);
    forall c | c in m ensures c in n && n[c] == m[c] {
      var i :| 0 <= i < |ids| && ids[i] == c;
      assert ids[i] in m;
    }
  }

  /** Column by column, the current chunk takes what the newer one saved. */
  method MergeChunks(curr: DataChunk, new': DataChunk)
    requires curr.Valid() && new'.Valid() && curr.data != new'.data
    modifies curr.data
    ensures curr.Contents() == Merge(old(curr.Contents()), new'.Contents())
  {
    ghost var before := curr.data[..];
    var newIdx := 0;
    while newIdx < |new'.ids|
      invariant 0 <= newIdx <= |new'.ids|
      invariant forall j | 0 <= j < |curr.ids| ::
        curr.data[j] == if curr.ids[j] in new'.ids[..newIdx] then new'.Contents()[curr.ids[j]] else before[j]
    {
      var curIdx := 0;
      while curIdx < |curr.ids|
        invariant 0 <= curIdx <= |curr.ids|
        invariant forall j | 0 <= j < curIdx :: curr.ids[j] != new'.ids[newIdx]
        invariant forall j | 0 <= j < |curr.ids| ::
          curr.data[j] == if curr.ids[j] in new'.ids[..newIdx] then new'.Contents()[curr.ids[j]] else before[j]
      {
        if curr.ids[curIdx] == new'.ids[newIdx] {
          curr.data[curIdx] := new'.data[newIdx];
          break;
        }
        curIdx := curIdx + 1;
      }
      newIdx := newIdx + 1;
    }
    SameCells(Merge(old(curr.Contents()), new'.Contents()), curr.ids, curr.data[..]);
  }

  /** One undo record: type and delta are set when it is made; invalid marks a refused write. */
  class UndoRecord {
    const kind: Kind
    const delta: DataChunk
    ghost const owner: Txn
    var stamp: nat
    var next: UndoRecord?
    var invalid: bool

    constructor (kind: Kind, t: Txn, ids: seq<Col>)
      ensures this.kind == kind && owner == t && stamp == Uncommitted(t) && next == null && !invalid
      ensures fresh(delta) && fresh(delta.data) && delta.ids == ids && delta.data.Length == |ids|
    {
      this.kind, owner, stamp, next, invalid := kind, t, Uncommitted(t), null, false;
      delta := new DataChunk(ids);
    }

    /** The record as a value, with its pointer. */
    ghost predicate Is(v: Record, next: UndoRecord?)
      reads this, delta.data
    {
      && delta.Valid() && this.next == next
      && kind == v.kind && stamp == v.stamp && owner == v.owner && delta.Contents() == v.delta
    }
  }

  class TransactionContext {
    const start: Txn
    var undo: seq<UndoRecord>

    constructor (start: Txn)
      ensures this.start == start && undo == []
    {
      this.start := start;
      undo := [];
    }
  }

  lemma Overwritten(before: Cells, after: Cells, ids: seq<Col>, values: seq<int>, saved: seq<int>)
    requires Distinct(ids) && |values| == |saved| == |ids| && before.Keys == after.Keys
    requires forall i | 0 <= i < |ids| :: ids[i] in before && saved[i] == before[ids[i]] && after[ids[i]] == values[i]
    requires forall c | c in before && c !in ids :: after[c] == before[c]
    ensures CellsOf(ids, saved) == Restrict(before, CellsOf(ids, values).Keys)
    ensures after == Merge(before, CellsOf(ids, values))
  {
    hide CellsOf;
    var m := CellsOf(ids, values);
    assert forall c :: c in m <==> c in ids;
    SameCells(Restrict(before, m.Keys), ids, saved);
    forall c | c in before ensures after[c] == if c in m then m[c] else before[c] {
      if c in ids {
        var i :| 0 <= i < |ids| && ids[i] == c;
      }
    }
  }

  ghost function Nth(chain: seq<UndoRecord>, j: nat): UndoRecord? {
    if j < |chain| then chain[j] else null
  }

  class Table {
    const columns: nat
    const rows: nat
    const cells: array2<int>          // column, row
    const deleted: array<bool>
    const versions: array<UndoRecord?>
    var count: nat                         // rows in use
    ghost var model: seq<Row>              // what the page stands for
    ghost var chains: seq<seq<UndoRecord>>
    ghost var records: set<UndoRecord>     // the records of all chains

    constructor (columns: nat, rows: nat)
      ensures Valid() && this.columns == columns && this.rows == rows && count == 0 && records == {}
      ensures fresh(Repr() - {this})
      ensures forall i | 0 <= i < rows :: model[i].chain == [] && !model[i].bitmap && LogOk(model[i])
    {
      this.columns, this.rows, count := columns, rows, 0;
      cells := new int[columns, rows]((c, r) => 0);
      deleted := new bool[rows](i => false);
      versions := new UndoRecord?[rows](i => null);
      records := {};
      chains := seq(rows, i => []);
      new;
      model := seq(rows, i requires 0 <= i < rows && cells.Length1 == rows reads this, cells =>
        Row(CellsAt(i), false, [], [Present(CellsAt(i), false)]));
    }

    ghost function Repr(): set<object>
      reads this
    {
      {this, cells, deleted, versions} + records + (set e | e in records :: e.delta.data)
    }

    ghost predicate Sized()
      reads this
    {
      && cells.Length0 == columns && cells.Length1 == rows && deleted.Length == rows && versions.Length == rows
      && |chains| == |model| == rows && count <= rows
    }

    /** The version pointer leads to the records of the chain, newest first. */
    ghost predicate ChainIs(first: UndoRecord?, chain: seq<UndoRecord>, values: seq<Record>)
      reads this`records, records, set e | e in records :: e.delta.data
    {
      && |values| == |chain| && first == Nth(chain, 0)
      && forall j | 0 <= j < |chain| :: chain[j] in records && chain[j].Is(values[j], Nth(chain, j + 1))
    }

    ghost predicate RowOk(i: nat)
      requires Sized() && i < rows
      reads this, Repr()
    {
      && CellsAt(i) == model[i].cells && deleted[i] == model[i].bitmap
      && ChainIs(versions[i], chains[i], model[i].chain)
    }

    ghost predicate Valid()
      reads Repr()
    {
      && Sized()
      && (forall i | 0 <= i < rows :: RowOk(i))
      && (forall i | count <= i < rows :: deleted[i] == false && chains[i] == [])
    }

    /** The undo buffer of txn holds the records txn made, on this page all of them. */
    ghost predicate Owns(txn: TransactionContext)
      reads this, txn
    {
      && (forall e | e in txn.undo :: e.owner == txn.start)
      && (forall e | e in records && e.owner == txn.start :: e in txn.undo)
    }

    ghost function CellsAt(row: nat): Cells
      requires row < cells.Length1
      reads cells
    {
      map c | 0 <= c < cells.Length0 :: cells[c, row]
    }

    /** Saves the row's values for the chunk's columns, and writes the chunk's over them. */
    method UpdateSingle(chunk: DataChunk, delta: DataChunk, idx: nat)
      requires idx < cells.Length1 && chunk.Valid() && delta.Valid() && delta.ids == chunk.ids
      requires chunk.data != delta.data
      requires forall i | 0 <= i < |chunk.ids| :: chunk.ids[i] < cells.Length0
      modifies cells, delta.data
      ensures delta.Contents() == Restrict(old(CellsAt(idx)), chunk.Contents().Keys)
      ensures CellsAt(idx) == Merge(old(CellsAt(idx)), chunk.Contents())
      ensures forall r | 0 <= r < cells.Length1 && r != idx :: CellsAt(r) == old(CellsAt(r))
    {
      hide CellsOf, Merge, Restrict;
      ghost var before := CellsAt(idx);
      var n := 0;
      while n < |chunk.ids|
        invariant 0 <= n <= |chunk.ids|
        invariant forall i | 0 <= i < n :: delta.data[i] == before[chunk.ids[i]] && cells[chunk.ids[i], idx] == chunk.data[i]
        invariant forall c | 0 <= c < cells.Length0 && c !in chunk.ids[..n] :: cells[c, idx] == before[c]
        invariant forall r, c | 0 <= r < cells.Length1 && r != idx && 0 <= c < cells.Length0 ::
          cells[c, r] == old(cells[c, r])
      {
        var id := chunk.ids[n];
        delta.data[n] := cells[id, idx];
        cells[id, idx] := chunk.data[n];
        n := n + 1;
      }
      assert chunk.ids[..n] == chunk.ids;
      Overwritten(before, CellsAt(idx), chunk.ids, chunk.data[..], delta.data[..]);
    }

    twostate lemma KeptChain(i: nat)
      requires old(Sized()) && Sized() && i < rows && old(ChainIs(versions[i], chains[i], model[i].chain))
      requires model[i] == old(model[i]) && chains[i] == old(chains[i]) && old(records) <= records
      requires versions[i] == old(versions[i])
      requires forall e | e in old(records) :: unchanged(e) && unchanged(e.delta.data)
      ensures ChainIs(versions[i], chains[i], model[i].chain)
    {
      hide CellsOf;
      forall j | 0 <= j < |chains[i]| ensures chains[i][j].Is(model[i].chain[j], Nth(chains[i], j + 1)) {
        assert chains[i][j] in old(records);
      }
    }

    twostate lemma KeptRow(i: nat)
      requires old(Sized()) && Sized() && i < rows && old(RowOk(i))
      requires model[i] == old(model[i]) && chains[i] == old(chains[i]) && old(records) <= records
      requires CellsAt(i) == old(CellsAt(i)) && deleted[i] == old(deleted[i]) && versions[i] == old(versions[i])
      requires forall e | e in old(records) :: unchanged(e) && unchanged(e.delta.data)
      ensures RowOk(i)
    {
      KeptChain(i);
    }

    /** What is fresh, and not in the chains, does not matter. */
    twostate lemma KeptValid()
      requires old(Valid()) && model == old(model) && chains == old(chains) && records == old(records)
      requires count == old(count) && unchanged(cells) && unchanged(deleted) && unchanged(versions)
      requires forall e | e in records :: unchanged(e) && unchanged(e.delta.data)
      ensures Valid()
    {
      forall i | 0 <= i < rows ensures RowOk(i) {
        KeptRow(i);
      }
    }

    lemma Headed(e: UndoRecord, v: Record, first: UndoRecord?, chain: seq<UndoRecord>, values: seq<Record>)
      requires ChainIs(first, chain, values) && e in records && e.Is(v, first)
      ensures ChainIs(e, [e] + chain, [v] + values)
    {
      hide CellsOf;
      var longer, more := [e] + chain, [v] + values;
      forall j | 0 <= j < |longer| ensures longer[j] in records && longer[j].Is(more[j], Nth(longer, j + 1)) {
        assert j > 0 ==>
          longer[j] == chain[j - 1] && more[j] == values[j - 1] && chain[j - 1].Is(values[j - 1], Nth(chain, j));
      }
    }

    /** The new record becomes the head of the chain; the cells of the row may have been written. */
    method Push(idx: nat, e: UndoRecord, ghost v: Record, ghost row: Row)
      requires Sized() && idx < rows && e !in records && e.Is(v, null)
      requires forall i | 0 <= i < rows && i != idx :: RowOk(i)
      requires ChainIs(versions[idx], chains[idx], model[idx].chain)
      requires row.cells == CellsAt(idx) && row.bitmap == deleted[idx] && row.chain == [v] + model[idx].chain
      modifies versions, e`next, this`chains, this`records, this`model
      requires forall i | count <= i < rows :: i != idx && deleted[i] == false && chains[i] == []
      ensures Valid() && records == old(records) + {e} && model == old(model)[idx := row]
    {
      hide CellsOf, ChainIs;
      e.next := versions[idx];
      records := records + {e};
      KeptChain(idx);
      Headed(e, v, versions[idx], chains[idx], model[idx].chain);
      versions[idx] := e;
      chains := chains[idx := [e] + chains[idx]];
      model := model[idx := row];
      forall i | 0 <= i < rows && i != idx ensures RowOk(i) {
        KeptRow(i);
      }
      assert RowOk(idx);
    }

    /** Copies the row's columns into the chunk. */
    method ReadSingleIntoChunk(idx: nat, chunk: DataChunk)
      requires idx < cells.Length1 && chunk.Valid()
      requires forall i | 0 <= i < |chunk.ids| :: chunk.ids[i] < cells.Length0
      modifies chunk.data
      ensures chunk.Contents() == Restrict(CellsAt(idx), set c | c in chunk.ids)
    {
      hide CellsOf;
      for n := 0 to |chunk.ids|
        invariant forall i | 0 <= i < n :: chunk.data[i] == cells[chunk.ids[i], idx]
      {
        chunk.Write(chunk.ids[n], cells[chunk.ids[n], idx]);
      }
      SameCells(Restrict(CellsAt(idx), set c | c in chunk.ids), chunk.ids, chunk.data[..]);
    }

    lemma NthOf(i: nat, k: nat)
      requires Sized() && i < rows && RowOk(i) && k <= |model[i].chain|
      ensures k < |model[i].chain| <==> Nth(chains[i], k) != null
      ensures k < |model[i].chain| ==>
        var e := chains[i][k];
        && Nth(chains[i], k) == e && e in records && e.Is(model[i].chain[k], Nth(chains[i], k + 1))
        && model[i].chain[k..][0] == model[i].chain[k] && model[i].chain[k..][1..] == model[i].chain[k + 1..]
    {
    }

    lemma HeadOf(i: nat)
      requires Valid() && i < rows
      ensures versions[i] == Nth(chains[i], 0) && |chains[i]| == |model[i].chain|
      ensures versions[i] == null <==> model[i].chain == []
      ensures versions[i] != null ==>
        var head := model[i].chain[0];
        versions[i] in records && head.stamp == versions[i].stamp && head.kind == versions[i].kind
    {
      assert RowOk(i);
    }

    method UpdateUndo(txn: TransactionContext, idx: nat, chunk: DataChunk) returns (ok: bool)
      requires Valid() && Owns(txn) && idx < count && chunk.Valid()
      requires forall i | 0 <= i < |chunk.ids| :: chunk.ids[i] < columns
      modifies cells, versions, txn`undo, this`chains, this`records, this`model
      ensures Valid() && Owns(txn) && old(txn.undo) <= txn.undo
      ensures forall e | e in records - old(records) :: fresh(e) && e.owner == txn.start
      ensures ok == CanUpdate(old(model[idx]), txn.start)
      ensures model == if ok then old(model)[idx := UpdateRow(old(model[idx]), txn.start, chunk.Contents())] else old(model)
    {
      hide Merge, Restrict, CellsOf, ChainIs;
      HeadOf(idx);
      assert RowOk(idx);
      var record := new UndoRecord(Update, txn.start, chunk.ids);
      txn.undo := txn.undo + [record];
      var version := versions[idx];
      if version != null && (HasConflict(version.stamp, Uncommitted(txn.start), txn.start) || deleted[idx]) {
        record.invalid := true;
        KeptValid();
        return false;
      }
      UpdateSingle(chunk, record.delta, idx);
      forall i | 0 <= i < rows && i != idx ensures RowOk(i) {
        KeptRow(i);
      }
      KeptChain(idx);
      Push(idx, record, UpdateRow(model[idx], txn.start, chunk.Contents()).chain[0],
        UpdateRow(model[idx], txn.start, chunk.Contents()));
      ok := true;
    }

    /** The raw delete: the page is not touched. */
    method DeleteUndoRaw(txn: TransactionContext, idx: nat) returns (ok: bool)
      requires Valid() && Owns(txn) && idx < count
      modifies versions, txn`undo, this`chains, this`records, this`model
      ensures Valid() && Owns(txn) && old(txn.undo) <= txn.undo
      ensures forall e | e in records - old(records) :: fresh(e) && e.owner == txn.start
      ensures ok == CanDelete(old(model[idx]), txn.start, false)
      ensures model == if ok then old(model)[idx := DeleteRow(old(model[idx]), txn.start, false)] else old(model)
    {
      hide ChainIs;
      HeadOf(idx);
      assert RowOk(idx);
      var record := new UndoRecord(Kind.Delete, txn.start, []);
      txn.undo := txn.undo + [record];
      var version := versions[idx];
      if version != null && (HasConflict(version.stamp, Uncommitted(txn.start), txn.start) || version.kind.Delete?) {
        record.invalid := true;
        KeptValid();
        return false;
      }
      KeptValid();
      assert RowOk(idx);
      Push(idx, record, Record(Kind.Delete, Uncommitted(txn.start), txn.start, map[]), DeleteRow(model[idx], txn.start,
        false));
      ok := true;
    }

    /** The delete under the page's data lock: the deletion bit is tested, and set. */
    method Delete(txn: TransactionContext, idx: nat) returns (ok: bool)
      requires Valid() && Owns(txn) && idx < count
      modifies versions, deleted, txn`undo, this`chains, this`records, this`model
      ensures Valid() && Owns(txn) && old(txn.undo) <= txn.undo
      ensures forall e | e in records - old(records) :: fresh(e) && e.owner == txn.start
      ensures forall i | 0 <= i < rows :: deleted[i] == (old(deleted[i]) || (ok && i == idx))
      ensures ok == CanDelete(old(model[idx]), txn.start, true)
      ensures model == if ok then old(model)[idx := DeleteRow(old(model[idx]), txn.start, true)] else old(model)
    {
      hide ChainIs;
      HeadOf(idx);
      assert RowOk(idx);
      var record := new UndoRecord(Kind.Delete, txn.start, []);
      txn.undo := txn.undo + [record];
      var version := versions[idx];
      if (version != null && HasConflict(version.stamp, Uncommitted(txn.start), txn.start)) || deleted[idx] {
        record.invalid := true;
        KeptValid();
        return false;
      }
      deleted[idx] := true;
      forall i | 0 <= i < rows && i != idx ensures RowOk(i) {
        KeptRow(i);
      }
      KeptChain(idx);
      Push(idx, record, Record(Kind.Delete, Uncommitted(txn.start), txn.start, map[]), DeleteRow(model[idx], txn.start,
        true));
      ok := true;
    }

    /** A new row takes the next place on the page. Columns the chunk leaves out keep what is there. */
    method Insert(txn: TransactionContext, chunk: DataChunk) returns (idx: nat)
      requires Valid() && Owns(txn) && count + 1 < rows && chunk.Valid()
      requires forall i | 0 <= i < |chunk.ids| :: chunk.ids[i] < columns
      modifies cells, versions, txn`undo, this`count, this`chains, this`records, this`model
      ensures Valid() && Owns(txn) && old(txn.undo) <= txn.undo && idx == old(count) && count == idx + 1
      ensures forall e | e in records - old(records) :: fresh(e) && e.owner == txn.start
      ensures model == old(model)[idx := InsertRow(txn.start, Merge(old(CellsAt(count)), chunk.Contents()))]
    {
      hide Merge, Restrict, CellsOf, ChainIs;
      assert RowOk(count);
      idx := count;
      count := count + 1;
      var overwritten := new DataChunk(chunk.ids);
      UpdateSingle(chunk, overwritten, idx);
      var record := new UndoRecord(Kind.Insert, txn.start, []);
      txn.undo := txn.undo + [record];
      forall i | 0 <= i < rows && i != idx ensures RowOk(i) {
        KeptRow(i);
      }
      KeptChain(idx);
      NoRecords(versions[idx], model[idx].chain);
      Push(idx, record, Record(Kind.Insert, Uncommitted(txn.start), txn.start, map[]), InsertRow(txn.start, CellsAt(idx)));
    }

    lemma NoRecords(first: UndoRecord?, values: seq<Record>)
      requires ChainIs(first, [], values)
      ensures first == null && values == []
    {
    }

    /** Reads the row into the chunk, and undoes what is newer than the reader. */
    method SelectIntoChunk(txn: TransactionContext, idx: nat, chunk: DataChunk) returns (status: Status)
      requires Valid() && idx < rows && chunk.Valid()
      requires forall i | 0 <= i < |chunk.ids| :: chunk.ids[i] < columns
      requires forall e | e in records :: e.delta.data != chunk.data
      modifies chunk.data
      ensures Valid()
      ensures (chunk.Contents(), status) == Select(model[idx], txn.start, set c | c in chunk.ids)
    {
      hide Merge, Restrict, CellsOf, ChainIs;
      HeadOf(idx);
      assert RowOk(idx);
      ghost var chain := model[idx].chain;
      ReadSingleIntoChunk(idx, chunk);
      ghost var read := chunk.Contents();
      KeptValid();
      var version := versions[idx];
      var isDeleted := if version == null then deleted[idx] else version.kind.Delete?;
      if version == null || version.stamp == Uncommitted(txn.start) {
        return if isDeleted then Deleted else Visible;
      }
      ghost var k := 0;
      assert chain[0..] == chain;
      while version != null && IsNewerThan(version.stamp, txn.start)
        invariant k <= |chain| && RowOk(idx) && Sized() && version == Nth(chains[idx], k)
        invariant Undo(chain, read, txn.start) == Undo(chain[k..], chunk.Contents(), txn.start)
        decreases |chain| - k
      {
        NthOf(idx, k);
        match version.kind {
          case Update => MergeChunks(chunk, version.delta);
          case Insert =>
            KeptValid();
            return NotVisible;
          case Delete =>
        }
        KeptRow(idx);
        version := version.next;
        k := k + 1;
      }
      NthOf(idx, k);
      KeptValid();
      assert Undo(chain[k..], chunk.Contents(), txn.start) == (chunk.Contents(), true);
      status := if isDeleted then Deleted else Visible;
    }

    /** Commit's loop over the undo buffer: every record of the transaction gets the commit time. */
    method RestampVersions(txn: TransactionContext, commit: nat)
      requires Valid() && Owns(txn)
      modifies txn.undo, this`model
      ensures Valid() && Owns(txn) && |model| == |old(model)|
      ensures forall i | 0 <= i < rows :: model[i] == Restamped(old(model[i]), txn.start, commit)
    {
      hide CellsOf, ChainIs;
      for n := 0 to |txn.undo|
        invariant txn.undo == old(txn.undo) && model == old(model)
        invariant forall e | e in records :: e.next == old(e.next) && unchanged(e.delta.data)
        invariant forall e | e in txn.undo[..n] :: e.stamp == commit
        invariant forall e | e in records && e !in txn.undo[..n] :: e.stamp == old(e.stamp)
      {
        txn.undo[n].stamp := commit;
      }
      assert txn.undo[..|txn.undo|] == txn.undo;
      ghost var was, t := model, txn.start;
      StampedRows(t, commit);
      model := seq(rows, i requires 0 <= i < |was| => Restamped(was[i], t, commit));
      assert forall i | 0 <= i < rows :: model[i] == Restamped(was[i], t, commit);
      forall i | 0 <= i < rows ensures RowOk(i) {
        assert old(RowOk(i));
        assert model[i] == Restamped(was[i], t, commit);
        assert CellsAt(i) == old(CellsAt(i));
      }
    }

    twostate lemma StampedRows(new t: Txn, new commit: nat)
      requires old(Valid())
      requires records == old(records) && chains == old(chains) && |model| == |old(model)|
      requires unchanged(versions)
      requires forall e | e in records :: e.next == old(e.next) && unchanged(e.delta.data)
      requires forall e | e in records :: e.stamp == if e.owner == t then commit else old(e.stamp)
      ensures forall i | 0 <= i < rows :: ChainIs(versions[i], chains[i], Restamped(old(model[i]), t, commit).chain)
    {
      hide ChainIs, CellsOf;
      forall i | 0 <= i < rows
        ensures ChainIs(versions[i], chains[i], Restamped(old(model[i]), t, commit).chain)
      {
        assert old(RowOk(i));
        StampedRow(i, t, commit);
      }
    }

    twostate lemma StampedRow(new i: nat, new t: Txn, new commit: nat)
      requires old(Sized())
      requires i < rows
      requires old(ChainIs(versions[i], chains[i], model[i].chain))
      requires records == old(records) && chains == old(chains)
      requires versions[i] == old(versions[i])
      requires forall e | e in records :: e.next == old(e.next) && unchanged(e.delta.data)
      requires forall e | e in records :: e.stamp == if e.owner == t then commit else old(e.stamp)
      ensures ChainIs(versions[i], chains[i], Restamped(old(model[i]), t, commit).chain)
    {
      hide CellsOf;
      var chain, values := chains[i], old(model[i].chain);
      forall j | 0 <= j < |chain|
        ensures chain[j].Is(Restamped(old(model[i]), t, commit).chain[j], Nth(chain, j + 1))
      {
        assert chain[j] in records;
        assert old(chains[i][j].Is(model[i].chain[j], Nth(chains[i], j + 1)));
      }
    }
  }

  /** All records of t on the row stamped at once. */
  ghost function Restamped(row: Row, t: Txn, commit: nat): (r: Row)
    ensures |r.chain| == |row.chain|
    ensures forall i | 0 <= i < |r.chain| ::
      r.chain[i] == if row.chain[i].owner == t then row.chain[i].(stamp := commit) else row.chain[i]
  {
    row.(chain := seq(|row.chain|, i requires 0 <= i < |row.chain| =>
      if row.chain[i].owner == t then row.chain[i].(stamp := commit) else row.chain[i]))
  }

  /** The loop is a run of the machine's restamp steps: on each row, oldest record first. */
  lemma {:induction false} RestampLoopIsSteps(s: State, t: Txn, r: RowId, n: nat) returns (steps: seq<Step>, u: State)
    requires Inv(s) && t in s.txns && s.txns[t].Committing? && r in s.rows && n <= |s.rows[r].chain|
    requires forall j | n <= j < |s.rows[r].chain|
      && s.rows[r].chain[j].owner == t :: s.rows[r].chain[j].stamp == s.txns[t].commit
    ensures Along(s, steps, u) && forall i | 0 <= i < |steps| :: steps[i].Restamp? && steps[i].t == t && steps[i].r == r
    ensures u == s.(rows := s.rows[r := Restamped(s.rows[r], t, s.txns[t].commit)])
    decreases n
  {
    hide ClockOk, LatchOk, LogOk;
    var row, commit := s.rows[r], s.txns[t].commit;
    if n == 0 {
      steps, u := [], s;
      assert Restamped(row, t, commit).chain == row.chain;
      assert s.rows[r := row] == s.rows;
    } else {
      var i := n - 1;
      assert ChainOk(s, row.chain) && RecordOk(s, row.chain[i]);
      if row.chain[i].owner == t && row.chain[i].stamp == Uncommitted(t) {
        var step := Restamp(t, r, i);
        CommitIsNot(s, t);
        StepKeeps(s, step);
        var mid := Do(s, step);
        var more;
        more, u := RestampLoopIsSteps(mid, t, r, i);
        steps := [step] + more;
        assert steps[1..] == more;
        assert Restamped(mid.rows[r], t, commit).chain == Restamped(row, t, commit).chain;
        assert mid.rows[r := Restamped(mid.rows[r], t, commit)] == s.rows[r := Restamped(row, t, commit)];
      } else {
        steps, u := RestampLoopIsSteps(s, t, r, i);
      }
    }
  }

  lemma CommitIsNot(s: State, t: Txn)
    requires ClockOk(s) && t in s.txns && s.txns[t].Committing?
    ensures s.txns[t].commit != Uncommitted(t)
  {
  }
}
