/** A unique index over the rows: under any interleaving of inserts through it, deletes and commits, a key
    has at most one live row, unless a deleted row is updated. */
module MvccUnique {
  import opened ByteOrder
  import opened Mvcc
  import opened MvccSafety
  import opened MvccReads

  /** The columns, with identifier 0. */
  type Key = Bytes

  /** entries: what the index holds; entries of deleted rows stay until the index deletes them. */
  datatype Indexed = Indexed(s: State, entries: iset<(Key, RowId)>)

  /** The test the index makes, under its page latches, on every row it holds for the key. */
  predicate HasUniqueConflict(row: Row, t: Txn) {
    row.chain == [] || !(row.chain[0].kind.Delete? && !HasConflict(row.chain[0].stamp, Uncommitted(t), t))
  }

  predicate InsertedBy(row: Row, t: Txn) {
    row.chain != [] && row.chain[|row.chain| - 1].kind.Insert? && row.chain[|row.chain| - 1].owner == t
  }

  /** The row's newest records are deletes as far as a delete that is t's own or was committed before t began. */
  ghost predicate ClearedAt(s: State, chain: seq<Record>, t: Txn, d: nat) {
    && d < |chain| && (forall i | 0 <= i <= d :: chain[i].kind.Delete?)
    && (chain[d].owner == t || Settled(s, chain[d], t))
  }

  /** What is left of a passed test: the row was deleted for t, and it has not been updated since. */
  ghost predicate Cleared(s: State, row: Row, t: Txn) {
    exists d: nat :: ClearedAt(s, row.chain, t, d)
  }

  /** The entry for a row t has just inserted goes in once the test has passed on all the key's rows. */
  ghost predicate Enters(x: Indexed, y: Indexed, t: Txn, key: Key, r: RowId) {
    && IsRunning(x.s, t) && r in x.s.rows && InsertedBy(x.s.rows[r], t)
    && (forall z | (key, z) in x.entries :: z in x.s.rows && Cleared(x.s, x.s.rows[z], t))
    && y == x.(entries := x.entries + iset{(key, r)})
  }

  ghost predicate RowStep(x: Indexed, y: Indexed, step: Step) {
    Enabled(x.s, step) && y == x.(s := Do(x.s, step))
  }

  /** The index deletes entries. */
  ghost predicate Removes(x: Indexed, y: Indexed) {
    y.s == x.s && y.entries <= x.entries
  }

  ghost predicate Moves(x: Indexed, y: Indexed) {
    || (exists step :: RowStep(x, y, step))
    || (exists t, key, r :: Enters(x, y, t, key, r))
    || Removes(x, y)
  }

  /** At the start a key has at most one row. */
  ghost predicate InitIndexed(x: Indexed) {
    && Init(x.s)
    && (forall k, a | (k, a) in x.entries :: a in x.s.rows)
    && (forall k, a, b | (k, a) in x.entries && (k, b) in x.entries :: a == b)
  }

  ghost predicate Run(states: seq<Indexed>) {
    && states != [] && InitIndexed(states[0])
    && forall i | 0 <= i < |states| - 1 :: Moves(states[i], states[i + 1])
  }

  // ---- one live row ----

  ghost predicate Live(s: State, r: RowId) {
    r in s.rows && !IsDeleted(s.rows[r])
  }

  ghost predicate Both(x: Indexed, k: Key, a: RowId, b: RowId) {
    a != b && (k, a) in x.entries && (k, b) in x.entries
  }

  ghost predicate LiveOnce(x: Indexed) {
    && (forall k, a | (k, a) in x.entries :: a in x.s.rows)
    && (forall k, a, b | Both(x, k, a, b) :: !(Live(x.s, a) && Live(x.s, b)))
  }

  /** An update of a deleted row while another row of its key is live. */
  ghost predicate RevivesBeside(x: Indexed, step: Step) {
    && step.UpdateIn? && step.r in x.s.rows && !Live(x.s, step.r)
    && exists k, b :: Both(x, k, step.r, b) && Live(x.s, b)
  }

  ghost predicate MoveRevives(x: Indexed, y: Indexed) {
    exists step :: RowStep(x, y, step) && RevivesBeside(x, step)
  }

  /** Only an update makes a deleted row live. */
  lemma LiveBefore(s: State, step: Step, r: RowId)
    requires Enabled(s, step) && r in s.rows
    ensures r in Do(s, step).rows
    ensures Live(Do(s, step), r) && !(step.UpdateIn? && step.r == r) ==> Live(s, r)
    ensures step.UpdateIn? && step.r == r ==> Live(Do(s, step), r)
  {
  }

  lemma OthersAlike(s: State, step: Step, r: RowId)
    requires Enabled(s, step) && r in s.rows && step.UpdateIn? && step.r != r
    ensures r in Do(s, step).rows && (Live(Do(s, step), r) <==> Live(s, r))
  {
  }

  /** A row step gives a key a second live row just when it updates a deleted row beside a live one. */
  lemma SecondLiveIff(x: Indexed, y: Indexed, step: Step)
    requires LiveOnce(x) && RowStep(x, y, step)
    ensures !LiveOnce(y) <==> RevivesBeside(x, step)
  {
    hide Enabled, Do, Live, InitIndexed;
    forall k, a | (k, a) in y.entries ensures a in y.s.rows {
      LiveBefore(x.s, step, a);
    }
    if RevivesBeside(x, step) {
      var k, b :| Both(x, k, step.r, b) && Live(x.s, b);
      LiveBefore(x.s, step, step.r);
      OthersAlike(x.s, step, b);
      assert Both(y, k, step.r, b);
    } else {
      forall k, a, b | Both(y, k, a, b) ensures !(Live(y.s, a) && Live(y.s, b)) {
        assert Both(x, k, a, b) && Both(x, k, b, a);
        LiveBefore(x.s, step, a);
        LiveBefore(x.s, step, b);
      }
    }
  }

  lemma ClearedIsDeleted(s: State, row: Row, t: Txn)
    requires Cleared(s, row, t)
    ensures IsDeleted(row)
  {
  }

  lemma EntersLiveOnce(x: Indexed, y: Indexed, t: Txn, key: Key, r: RowId)
    requires LiveOnce(x) && Enters(x, y, t, key, r)
    ensures LiveOnce(y)
  {
    hide Cleared;
    forall z | (key, z) in x.entries ensures !Live(x.s, z) {
      ClearedIsDeleted(x.s, x.s.rows[z], t);
    }
    forall k, a, b | Both(y, k, a, b) ensures !(Live(y.s, a) && Live(y.s, b)) {
      assert Both(x, k, a, b) || (k == key && (a == r || b == r));
    }
  }

  lemma MoveLiveOnce(x: Indexed, y: Indexed)
    requires LiveOnce(x) && Moves(x, y)
    ensures !LiveOnce(y) <==> MoveRevives(x, y)
  {
    hide LiveOnce, RowStep, Enters, RevivesBeside;
    if step :| RowStep(x, y, step) && RevivesBeside(x, step) {
      SecondLiveIff(x, y, step);
    } else if step :| RowStep(x, y, step) {
      SecondLiveIff(x, y, step);
    } else if t, key, r :| Enters(x, y, t, key, r) {
      EntersLiveOnce(x, y, t, key, r);
    } else {
      assert LiveOnce(y) by { RemovesLiveOnce(x, y); }
    }
  }

  lemma RemovesLiveOnce(x: Indexed, y: Indexed)
    requires LiveOnce(x) && Removes(x, y)
    ensures LiveOnce(y)
  {
    hide Live;
    forall k, a, b | Both(y, k, a, b) ensures !(Live(y.s, a) && Live(y.s, b)) {
      assert Both(x, k, a, b);
    }
  }

  lemma {:induction false} LiveOnceAt(states: seq<Indexed>, n: nat)
    requires Run(states) && n < |states| && forall i | 0 <= i < n :: !MoveRevives(states[i], states[i + 1])
    ensures LiveOnce(states[n])
  {
    hide LiveOnce, Moves, MoveRevives, InitIndexed;
    if n == 0 {
      StartsLiveOnce(states[0]);
    } else {
      LiveOnceAt(states, n - 1);
      assert Moves(states[n - 1], states[n - 1 + 1]) && !MoveRevives(states[n - 1], states[n - 1 + 1]);
      MoveLiveOnce(states[n - 1], states[n]);
    }
  }

  /** Whatever the transactions do: no key ever has two live rows, if and only if no deleted row of a key that
      has a live one is updated. */
  lemma OneLiveIff(states: seq<Indexed>)
    requires Run(states)
    ensures (forall i | 0 <= i < |states| :: LiveOnce(states[i]))
      <==> (forall i | 0 <= i < |states| - 1 :: !MoveRevives(states[i], states[i + 1]))
  {
    hide LiveOnce, Moves, MoveRevives, InitIndexed;
    if forall i | 0 <= i < |states| :: LiveOnce(states[i]) {
      forall i | 0 <= i < |states| - 1 ensures !MoveRevives(states[i], states[i + 1]) {
        assert LiveOnce(states[i]) && LiveOnce(states[i + 1]);
        MoveLiveOnce(states[i], states[i + 1]);
      }
    }
    if forall i | 0 <= i < |states| - 1 :: !MoveRevives(states[i], states[i + 1]) {
      forall i | 0 <= i < |states| ensures LiveOnce(states[i]) {
        LiveOnceAt(states, i);
      }
    }
  }

  lemma StartsLiveOnce(x: Indexed)
    requires InitIndexed(x)
    ensures LiveOnce(x)
  {
  }

  // ---- tests and what becomes of them ----

  /** The test passes just when the row's delete is the tester's own or was committed before it began. */
  lemma UniqueTestExact(s: State, t: Txn, r: RowId)
    requires Inv(s) && IsRunning(s, t) && r in s.rows
    ensures var chain := s.rows[r].chain;
      !HasUniqueConflict(s.rows[r], t)
      <==> chain != [] && chain[0].kind.Delete? && (chain[0].owner == t || Settled(s, chain[0], t))
  {
    assert ChainOk(s, s.rows[r].chain);
    if s.rows[r].chain != [] {
      ConflictDecides(s, s.rows[r].chain, t);
    }
  }

  lemma PassedTestClears(s: State, t: Txn, r: RowId)
    requires Inv(s) && IsRunning(s, t) && r in s.rows && !HasUniqueConflict(s.rows[r], t)
    ensures Cleared(s, s.rows[r], t)
  {
    UniqueTestExact(s, t, r);
    assert ClearedAt(s, s.rows[r].chain, t, 0);
  }

  lemma SettledForGood(s: State, step: Step, e: Record, t: Txn)
    requires ClockOk(s) && Enabled(s, step) && Settled(s, e, t)
    ensures Settled(Do(s, step), e, t)
  {
  }

  /** The kinds and owners of the records of a, behind k new ones. */
  ghost predicate Grown(a: seq<Record>, b: seq<Record>, k: nat) {
    |b| == k + |a| && forall i | 0 <= i < |a| :: b[k + i].kind == a[i].kind && b[k + i].owner == a[i].owner
  }

  lemma ChainPushed(s: State, step: Step, r: RowId)
    requires Enabled(s, step) && r in s.rows && Pushes(step, r)
    ensures r in Do(s, step).rows && Grown(s.rows[r].chain, Do(s, step).rows[r].chain, 1)
    ensures var e := Do(s, step).rows[r].chain[0];
      e.kind == (if step.UpdateIn? then Update else Delete) && e.owner == step.t
  {
    hide CanUpdate, CanDelete, Restrict, Merge, IsRunning, Grown, Unstamped, Stamped, InsertRow;
    var a, b := s.rows[r].chain, Do(s, step).rows[r].chain;
    assert b == [b[0]] + a;
    OneMore(a, b);
  }

  lemma OneMore(a: seq<Record>, b: seq<Record>)
    requires b != [] && b == [b[0]] + a
    ensures Grown(a, b, 1)
  {
  }

  lemma ChainStays(s: State, step: Step, r: RowId)
    requires Enabled(s, step) && r in s.rows && !Pushes(step, r)
    ensures r in Do(s, step).rows && Grown(s.rows[r].chain, Do(s, step).rows[r].chain, 0)
  {
    hide Enabled, Do;
    SameButStamp(s, step, r);
  }

  /** A step puts at most one record in front of a row's chain, and leaves the others their kinds and owners. */
  lemma ChainGrows(s: State, step: Step, r: RowId) returns (k: nat)
    requires Enabled(s, step) && r in s.rows
    ensures k == (if Pushes(step, r) then 1 else 0)
    ensures r in Do(s, step).rows && Grown(s.rows[r].chain, Do(s, step).rows[r].chain, k)
    ensures Pushes(step, r) ==>
      var e := Do(s, step).rows[r].chain[0];
      e.kind == (if step.UpdateIn? then Update else Delete) && e.owner == step.t
  {
    hide Enabled, Do, Grown, Pushes;
    if Pushes(step, r) {
      k := 1;
      ChainPushed(s, step, r);
    } else {
      k := 0;
      ChainStays(s, step, r);
    }
  }

  /** Only an update of the row takes it back, whatever becomes of t. */
  lemma ClearedForGood(s: State, step: Step, r: RowId, t: Txn)
    requires Inv(s) && Enabled(s, step) && r in s.rows && Cleared(s, s.rows[r], t)
    ensures r in Do(s, step).rows
    ensures Cleared(Do(s, step), Do(s, step).rows[r], t) <==> !(step.UpdateIn? && step.r == r)
  {
    hide Enabled, Do, Inv, Settled;
    var k := ChainGrows(s, step, r);
    var u := Do(s, step);
    var a, b := s.rows[r].chain, u.rows[r].chain;
    if step.UpdateIn? && step.r == r {
      assert !b[0].kind.Delete?;
    } else {
      var d: nat :| ClearedAt(s, a, t, d);
      forall i | 0 <= i <= k + d ensures b[i].kind.Delete? {
        assert i >= k ==> b[k + (i - k)].kind == a[i - k].kind;
      }
      assert b[k + d].owner == a[d].owner;
      if a[d].owner != t {
        assert ClockOk(s) by { ClockOf(s); }
        SettledForGood(s, step, a[d], t);
        SettledByOwner(u, a[d], b[k + d], t);
      }
      assert ClearedAt(u, b, t, k + d);
    }
  }

  /** The steps of others that undo a passed test: an update of the row, which a raw delete does not prevent, or
      another delete in front of the one tested, which only the page delete of another is. */
  ghost predicate Undoes(step: Step, t: Txn, r: RowId) {
    Pushes(step, r) && (step.UpdateIn? || (step.page && step.t != t))
  }

  lemma PassedTestLostIff(s: State, step: Step, t: Txn, r: RowId)
    requires Inv(s) && Enabled(s, step) && IsRunning(s, t) && !Ends(step, t)
    requires r in s.rows && !HasUniqueConflict(s.rows[r], t)
    ensures Inv(Do(s, step)) && IsRunning(Do(s, step), t) && r in Do(s, step).rows
    ensures HasUniqueConflict(Do(s, step).rows[r], t) <==> Undoes(step, t, r)
  {
    hide Enabled, Do, Inv, HasUniqueConflict, Settled;
    var u := Do(s, step);
    StepKeeps(s, step);
    assert IsRunning(u, t) by {
      ClockOf(s);
      RunsOn(s, step, t);
    }
    UniqueTestExact(s, t, r);
    var k := ChainGrows(s, step, r);
    UniqueTestExact(u, t, r);
    var e, d := s.rows[r].chain[0], u.rows[r].chain[k];
    assert d.kind == e.kind && d.owner == e.owner;
    if k == 1 {
      PushedOnDelete(s, step, t, r);
    } else if e.owner != t {
      assert ClockOk(s) by { ClockOf(s); }
      SettledForGood(s, step, e, t);
      SettledByOwner(u, e, d, t);
    }
  }

  lemma PushedOnDelete(s: State, step: Step, t: Txn, r: RowId)
    requires Inv(s) && Enabled(s, step) && IsRunning(s, t) && Pushes(step, r)
    requires s.rows[r].chain != [] && s.rows[r].chain[0].kind.Delete?
    ensures step.DeleteFrom? ==> step.page
    ensures step.t != t ==> Do(s, step).rows[r].chain[0].owner != t && !Settled(Do(s, step), Do(s, step).rows[r].chain[0], t)
  {
  }

  /** The test passes in every state along the steps. */
  ghost predicate PassesAlong(s: State, steps: seq<Step>, t: Txn, r: RowId)
    decreases |steps|
  {
    && r in s.rows && !HasUniqueConflict(s.rows[r], t)
    && (steps != [] ==> Enabled(s, steps[0]) && PassesAlong(Do(s, steps[0]), steps[1..], t, r))
  }

  /** Over any steps of any transactions, as long as the tester runs: a passed test stays passed all along if and only
      if no step undoes it. */
  lemma {:induction false} PassedTestsStayIff(s: State, steps: seq<Step>, u: State, t: Txn, r: RowId)
    requires Inv(s) && Along(s, steps, u) && IsRunning(s, t)
    requires forall i | 0 <= i < |steps| :: !Ends(steps[i], t)
    requires r in s.rows && !HasUniqueConflict(s.rows[r], t)
    ensures PassesAlong(s, steps, t, r) <==> forall i | 0 <= i < |steps| :: !Undoes(steps[i], t, r)
    decreases |steps|
  {
    hide Enabled, Do, Inv, HasUniqueConflict, Undoes, Ends;
    if steps != [] {
      assert !Ends(steps[0], t);
      PassedTestLostIff(s, steps[0], t, r);
      var u1, rest := Do(s, steps[0]), steps[1..];
      if Undoes(steps[0], t, r) {
        assert !PassesAlong(u1, rest, t, r);
      } else {
        forall i | 0 <= i < |rest| ensures !Ends(rest[i], t) {
          assert !Ends(steps[i + 1], t);
        }
        PassedTestsStayIff(u1, rest, u, t, r);
        assert forall i | 0 <= i < |rest| :: rest[i] == steps[i + 1];
        assert forall i | 0 < i < |steps| :: steps[i] == rest[i - 1];
      }
    }
  }

  // ---- rows that have been replaced ----

  /** b came after a was deleted: its inserter deleted a too, or began after that delete was committed. */
  ghost predicate Replaced(s: State, a: Row, b: Row) {
    && b.chain != [] && b.chain[|b.chain| - 1].kind.Insert?
    && Cleared(s, a, b.chain[|b.chain| - 1].owner)
  }

  ghost predicate EntriesOk(x: Indexed) {
    && (forall k, a | (k, a) in x.entries :: a in x.s.rows)
    && (forall k, a, b | Both(x, k, a, b) ::
          Replaced(x.s, x.s.rows[a], x.s.rows[b]) || Replaced(x.s, x.s.rows[b], x.s.rows[a]))
  }

  ghost predicate UniqueInv(x: Indexed) {
    Inv(x.s) && EntriesOk(x)
  }

  /** An update of a row after another row of its key has replaced it. */
  ghost predicate RevivesReplaced(x: Indexed, step: Step) {
    && step.UpdateIn? && step.r in x.s.rows
    && exists k, b :: Both(x, k, step.r, b) && b in x.s.rows && Replaced(x.s, x.s.rows[step.r], x.s.rows[b])
  }

  lemma ReplacedForGood(s: State, step: Step, a: RowId, b: RowId)
    requires Inv(s) && Enabled(s, step) && a in s.rows && b in s.rows
    requires Replaced(s, s.rows[a], s.rows[b]) && !(step.UpdateIn? && step.r == a)
    ensures a in Do(s, step).rows && b in Do(s, step).rows
    ensures Replaced(Do(s, step), Do(s, step).rows[a], Do(s, step).rows[b])
  {
    hide Enabled, Do, Inv, Cleared;
    var k := ChainGrows(s, step, b);
    var c, d := s.rows[b].chain, Do(s, step).rows[b].chain;
    assert d[k + (|c| - 1)].kind == c[|c| - 1].kind && d[k + (|c| - 1)].owner == c[|c| - 1].owner;
    ClearedForGood(s, step, a, c[|c| - 1].owner);
  }

  lemma RowStepKeeps(x: Indexed, y: Indexed, step: Step)
    requires UniqueInv(x) && RowStep(x, y, step) && !RevivesReplaced(x, step)
    ensures UniqueInv(y)
  {
    hide Enabled, Do, Inv, Replaced;
    StepKeeps(x.s, step);
    forall k, a | (k, a) in y.entries ensures a in y.s.rows {
      LiveBefore(x.s, step, a);
    }
    forall k, a, b | Both(y, k, a, b)
      ensures Replaced(y.s, y.s.rows[a], y.s.rows[b]) || Replaced(y.s, y.s.rows[b], y.s.rows[a])
    {
      assert Both(x, k, a, b) && Both(x, k, b, a);
      if Replaced(x.s, x.s.rows[a], x.s.rows[b]) {
        ReplacedForGood(x.s, step, a, b);
      } else {
        ReplacedForGood(x.s, step, b, a);
      }
    }
  }

  lemma EntersKeeps(x: Indexed, y: Indexed, t: Txn, key: Key, r: RowId)
    requires UniqueInv(x) && Enters(x, y, t, key, r)
    ensures UniqueInv(y)
  {
    hide Inv, Cleared;
    forall k, a, b | Both(y, k, a, b)
      ensures Replaced(y.s, y.s.rows[a], y.s.rows[b]) || Replaced(y.s, y.s.rows[b], y.s.rows[a])
    {
      assert Both(x, k, a, b) || (k == key && (a == r || b == r));
    }
  }

  lemma MoveKeeps(x: Indexed, y: Indexed)
    requires UniqueInv(x) && Moves(x, y) && !BringsBack(x, y)
    ensures UniqueInv(y)
  {
    hide UniqueInv, RowStep, Enters, RevivesReplaced;
    if step :| RowStep(x, y, step) {
      RowStepKeeps(x, y, step);
    } else if t, key, r :| Enters(x, y, t, key, r) {
      EntersKeeps(x, y, t, key, r);
    } else {
      assert UniqueInv(y) by { RemovesKeeps(x, y); }
    }
  }

  lemma RemovesKeeps(x: Indexed, y: Indexed)
    requires UniqueInv(x) && Removes(x, y)
    ensures UniqueInv(y)
  {
    hide Inv, Replaced;
    forall k, a, b | Both(y, k, a, b)
      ensures Replaced(y.s, y.s.rows[a], y.s.rows[b]) || Replaced(y.s, y.s.rows[b], y.s.rows[a])
    {
      assert Both(x, k, a, b);
    }
  }

  ghost predicate BringsBack(x: Indexed, y: Indexed) {
    exists step :: RowStep(x, y, step) && RevivesReplaced(x, step)
  }

  /** A run that updates no replaced row. */
  ghost predicate NoneBroughtBack(states: seq<Indexed>) {
    forall i | 0 <= i < |states| - 1 :: !BringsBack(states[i], states[i + 1])
  }

  lemma {:induction false} RunsUnique(states: seq<Indexed>)
    requires Run(states) && NoneBroughtBack(states)
    ensures UniqueInv(states[|states| - 1])
    decreases |states|
  {
    hide UniqueInv, Moves, InitIndexed, BringsBack;
    if |states| == 1 {
      assert UniqueInv(states[0]) by { StartsUnique(states[0]); }
    } else {
      var n := |states| - 1;
      var shorter := states[..n];
      forall i | 0 <= i < n - 1 ensures Moves(shorter[i], shorter[i + 1]) {
        assert Moves(states[i], states[i + 1]);
      }
      forall i | 0 <= i < n - 1 ensures !BringsBack(shorter[i], shorter[i + 1]) {
        assert !BringsBack(states[i], states[i + 1]);
      }
      RunsUnique(shorter);
      assert shorter[n - 1] == states[n - 1];
      assert Moves(states[n - 1], states[n - 1 + 1]);
      assert !BringsBack(states[n - 1], states[n - 1 + 1]);
      MoveKeeps(states[n - 1], states[n]);
    }
  }

  lemma StartsUnique(x: Indexed)
    requires InitIndexed(x)
    ensures UniqueInv(x)
  {
    InitOk(x.s);
  }

  // ---- one row seen ----

  ghost predicate SeesLive(s: State, r: RowId, t: Txn)
    requires r in s.rows && LogOk(s.rows[r])
  {
    SeenBy(s, s.rows[r], t).Present? && !SeenBy(s, s.rows[r], t).deleted
  }

  lemma SeenAfterInsert(s: State, r: RowId, t: Txn)
    requires Inv(s) && IsRunning(s, t) && r in s.rows && s.rows[r].chain != [] && SeesLive(s, r, t)
    requires s.rows[r].chain[|s.rows[r].chain| - 1].kind.Insert?
    ensures var e := s.rows[r].chain[|s.rows[r].chain| - 1]; e.owner == t || Settled(s, e, t)
  {
    hide LatchOk;
    var row := s.rows[r];
    var n := |row.chain|;
    assert ChainOk(s, row.chain) && LogOk(row);
    assert Links(row.chain[n - 1], row.log[1], row.log[0]);
    if row.chain[0].owner == t {
      if n > 1 {
        OlderOnChain(s, row.chain, 0, n - 1);
      }
    } else {
      SettledIsSuffix(s, row.chain, t, n - 1);
    }
  }

  /** A row with a delete at n or newer than n is deleted there. */
  lemma DeleteLogged(row: Row, n: nat)
    requires LogOk(row) && n < |row.chain| && row.chain[n].kind.Delete?
    ensures row.log[|row.chain| - n].Present? && row.log[|row.chain| - n].deleted
  {
    assert Links(row.chain[n], row.log[|row.chain| - n], row.log[|row.chain| - n - 1]);
  }

  lemma ClearedNotSeen(s: State, r: RowId, t: Txn)
    requires Inv(s) && IsRunning(s, t) && r in s.rows && Cleared(s, s.rows[r], t)
    ensures LogOk(s.rows[r]) && !SeesLive(s, r, t)
  {
    hide LatchOk, LogOk, ClockOk;
    var row := s.rows[r];
    var chain := row.chain;
    assert ChainOk(s, chain) && LogOk(row);
    hide ChainOk;
    var d: nat :| ClearedAt(s, chain, t, d);
    if chain[0].owner == t {
      DeleteLogged(row, 0);
    } else {
      if chain[d].owner == t {
        OlderOnChain(s, chain, 0, d);
        assert false;
      }
      SettledIsSuffix(s, chain, t, d);
      DeleteLogged(row, Unsettled(s, chain, t));
    }
  }

  /** What is cleared for a writer is cleared for whoever began after that writer's commit. */
  lemma ClearedLater(s: State, row: Row, e: Record, t: Txn)
    requires ClockOk(s) && Cleared(s, row, e.owner) && Settled(s, e, t)
    ensures Cleared(s, row, t)
  {
    var d: nat :| ClearedAt(s, row.chain, e.owner, d);
    assert ClearedAt(s, row.chain, t, d);
  }

  lemma ReplacedNotSeen(s: State, a: RowId, b: RowId, t: Txn)
    requires Inv(s) && IsRunning(s, t) && a in s.rows && b in s.rows && Replaced(s, s.rows[a], s.rows[b])
    requires LogOk(s.rows[a]) && LogOk(s.rows[b]) && SeesLive(s, b, t)
    ensures !SeesLive(s, a, t)
  {
    hide SeesLive, LogOk, Cleared, Settled, RowsOk, LatchOk;
    SeenAfterInsert(s, b, t);
    var e := s.rows[b].chain[|s.rows[b].chain| - 1];
    if e.owner != t {
      assert ClockOk(s) by { ClockOf(s); }
      ClearedLater(s, s.rows[a], e, t);
    }
    ClearedNotSeen(s, a, t);
  }

  /** No snapshot holds two live rows of a key, in runs that update no replaced row. */
  lemma OneSeen(states: seq<Indexed>, k: Key, a: RowId, b: RowId, t: Txn)
    requires Run(states) && NoneBroughtBack(states)
    requires var x := states[|states| - 1]; Both(x, k, a, b) && IsRunning(x.s, t)
    ensures var x := states[|states| - 1];
      && a in x.s.rows && b in x.s.rows && LogOk(x.s.rows[a]) && LogOk(x.s.rows[b])
      && !(SeesLive(x.s, a, t) && SeesLive(x.s, b, t))
  {
    RunsUnique(states);
    TwoNotSeen(states[|states| - 1], k, a, b, t);
  }

  lemma TwoNotSeen(x: Indexed, k: Key, a: RowId, b: RowId, t: Txn)
    requires UniqueInv(x) && Both(x, k, a, b) && IsRunning(x.s, t)
    ensures a in x.s.rows && b in x.s.rows && LogOk(x.s.rows[a]) && LogOk(x.s.rows[b])
    ensures !(SeesLive(x.s, a, t) && SeesLive(x.s, b, t))
  {
    hide SeesLive, Replaced, LogOk, ChainOk;
    assert LogOk(x.s.rows[a]) && LogOk(x.s.rows[b]);
    if SeesLive(x.s, a, t) && SeesLive(x.s, b, t) {
      if Replaced(x.s, x.s.rows[a], x.s.rows[b]) {
        ReplacedNotSeen(x.s, a, b, t);
      } else {
        ReplacedNotSeen(x.s, b, a, t);
      }
    }
  }

  // ---- a key with two live rows ----

  lemma {:induction false} RowsRun(init: State, steps: seq<Step>, s: State, entries: iset<(Key, RowId)>)
    returns (states: seq<Indexed>)
    requires Runs(init, steps, s) && InitIndexed(Indexed(init, entries))
    ensures Run(states) && states[|states| - 1] == Indexed(s, entries)
    decreases |steps|
  {
    hide Enabled, Do, InitIndexed;
    if steps == [] {
      states := [Indexed(s, entries)];
    } else {
      var n := |steps| - 1;
      var mid :| Runs(init, steps[..n], mid) && Enabled(mid, steps[n]) && s == Do(mid, steps[n]);
      states := RowsRun(init, steps[..n], mid, entries);
      assert RowStep(Indexed(mid, entries), Indexed(s, entries), steps[n]);
      states := LongerRun(states, Indexed(s, entries));
    }
  }

  lemma LongerRun(states: seq<Indexed>, y: Indexed) returns (more: seq<Indexed>)
    requires Run(states) && Moves(states[|states| - 1], y)
    ensures more == states + [y] && Run(more)
  {
    hide Moves, InitIndexed;
    more := states + [y];
    forall i | 0 <= i < |more| - 1 ensures Moves(more[i], more[i + 1]) {
      if i < |states| - 1 {
        assert Moves(states[i], states[i + 1]);
      }
    }
  }

  /** Such a run: a row is raw-deleted, and the delete committed; transaction 2 inserts another row of the key, and then
      updates the old one, which the page's deletion bit does not prevent. It sees both rows. */
  lemma TwoLive(k: Key) returns (states: seq<Indexed>)
    ensures Run(states)
    ensures var x := states[|states| - 1];
      && Both(x, k, 0, 1) && Live(x.s, 0) && Live(x.s, 1) && IsRunning(x.s, 2)
      && LogOk(x.s.rows[0]) && LogOk(x.s.rows[1]) && SeesLive(x.s, 0, 2) && SeesLive(x.s, 1, 2)
  {
    hide Runs, LogOk, SeesLive, Moves, InitIndexed, Enters, RowStep, UpdateRow, InsertRow;
    var cells: Cells := map[0 := 7];
    var init, steps, s := DeletedRow(cells);
    var deleted := s.rows[0];
    s, steps := Start(init, steps, s, 2);
    s, steps := Extend(init, steps, s, InsertInto(2, 1, cells));
    assert s == TwoRows(deleted, cells);
    assert InitIndexed(Indexed(init, iset{(k, 0)})) by { OneRowStarts(init, k, cells); }
    states := RowsRun(init, steps, s, iset{(k, 0)});
    var x, y := Indexed(s, iset{(k, 0)}), Indexed(s, iset{(k, 0), (k, 1)});
    SecondEnters(x, y, k, deleted, cells);
    states := LongerRun(states, y);
    var z := y.(s := s.(rows := s.rows[0 := UpdateRow(deleted, 2, map[0 := 9])]));
    OldRevived(y, z, deleted, cells);
    states := LongerRun(states, z);
    BothSeen(z.s, deleted, cells);
  }

  ghost function TwoRows(deleted: Row, cells: Cells): State {
    State(3, 0, map[0 := Committed(1), 2 := Running], map[0 := deleted, 1 := InsertRow(2, cells)])
  }

  ghost predicate RawDeleted(row: Row, cells: Cells) {
    row == Row(cells, false, [Record(Delete, 1, 0, map[])], [Present(cells, false), Present(cells, true)])
  }

  lemma OneRowStarts(init: State, k: Key, cells: Cells)
    requires init == State(0, 0, map[], map[0 := Row(cells, false, [], [Present(cells, false)])])
    ensures InitIndexed(Indexed(init, iset{(k, 0)}))
  {
  }

  lemma SecondEnters(x: Indexed, y: Indexed, k: Key, deleted: Row, cells: Cells)
    requires RawDeleted(deleted, cells)
    requires x == Indexed(TwoRows(deleted, cells), iset{(k, 0)}) && y == x.(entries := iset{(k, 0), (k, 1)})
    ensures Moves(x, y)
  {
    assert ClearedAt(x.s, deleted.chain, 2, 0);
    assert y.entries == x.entries + iset{(k, 1)};
    assert Enters(x, y, 2, k, 1);
  }

  lemma OldRevived(y: Indexed, z: Indexed, deleted: Row, cells: Cells)
    requires RawDeleted(deleted, cells) && cells == map[0 := 7] && y.s == TwoRows(deleted, cells)
    requires z == y.(s := y.s.(rows := y.s.rows[0 := UpdateRow(deleted, 2, map[0 := 9])]))
    ensures Moves(y, z)
  {
    hide UpdateRow, InsertRow;
    assert (map[0 := 9]).Keys == {0} == cells.Keys;
    assert RowStep(y, z, UpdateIn(2, 0, map[0 := 9]));
  }

  lemma BothSeen(s: State, deleted: Row, cells: Cells)
    requires RawDeleted(deleted, cells) && cells == map[0 := 7]
    requires s == TwoRows(deleted, cells).(rows := TwoRows(deleted, cells).rows[0 := UpdateRow(deleted, 2, map[0 := 9])])
    ensures Live(s, 0) && Live(s, 1) && LogOk(s.rows[0]) && LogOk(s.rows[1]) && SeesLive(s, 0, 2) && SeesLive(s, 1, 2)
  {
    hide LogOk;
    assert LogOk(deleted) by { DeletedLog(deleted, cells); }
    assert (map[0 := 9]).Keys == {0} == cells.Keys;
    UpdateLog(deleted, 2, map[0 := 9]);
    InsertLog(2, cells);
  }

  lemma DeletedLog(row: Row, cells: Cells)
    requires RawDeleted(row, cells)
    ensures LogOk(row)
  {
  }

  // ---- finding the row to modify ----

  datatype Modify = Conflict | NoRow | Found(r: RowId)

  predicate SafelyDeleted(row: Row, t: Txn) {
    row.chain != [] && row.chain[0].kind.Delete? && !Conflicts(row.chain, t)
  }

  /** The first row in the order of the index that is not deleted for good. */
  ghost predicate FirstLeft(rows: map<RowId, Row>, tids: seq<RowId>, t: Txn, i: nat)
    requires forall r | r in tids :: r in rows
  {
    && i < |tids| && !SafelyDeleted(rows[tids[i]], t)
    && forall j | 0 <= j < i :: SafelyDeleted(rows[tids[j]], t)
  }

  /** The rows of a key in index order: the one to modify, unless an earlier one is in conflict. */
  method GetTidForModify(rows: map<RowId, Row>, tids: seq<RowId>, t: Txn) returns (res: Modify)
    requires forall r | r in tids :: r in rows
    ensures match res
      case NoRow => forall j | 0 <= j < |tids| :: SafelyDeleted(rows[tids[j]], t)
      case Found(r) => exists i: nat :: FirstLeft(rows, tids, t, i) && r == tids[i] && !Conflicts(rows[r].chain, t)
      case Conflict => exists i: nat :: FirstLeft(rows, tids, t, i) && Conflicts(rows[tids[i]].chain, t)
  {
    for i := 0 to |tids|
      invariant forall j | 0 <= j < i :: SafelyDeleted(rows[tids[j]], t)
    {
      var chain := rows[tids[i]].chain;
      assert !SafelyDeleted(rows[tids[i]], t) ==> FirstLeft(rows, tids, t, i);
      if chain == [] {
        return Found(tids[i]);
      }
      if HasConflict(chain[0].stamp, Uncommitted(t), t) {
        return Conflict;
      }
      if !chain[0].kind.Delete? {
        return Found(tids[i]);
      }
    }
    return NoRow;
  }

  /** What was found stays safe to write: whatever the others do before the write, the row is not deleted, or
      the write is refused. */
  lemma ModifyStaysSafe(s: State, step: Step, t: Txn, r: RowId)
    requires Inv(s) && Enabled(s, step) && IsRunning(s, t) && r in s.rows && Elsewhere(step, t, r)
    requires !IsDeleted(s.rows[r]) || Conflicts(s.rows[r].chain, t)
    ensures var row := Do(s, step).rows[r]; !IsDeleted(row) || Conflicts(row.chain, t)
  {
    hide RowsOk;
    if (step.UpdateIn? || step.DeleteFrom?) && step.r == r {
      assert Uncommitted(step.t) != Uncommitted(t);
    } else if step.Restamp? && step.r == r {
      assert ChainOk(s, s.rows[r].chain) by { ChainOf(s, r); }
    }
  }

  lemma ChainOf(s: State, r: RowId)
    requires RowsOk(s) && r in s.rows
    ensures ChainOk(s, s.rows[r].chain)
  {
  }
}
