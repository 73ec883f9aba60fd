/** The unique index as a whole: the latched walks of the tree test the rows of the version chains, leaf by leaf, while
    other transactions go on with these rows. If none of them updates a row between its test and the end of the walk, such
    runs are runs of the index that takes an entry in one step. */
module UniqueIndex {
  import opened ByteOrder
  import opened PageLayout
  import opened Mvcc
  import Reads = MvccReads
  import Safety = MvccSafety
  import R = MvccUnique
  import Tree = BLinkTree
  import Steps = BLinkSteps
  import TreeSafety = BLinkSafety
  import Runs = BLinkRuns
  import Theorems = BLinkTheorems
  import W = BLinkUnique

  /** owner: for whom the threads with latches insert. */
  datatype Joint = Joint(w: W.World, s: State, owner: map<nat, Txn>)

  // ---- keys and rows ----

  /** The row a key names: its identifier. */
  function Tid(k: Bytes): RowId
    requires |k| >= TID_SIZE
  {
    FromBigEndian(k[|k| - TID_SIZE..])
  }

  lemma OneKeyPerRow(a: Bytes, b: Bytes)
    requires SamePrefix(a, b) && Tid(a) == Tid(b)
    ensures a == b
  {
    FromBigEndianInjective(a[|a| - TID_SIZE..], b[|b| - TID_SIZE..]);
    assert a == Columns(a) + a[|a| - TID_SIZE..] && b == Columns(b) + b[|b| - TID_SIZE..];
  }

  ghost function Stored(x: Joint): iset<Bytes> {
    Tree.Contents(x.w.s.tree)
  }

  ghost predicate Names(keys: iset<Bytes>, columns: Bytes, r: RowId) {
    exists k :: k in keys && |k| >= TID_SIZE && Columns(k) == columns && Tid(k) == r
  }

  /** The index as the pairs of columns and rows its keys stand for. */
  ghost function Abs(x: Joint): R.Indexed {
    R.Indexed(x.s, iset columns, r: RowId | Names(Stored(x), columns, r) :: (columns, r))
  }

  // ---- steps ----

  ghost predicate IsInsert(c: Steps.Config, w: W.World, v: W.World, i: nat) {
    i in w.s.threads && (Steps.LeafInsert(w.s, v.s, i) || Steps.LeafSplit(c, w.s, v.s, i))
  }

  /** Any other page operation: of deletes, reads, and separators on their way up. */
  ghost predicate TreeStep(c: Steps.Config, x: Joint, y: Joint, i: nat) {
    W.OtherStep(c, x.w, y.w, i) && !IsInsert(c, x.w, y.w, i) && y.s == x.s && y.owner == x.owner
  }

  /** A transaction inserts the key of a row it has just inserted. */
  ghost predicate Begin(c: Steps.Config, x: Joint, y: Joint, i: nat, key: Bytes, t: Txn) {
    && W.BeginWalk(c, x.w, y.w, i, key) && |key| >= TID_SIZE
    && IsRunning(x.s, t) && Tid(key) in x.s.rows && R.InsertedBy(x.s.rows[Tid(key)], t)
    && y.s == x.s && y.owner == x.owner[i := t]
  }

  ghost predicate OnLeaf(x: Joint, i: nat, k: Bytes) {
    && i in x.w.walks && x.w.walks[i].at in x.w.s.tree.nodes
    && HasKey(x.w.s.tree.nodes[x.w.walks[i].at].entries, k) && SamePrefix(x.w.walks[i].q, k)
  }

  /** The row of the key passes the test. */
  ghost predicate Passes(s: State, k: Bytes, t: Txn) {
    |k| >= TID_SIZE && Tid(k) in s.rows && !R.HasUniqueConflict(s.rows[Tid(k)], t)
  }

  ghost predicate Check(c: Steps.Config, x: Joint, y: Joint, i: nat) {
    && W.CheckLeaf(c, x.w, y.w, i) && i in x.owner && (forall k | OnLeaf(x, i, k) :: Passes(x.s, k, x.owner[i]))
    && y.s == x.s && y.owner == x.owner
  }

  ghost predicate Conflict(x: Joint, y: Joint, i: nat) {
    && W.GiveUp(x.w, y.w, i) && i in x.owner && (exists k :: OnLeaf(x, i, k) && !Passes(x.s, k, x.owner[i]))
    && y.s == x.s && y.owner == x.owner - {i}
  }

  ghost predicate Enter(c: Steps.Config, x: Joint, y: Joint, i: nat) {
    W.Enter(c, x.w, y.w, i) && y.s == x.s && y.owner == x.owner - {i}
  }

  /** Any step of the transactions on rows and clock; who is inserting a key does not end meanwhile. */
  ghost predicate RowStep(x: Joint, y: Joint, step: Step) {
    && Enabled(x.s, step) && (forall i | i in x.owner :: !Reads.Ends(step, x.owner[i]))
    && y == x.(s := Do(x.s, step))
  }

  ghost predicate MovesBy(c: Steps.Config, x: Joint, y: Joint, i: nat) {
    || TreeStep(c, x, y, i) || (exists key, t :: Begin(c, x, y, i, key, t))
    || Check(c, x, y, i) || Conflict(x, y, i) || Enter(c, x, y, i)
  }

  ghost predicate Moves(c: Steps.Config, x: Joint, y: Joint) {
    (exists i :: MovesBy(c, x, y, i)) || (exists step :: RowStep(x, y, step))
  }

  /** The index starts empty; rows may be there from before. */
  ghost predicate Run(c: Steps.Config, run: seq<Joint>) {
    && run != [] && Steps.Init(run[0].w.s) && run[0].w.walks == map[] && run[0].owner == map[] && Init(run[0].s)
    && forall j | 0 <= j < |run| - 1 :: Moves(c, run[j], run[j + 1])
  }

  /** The walk of a thread has tested the stored key, and not ended yet. */
  ghost predicate Tested(x: Joint, i: nat, k: Bytes) {
    i in x.w.walks && k in x.w.walks[i].tested && k in Stored(x) && |k| >= TID_SIZE
  }

  /** An update of a row that a walk under way has tested. */
  ghost predicate UpdatesTested(x: Joint, step: Step) {
    step.UpdateIn? && exists i, k :: Tested(x, i, k) && Tid(k) == step.r
  }

  ghost predicate Disturbs(x: Joint, y: Joint) {
    exists step :: RowStep(x, y, step) && UpdatesTested(x, step)
  }

  ghost predicate Undisturbed(run: seq<Joint>) {
    forall j | 0 <= j < |run| - 1 :: !Disturbs(run[j], run[j + 1])
  }

  // ---- invariant ----

  ghost predicate OwnerOk(x: Joint, i: nat)
    requires i in x.w.walks
  {
    && i in x.owner && IsRunning(x.s, x.owner[i])
    && i in x.w.s.threads && x.w.s.threads[i].AtLeaf? && |x.w.s.threads[i].key| >= TID_SIZE
    && Tid(x.w.s.threads[i].key) in x.s.rows && R.InsertedBy(x.s.rows[Tid(x.w.s.threads[i].key)], x.owner[i])
  }

  /** The rows of the keys a walk has tested are cleared for its owner. */
  ghost predicate TestsOk(x: Joint, i: nat)
    requires i in x.w.walks
  {
    && i in x.owner
    && (forall k | k in x.w.walks[i].tested :: SamePrefix(x.w.walks[i].q, k))
    && forall k | Tested(x, i, k) :: Tid(k) in x.s.rows && R.Cleared(x.s, x.s.rows[Tid(k)], x.owner[i])
  }

  ghost predicate RowsThere(x: Joint) {
    forall k | k in Stored(x) :: |k| >= TID_SIZE && Tid(k) in x.s.rows
  }

  ghost predicate JointInv(c: Steps.Config, x: Joint) {
    && W.WorldInv(c, x.w) && Inv(x.s) && x.owner.Keys == x.w.walks.Keys && RowsThere(x)
    && forall i | i in x.w.walks :: OwnerOk(x, i)
  }

  ghost predicate AllTests(x: Joint) {
    forall i | i in x.w.walks :: TestsOk(x, i)
  }

  // ---- steps of the tree ----

  /** A step of thread j that changes no row and adds no key. */
  lemma KeptBy(c: Steps.Config, x: Joint, y: Joint, j: nat)
    requires JointInv(c, x) && W.WorldInv(c, y.w) && y.s == x.s && Stored(y) <= Stored(x)
    requires forall i | i in y.w.walks && i != j ::
      && i in x.w.walks && i in y.owner && y.owner[i] == x.owner[i]
      && y.w.walks[i].tested == x.w.walks[i].tested && y.w.walks[i].q == x.w.walks[i].q
      && i in y.w.s.threads && y.w.s.threads[i].AtLeaf? && y.w.s.threads[i].key == x.w.s.threads[i].key
    requires y.owner.Keys == y.w.walks.Keys && (j in y.w.walks ==> OwnerOk(y, j))
    requires j in y.w.walks && AllTests(x) ==> TestsOk(y, j)
    ensures JointInv(c, y) && (AllTests(x) ==> AllTests(y)) && R.Removes(Abs(x), Abs(y))
  {
    hide W.WorldInv, Inv, R.Cleared, R.InsertedBy, SamePrefix, Stored, Tid;
    forall i | i in y.w.walks && i != j ensures OwnerOk(y, i) && (AllTests(x) ==> TestsOk(y, i)) {
      assert OwnerOk(x, i) && (AllTests(x) ==> TestsOk(x, i));
      forall k | Tested(y, i, k) ensures Tested(x, i, k) {
      }
    }
    forall columns, r | Names(Stored(y), columns, r) ensures Names(Stored(x), columns, r) {
    }
  }

  lemma TreeStepWorld(c: Steps.Config, w: W.World, v: W.World, i: nat)
    requires W.WorldInv(c, w) && PrefixFree(c.space) && W.OtherStep(c, w, v, i) && !IsInsert(c, w, v, i)
    ensures W.WorldInv(c, v) && i !in w.walks && v.walks == w.walks
    ensures Tree.Contents(v.s.tree) <= Tree.Contents(w.s.tree)
    ensures forall j | j in w.walks && j in w.s.threads :: j in v.s.threads && v.s.threads[j] == w.s.threads[j]
  {
    hide W.WorldInv, PrefixFree, W.WritesLeaf, Steps.ThreadStep, Steps.LeafInsert, Steps.LeafSplit, Steps.LeafDelete,
      Tree.Contents;
    W.OtherKeeps(c, w, v, i);
    TreeInv(c, w);
    Theorems.WritesAreAtomic(c, w.s, v.s, i);
    Theorems.StepGrows(c, w.s, v.s, i);
  }

  lemma TreeStepKeeps(c: Steps.Config, x: Joint, y: Joint, i: nat)
    requires JointInv(c, x) && PrefixFree(c.space) && TreeStep(c, x, y, i)
    ensures JointInv(c, y) && (AllTests(x) ==> AllTests(y)) && R.Removes(Abs(x), Abs(y))
  {
    hide Inv, W.WorldInv, PrefixFree, W.OtherStep, IsInsert, OwnerOk, TestsOk, AllTests,
      R.Removes, Abs, RowsThere, Tree.Contents;
    TreeStepWorld(c, x.w, y.w, i);
    forall j | j in x.w.walks ensures j in x.w.s.threads && x.w.s.threads[j].AtLeaf? {
      KeyOfWalk(x, j);
    }
    KeptBy(c, x, y, i);
  }

  lemma TreeInv(c: Steps.Config, w: W.World)
    requires W.WorldInv(c, w)
    ensures TreeSafety.Inv(c, w.s)
  {
  }

  lemma KeyOfWalk(x: Joint, i: nat)
    requires i in x.w.walks && OwnerOk(x, i)
    ensures i in x.w.s.threads && x.w.s.threads[i].AtLeaf?
  {
  }

  lemma BeginKeeps(c: Steps.Config, x: Joint, y: Joint, i: nat, key: Bytes, t: Txn)
    requires JointInv(c, x) && Begin(c, x, y, i, key, t)
    ensures JointInv(c, y) && (AllTests(x) ==> AllTests(y)) && R.Removes(Abs(x), Abs(y))
  {
    hide Inv, W.WorldInv, OwnerOk, TestsOk, AllTests, R.Removes, Abs, RowsThere, Tree.Contents, SamePrefix, IsRunning,
      R.InsertedBy, Tid;
    W.BeginKeeps(c, x.w, y.w, i, key);
    forall j | j in x.w.walks ensures j in x.w.s.threads && x.w.s.threads[j].AtLeaf? {
      KeyOfWalk(x, j);
    }
    assert OwnerOk(y, i) && TestsOk(y, i) by { NewWalk(y, i); }
    KeptBy(c, x, y, i);
  }

  lemma NewWalk(y: Joint, i: nat)
    requires i in y.w.walks && y.w.walks[i].tested == iset{}
    requires i in y.owner && IsRunning(y.s, y.owner[i])
    requires i in y.w.s.threads && y.w.s.threads[i].AtLeaf? && |y.w.s.threads[i].key| >= TID_SIZE
    requires Tid(y.w.s.threads[i].key) in y.s.rows && R.InsertedBy(y.s.rows[Tid(y.w.s.threads[i].key)], y.owner[i])
    ensures OwnerOk(y, i) && TestsOk(y, i)
  {
  }

  lemma CheckKeeps(c: Steps.Config, x: Joint, y: Joint, i: nat)
    requires JointInv(c, x) && PrefixFree(c.space) && Check(c, x, y, i)
    ensures JointInv(c, y) && (AllTests(x) ==> AllTests(y)) && R.Removes(Abs(x), Abs(y))
  {
    hide Inv, W.WorldInv, PrefixFree, OwnerOk, TestsOk, AllTests, R.Removes, Abs, RowsThere, Tree.Contents, SamePrefix,
      Passes, HasKey, HighPrefixCmp, HasSplit;
    W.CheckKeeps(c, x.w, y.w, i);
    forall j | j in x.w.walks ensures j in x.w.s.threads && x.w.s.threads[j].AtLeaf? {
      KeyOfWalk(x, j);
    }
    assert OwnerOk(y, i) by { SameOwner(x, y, i); }
    if AllTests(x) {
      assert TestsOk(x, i) by { TestsOf(x, i); }
      assert TestsOk(y, i) by { LongerWalk(c, x, y, i); }
    }
    KeptBy(c, x, y, i);
  }

  lemma TestsOf(x: Joint, i: nat)
    requires AllTests(x) && i in x.w.walks
    ensures TestsOk(x, i)
  {
  }

  lemma SameOwner(x: Joint, y: Joint, i: nat)
    requires i in x.w.walks && OwnerOk(x, i) && i in y.w.walks && y.owner == x.owner && y.s == x.s
    requires i in y.w.s.threads && y.w.s.threads[i].AtLeaf? && y.w.s.threads[i].key == x.w.s.threads[i].key
    ensures OwnerOk(y, i)
  {
  }

  lemma LongerWalk(c: Steps.Config, x: Joint, y: Joint, i: nat)
    requires i in x.w.walks && OwnerOk(x, i) && TestsOk(x, i) && Inv(x.s) && RowsThere(x)
    requires i in y.w.walks && y.owner == x.owner && y.s == x.s && Stored(y) == Stored(x)
    requires y.w.walks[i].q == x.w.walks[i].q
    requires forall k | k in y.w.walks[i].tested :: k in x.w.walks[i].tested || OnLeaf(x, i, k)
    requires forall k | OnLeaf(x, i, k) :: Passes(x.s, k, x.owner[i])
    ensures TestsOk(y, i)
  {
    hide Inv, R.Cleared, R.HasUniqueConflict, SamePrefix, HasKey, Tid, Stored;
    forall k | Tested(y, i, k) ensures Tid(k) in y.s.rows && R.Cleared(y.s, y.s.rows[Tid(k)], y.owner[i]) {
      if k in x.w.walks[i].tested {
        assert Tested(x, i, k);
      } else {
        assert Passes(x.s, k, x.owner[i]);
        R.PassedTestClears(x.s, x.owner[i], Tid(k));
      }
    }
  }

  lemma ConflictKeeps(c: Steps.Config, x: Joint, y: Joint, i: nat)
    requires JointInv(c, x) && Conflict(x, y, i)
    ensures JointInv(c, y) && (AllTests(x) ==> AllTests(y)) && R.Removes(Abs(x), Abs(y))
  {
    hide Inv, W.WorldInv, OwnerOk, TestsOk, AllTests, R.Removes, Abs, RowsThere, Tree.Contents, OnLeaf, Passes;
    W.GiveUpKeeps(c, x.w, y.w, i);
    forall j | j in x.w.walks ensures j in x.w.s.threads && x.w.s.threads[j].AtLeaf? {
      KeyOfWalk(x, j);
    }
    KeptBy(c, x, y, i);
  }

  // ---- the entry goes in ----

  /** The new entry is the writer's key; the other walks have other columns. */
  lemma EnterWorld(c: Steps.Config, w: W.World, v: W.World, i: nat)
    requires W.WorldInv(c, w) && PrefixFree(c.space) && W.Enter(c, w, v, i)
    ensures W.WorldInv(c, v) && v.walks == w.walks - {i} && i in w.walks && i in w.s.threads && w.s.threads[i].AtLeaf?
    ensures Tree.Contents(v.s.tree) == Tree.Contents(w.s.tree) + iset{w.s.threads[i].key}
    ensures w.s.threads[i].key !in Tree.Contents(w.s.tree)
    ensures forall j | j in v.walks && j in w.s.threads :: j in v.s.threads && v.s.threads[j] == w.s.threads[j]
    ensures forall j | j in v.walks :: !SamePrefix(w.walks[j].q, w.s.threads[i].key)
    ensures forall k | k in Tree.Contents(w.s.tree) && SamePrefix(w.s.threads[i].key, k) :: k in w.walks[i].tested
  {
    hide W.WorldInv, PrefixFree, Steps.ThreadStep, Steps.LeafInsert, Steps.LeafSplit, Tree.Contents, SamePrefix,
      W.WritesLeaf, IsSearchKey;
    W.EnterKeeps(c, w, v, i);
    W.EnterIsStep(c, w, v, i);
    TreeInv(c, w);
    Theorems.WritesAreAtomic(c, w.s, v.s, i);
    Theorems.StepGrows(c, w.s, v.s, i);
    W.TestedAtEntry(c, w, i);
    forall j | j in v.walks ensures !SamePrefix(w.walks[j].q, w.s.threads[i].key) {
      W.WalksApart(c, w, i, j);
      WalkColumns(c, w, i);
      WalkColumns(c, w, j);
      if SamePrefix(w.walks[j].q, w.s.threads[i].key) {
        OneSearchKey(w.walks[i].q, w.walks[j].q, w.s.threads[i].key);
      }
    }
  }

  lemma WalkColumns(c: Steps.Config, w: W.World, i: nat)
    requires W.WorldInv(c, w) && i in w.walks
    ensures i in w.s.threads && w.s.threads[i].AtLeaf?
    ensures IsSearchKey(w.walks[i].q) && SamePrefix(w.walks[i].q, w.s.threads[i].key)
  {
    hide TreeSafety.Inv, W.HoldsUpTo, W.TestedAll, SamePrefix, IsSearchKey;
    assert W.Knows(c, w.s.tree, w.walks[i], w.s.threads[i]);
  }

  lemma OneSearchKey(p: Bytes, q: Bytes, k: Bytes)
    requires IsSearchKey(p) && IsSearchKey(q) && SamePrefix(p, k) && SamePrefix(q, k)
    ensures p == q
  {
    assert p == Columns(p) + p[|p| - TID_SIZE..] && q == Columns(q) + q[|q| - TID_SIZE..];
  }

  lemma EnterKeeps(c: Steps.Config, x: Joint, y: Joint, i: nat)
    requires JointInv(c, x) && PrefixFree(c.space) && Enter(c, x, y, i)
    ensures JointInv(c, y) && (AllTests(x) ==> AllTests(y)) && y.s == x.s
    ensures i in x.owner && i in x.w.s.threads && x.w.s.threads[i].AtLeaf? && |x.w.s.threads[i].key| >= TID_SIZE
    ensures Stored(y) == Stored(x) + iset{x.w.s.threads[i].key} && x.w.s.threads[i].key !in Stored(x)
    ensures var k := x.w.s.threads[i].key;
      AllTests(x) ==> R.Enters(Abs(x), Abs(y), x.owner[i], Columns(k), Tid(k))
  {
    hide Inv, W.WorldInv, PrefixFree, W.Enter, SamePrefix, Tree.Contents, R.Cleared, R.InsertedBy, IsRunning, Tid, Abs,
      R.Enters, Columns, Names;
    EnterWorld(c, x.w, y.w, i);
    assert OwnerOk(x, i) && (AllTests(x) ==> TestsOk(x, i));
    var key := x.w.s.threads[i].key;
    forall j | j in y.w.walks ensures OwnerOk(y, j) && (AllTests(x) ==> TestsOk(y, j)) {
      assert OwnerOk(x, j) && (AllTests(x) ==> TestsOk(x, j));
      if AllTests(x) {
        forall k | Tested(y, j, k) ensures Tested(x, j, k) {
          assert k != key;
        }
      }
    }
    if AllTests(x) {
      EntersAbs(x, y, i, key);
    }
  }

  lemma EntersAbs(x: Joint, y: Joint, i: nat, key: Bytes)
    requires i in x.w.walks && OwnerOk(x, i) && TestsOk(x, i) && RowsThere(x)
    requires x.w.s.threads[i].key == key && y.s == x.s && Stored(y) == Stored(x) + iset{key}
    requires forall k | k in Stored(x) && SamePrefix(key, k) :: k in x.w.walks[i].tested
    ensures R.Enters(Abs(x), Abs(y), x.owner[i], Columns(key), Tid(key))
  {
    hide Stored, R.Cleared, R.InsertedBy, IsRunning, Tid;
    forall z | (Columns(key), z) in Abs(x).entries ensures z in x.s.rows && R.Cleared(x.s, x.s.rows[z], x.owner[i]) {
      assert Names(Stored(x), Columns(key), z);
      var k :| k in Stored(x) && |k| >= TID_SIZE && Columns(k) == Columns(key) && Tid(k) == z;
      assert SamePrefix(key, k);
      assert Tested(x, i, k);
    }
    forall columns, r
      ensures Names(Stored(y), columns, r) <==> (Names(Stored(x), columns, r) || (columns == Columns(key) && r == Tid(key)))
    {
    }
    assert Abs(y).entries == Abs(x).entries + iset{(Columns(key), Tid(key))};
  }

  // ---- steps of the rows ----

  lemma InsertedForGood(s: State, step: Step, r: RowId, t: Txn)
    requires Enabled(s, step) && r in s.rows && R.InsertedBy(s.rows[r], t)
    ensures r in Do(s, step).rows && R.InsertedBy(Do(s, step).rows[r], t)
  {
    hide Enabled, Do;
    var k := R.ChainGrows(s, step, r);
    var a, b := s.rows[r].chain, Do(s, step).rows[r].chain;
    assert b[k + (|a| - 1)].kind == a[|a| - 1].kind && b[k + (|a| - 1)].owner == a[|a| - 1].owner;
  }

  lemma RowStepKeeps(c: Steps.Config, x: Joint, y: Joint, step: Step)
    requires JointInv(c, x) && RowStep(x, y, step)
    ensures JointInv(c, y) && R.RowStep(Abs(x), Abs(y), step)
    ensures AllTests(x) && !UpdatesTested(x, step) ==> AllTests(y)
  {
    hide Enabled, Do, Inv, W.WorldInv, R.InsertedBy, R.Cleared, Reads.Ends, IsRunning, Tid, SamePrefix, Tree.Contents;
    Safety.StepKeeps(x.s, step);
    forall k | k in Stored(y) ensures |k| >= TID_SIZE && Tid(k) in y.s.rows {
      R.LiveBefore(x.s, step, Tid(k));
    }
    forall i | i in y.w.walks ensures OwnerOk(y, i) && (AllTests(x) && !UpdatesTested(x, step) ==> TestsOk(y, i)) {
      assert OwnerOk(x, i) && !Reads.Ends(step, x.owner[i]);
      Reads.ClockOf(x.s);
      Reads.RunsOn(x.s, step, x.owner[i]);
      InsertedForGood(x.s, step, Tid(x.w.s.threads[i].key), x.owner[i]);
      if AllTests(x) && !UpdatesTested(x, step) {
        assert TestsOk(x, i);
        forall k | Tested(y, i, k) ensures Tid(k) in y.s.rows && R.Cleared(y.s, y.s.rows[Tid(k)], y.owner[i]) {
          assert Tested(x, i, k);
          R.ClearedForGood(x.s, step, Tid(k), x.owner[i]);
        }
      }
    }
  }

  // ---- refinement ----

  ghost predicate Takes(x: Joint, y: Joint) {
    exists t, columns, r :: R.Enters(Abs(x), Abs(y), t, columns, r)
  }

  lemma TreeMoveKeeps(c: Steps.Config, x: Joint, y: Joint, i: nat)
    requires JointInv(c, x) && PrefixFree(c.space) && MovesBy(c, x, y, i)
    ensures JointInv(c, y) && (AllTests(x) ==> AllTests(y))
    ensures R.Removes(Abs(x), Abs(y)) || (Enter(c, x, y, i) && (AllTests(x) ==> Takes(x, y)))
  {
    hide JointInv, PrefixFree, TreeStep, Begin, Check, Conflict, Enter, R.Enters, R.Removes, Abs, AllTests;
    if TreeStep(c, x, y, i) {
      TreeStepKeeps(c, x, y, i);
    } else if key, t :| Begin(c, x, y, i, key, t) {
      BeginKeeps(c, x, y, i, key, t);
    } else if Check(c, x, y, i) {
      CheckKeeps(c, x, y, i);
    } else if Conflict(x, y, i) {
      ConflictKeeps(c, x, y, i);
    } else {
      EnterKeeps(c, x, y, i);
      var k := x.w.s.threads[i].key;
      assert AllTests(x) ==> R.Enters(Abs(x), Abs(y), x.owner[i], Columns(k), Tid(k));
    }
  }

  lemma MoveKeeps(c: Steps.Config, x: Joint, y: Joint)
    requires JointInv(c, x) && PrefixFree(c.space) && Moves(c, x, y)
    ensures JointInv(c, y) && (AllTests(x) && !Disturbs(x, y) ==> AllTests(y) && R.Moves(Abs(x), Abs(y)))
  {
    hide JointInv, PrefixFree, MovesBy, RowStep, UpdatesTested, R.RowStep, R.Enters, R.Removes, Abs, AllTests;
    if step :| RowStep(x, y, step) {
      RowStepKeeps(c, x, y, step);
    } else {
      var i :| MovesBy(c, x, y, i);
      TreeMoveKeeps(c, x, y, i);
    }
  }

  lemma InitJoint(c: Steps.Config, x: Joint)
    requires Steps.Init(x.w.s) && x.w.walks == map[] && x.owner == map[] && Init(x.s)
    ensures JointInv(c, x) && AllTests(x) && R.InitIndexed(Abs(x)) && Stored(x) == iset{}
  {
    hide TreeSafety.Inv, Inv;
    NoKeys(x);
    Runs.InitInv(c, x.w.s);
    Safety.InitOk(x.s);
  }

  lemma NoKeys(x: Joint)
    requires Steps.Init(x.w.s)
    ensures Stored(x) == iset{}
  {
    assert forall k :: !Tree.Has(x.w.s.tree, k);
  }

  lemma {:induction false} InvAt(c: Steps.Config, run: seq<Joint>, n: nat)
    requires PrefixFree(c.space) && Run(c, run) && n < |run|
    ensures JointInv(c, run[n]) && (Undisturbed(run) ==> AllTests(run[n]))
  {
    hide JointInv, PrefixFree, Moves, Disturbs, Steps.Init, Init, Abs, R.Moves, R.InitIndexed, AllTests;
    if n == 0 {
      InitJoint(c, run[0]);
    } else {
      InvAt(c, run, n - 1);
      assert Moves(c, run[n - 1], run[n - 1 + 1]) && (Undisturbed(run) ==> !Disturbs(run[n - 1], run[n - 1 + 1]));
      MoveKeeps(c, run[n - 1], run[n]);
    }
  }

  /** Every run in which no row is updated between its test and the end of the walk that tested it is a run of the index
      that takes its entries in one step. */
  lemma JointRefines(c: Steps.Config, run: seq<Joint>) returns (states: seq<R.Indexed>)
    requires PrefixFree(c.space) && Run(c, run) && Undisturbed(run)
    ensures R.Run(states) && |states| == |run| && forall j | 0 <= j < |run| :: states[j] == Abs(run[j])
  {
    hide JointInv, PrefixFree, Moves, Disturbs, Abs, R.InitIndexed, R.Moves, Steps.Init, Init, AllTests;
    states := seq(|run|, j requires 0 <= j < |run| => Abs(run[j]));
    InitJoint(c, run[0]);
    forall j | 0 <= j < |run| - 1 ensures R.Moves(states[j], states[j + 1]) {
      InvAt(c, run, j);
      assert Moves(c, run[j], run[j + 1]) && !Disturbs(run[j], run[j + 1]);
      MoveKeeps(c, run[j], run[j + 1]);
    }
  }

  // ---- what uniqueness gives ----

  /** When the entry goes in, every stored key with its columns is of a row that is deleted, and has been ever since a
      delete of the inserter's own or one committed before it began; although the walk saw these rows one after the other,
      and others had the rows meanwhile. */
  lemma TestsHoldAtEntry(c: Steps.Config, run: seq<Joint>, i: nat, k: Bytes)
    requires PrefixFree(c.space) && Run(c, run) && Undisturbed(run)
    requires var x := run[|run| - 1]; i in x.w.walks && x.w.walks[i].done && k in Stored(x)
    ensures var x := run[|run| - 1];
      && i in x.owner && i in x.w.s.threads && x.w.s.threads[i].AtLeaf? && |k| >= TID_SIZE && Tid(k) in x.s.rows
      && (SamePrefix(x.w.s.threads[i].key, k) ==>
            R.Cleared(x.s, x.s.rows[Tid(k)], x.owner[i]) && IsDeleted(x.s.rows[Tid(k)]))
  {
    hide Inv, W.WorldInv, PrefixFree, SamePrefix, Tree.Contents, R.Cleared, R.InsertedBy, IsRunning, Tid, Moves, Disturbs,
      Abs, R.Moves, R.InitIndexed, Steps.Init, Init, IsDeleted;
    var x := run[|run| - 1];
    InvAt(c, run, |run| - 1);
    assert OwnerOk(x, i) && TestsOk(x, i) by { TestsOf(x, i); }
    W.TestedAtEntry(c, x.w, i);
    if SamePrefix(x.w.s.threads[i].key, k) {
      assert Tested(x, i, k);
      R.ClearedIsDeleted(x.s, x.s.rows[Tid(k)], x.owner[i]);
    }
  }

  ghost predicate Twins(x: Joint, a: Bytes, b: Bytes) {
    a != b && a in Stored(x) && b in Stored(x) && SamePrefix(a, b)
  }

  /** No two stored keys with equal columns are of live rows. */
  ghost predicate LiveOnce(x: Joint) {
    forall a, b | Twins(x, a, b) :: !(R.Live(x.s, Tid(a)) && R.Live(x.s, Tid(b)))
  }

  lemma TwinsAreBoth(x: Joint, a: Bytes, b: Bytes)
    requires Twins(x, a, b)
    ensures R.Both(Abs(x), Columns(a), Tid(a), Tid(b))
  {
    hide Tree.Contents, Tid;
    assert Names(Stored(x), Columns(a), Tid(a)) && Names(Stored(x), Columns(a), Tid(b));
    if Tid(a) == Tid(b) {
      OneKeyPerRow(a, b);
    }
  }

  lemma BothAreTwins(x: Joint, columns: Bytes, p: RowId, q: RowId) returns (a: Bytes, b: Bytes)
    requires R.Both(Abs(x), columns, p, q)
    ensures Twins(x, a, b) && Tid(a) == p && Tid(b) == q
  {
    hide Tree.Contents, Tid, Stored;
    assert Names(Stored(x), columns, p) && Names(Stored(x), columns, q);
    a :| a in Stored(x) && |a| >= TID_SIZE && Columns(a) == columns && Tid(a) == p;
    b :| b in Stored(x) && |b| >= TID_SIZE && Columns(b) == columns && Tid(b) == q;
  }

  lemma SameLiveOnce(c: Steps.Config, x: Joint)
    requires JointInv(c, x)
    ensures LiveOnce(x) <==> R.LiveOnce(Abs(x))
  {
    hide Tree.Contents, Tid, W.WorldInv, Inv, OwnerOk, TestsOk, R.Live, R.Both, Twins;
    forall k, r | (k, r) in Abs(x).entries ensures r in x.s.rows {
      assert Names(Stored(x), k, r);
    }
    if R.LiveOnce(Abs(x)) {
      forall a, b | Twins(x, a, b) ensures |a| >= TID_SIZE && |b| >= TID_SIZE
        && !(R.Live(x.s, Tid(a)) && R.Live(x.s, Tid(b)))
      {
        TwinKeys(x, a, b);
        TwinsAreBoth(x, a, b);
      }
    }
    if LiveOnce(x) {
      forall k, p, q | R.Both(Abs(x), k, p, q) ensures !(R.Live(x.s, p) && R.Live(x.s, q)) {
        var a, b := BothAreTwins(x, k, p, q);
      }
    }
  }

  lemma TwinKeys(x: Joint, a: Bytes, b: Bytes)
    requires Twins(x, a, b)
    ensures |a| >= TID_SIZE && |b| >= TID_SIZE
  {
  }

  /** An update of a deleted row while a row with the same columns is live. */
  ghost predicate RevivesBeside(x: Joint, step: Step) {
    && step.UpdateIn? && !R.Live(x.s, step.r)
    && exists a, b :: TwinRow(x, a, b, step.r) && R.Live(x.s, Tid(b))
  }

  ghost predicate TwinRow(x: Joint, a: Bytes, b: Bytes, r: RowId) {
    Twins(x, a, b) && Tid(a) == r
  }

  ghost predicate MoveRevives(x: Joint, y: Joint) {
    exists step :: RowStep(x, y, step) && RevivesBeside(x, step)
  }

  lemma SameRevives(x: Joint, step: Step)
    requires step.UpdateIn? ==> step.r in x.s.rows
    ensures RevivesBeside(x, step) <==> R.RevivesBeside(Abs(x), step)
  {
    hide Stored, Columns, R.Both, R.Live, Tid;
    if RevivesBeside(x, step) {
      var a, b :| TwinRow(x, a, b, step.r) && R.Live(x.s, Tid(b));
      TwinKeys(x, a, b);
      TwinsAreBoth(x, a, b);
    }
    if R.RevivesBeside(Abs(x), step) {
      var k, q :| R.Both(Abs(x), k, step.r, q) && R.Live(x.s, q);
      var a, b := BothAreTwins(x, k, step.r, q);
      assert TwinRow(x, a, b, step.r);
    }
  }

  /** The row of the entry that goes in is live, and so is another with its columns. */
  ghost predicate EntersBeside(c: Steps.Config, x: Joint, y: Joint, i: nat) {
    && Enter(c, x, y, i) && i in x.w.s.threads && x.w.s.threads[i].AtLeaf? && LiveKey(x, x.w.s.threads[i].key)
    && exists k :: k in Stored(x) && k != x.w.s.threads[i].key && SamePrefix(x.w.s.threads[i].key, k) && LiveKey(x, k)
  }

  ghost predicate LiveKey(x: Joint, k: Bytes) {
    |k| >= TID_SIZE && R.Live(x.s, Tid(k))
  }

  ghost predicate MoveEnters(c: Steps.Config, x: Joint, y: Joint) {
    exists i :: EntersBeside(c, x, y, i)
  }

  lemma EntersIff(c: Steps.Config, x: Joint, y: Joint, i: nat)
    requires JointInv(c, x) && PrefixFree(c.space) && Enter(c, x, y, i) && LiveOnce(x)
    ensures !LiveOnce(y) <==> EntersBeside(c, x, y, i)
  {
    hide JointInv, PrefixFree, Enter, Abs, R.Enters, R.Live, Tid, Stored, AllTests;
    EnterKeeps(c, x, y, i);
    var key := x.w.s.threads[i].key;
    if EntersBeside(c, x, y, i) {
      var k :| k in Stored(x) && k != key && SamePrefix(key, k) && LiveKey(x, k);
      assert Twins(y, key, k);
    } else {
      forall a, b | Twins(y, a, b) ensures !(LiveKey(y, a) && LiveKey(y, b)) {
        if a != key && b != key {
          assert Twins(x, a, b);
        } else {
          var k := if a == key then b else a;
          assert k in Stored(x) && k != key && SamePrefix(key, k);
        }
      }
    }
  }

  lemma RevivesIff(c: Steps.Config, x: Joint, y: Joint, step: Step)
    requires JointInv(c, x) && RowStep(x, y, step) && R.LiveOnce(Abs(x))
    ensures !R.LiveOnce(Abs(y)) <==> RevivesBeside(x, step)
  {
    hide JointInv, UpdatesTested, R.RowStep, Abs, R.LiveOnce, RevivesBeside, R.RevivesBeside, Do, AllTests;
    RowStepKeeps(c, x, y, step);
    R.SecondLiveIff(Abs(x), Abs(y), step);
    SameRevives(x, step);
  }

  lemma MoveLiveOnce(c: Steps.Config, x: Joint, y: Joint)
    requires JointInv(c, x) && PrefixFree(c.space) && Moves(c, x, y) && LiveOnce(x)
    ensures !LiveOnce(y) <==> MoveRevives(x, y) || MoveEnters(c, x, y)
  {
    hide JointInv, PrefixFree, MovesBy, RowStep, UpdatesTested, R.RowStep, R.Enters, R.Removes, Abs, LiveOnce, R.LiveOnce,
      RevivesBeside, EntersBeside, AllTests, Enter, Disturbs;
    MoveKeeps(c, x, y);
    SameLiveOnce(c, x);
    SameLiveOnce(c, y);
    if step :| RowStep(x, y, step) && RevivesBeside(x, step) {
      RevivesIff(c, x, y, step);
    } else if i :| EntersBeside(c, x, y, i) {
      assert Enter(c, x, y, i) by { EntersOf(c, x, y, i); }
      EntersIff(c, x, y, i);
    } else if step :| RowStep(x, y, step) {
      RevivesIff(c, x, y, step);
    } else {
      var i :| MovesBy(c, x, y, i);
      TreeMoveKeeps(c, x, y, i);
      if R.Removes(Abs(x), Abs(y)) {
        R.RemovesLiveOnce(Abs(x), Abs(y));
      } else {
        EntersIff(c, x, y, i);
      }
    }
  }

  lemma EntersOf(c: Steps.Config, x: Joint, y: Joint, i: nat)
    requires EntersBeside(c, x, y, i)
    ensures Enter(c, x, y, i)
  {
  }

  lemma {:induction false} LiveOnceAt(c: Steps.Config, run: seq<Joint>, n: nat)
    requires PrefixFree(c.space) && Run(c, run) && n < |run|
    requires forall j | 0 <= j < n :: !MoveRevives(run[j], run[j + 1]) && !MoveEnters(c, run[j], run[j + 1])
    ensures LiveOnce(run[n])
  {
    hide JointInv, PrefixFree, Moves, LiveOnce, MoveRevives, MoveEnters, Steps.Init, Init, Abs, R.InitIndexed, AllTests;
    if n == 0 {
      InitJoint(c, run[0]);
      assert LiveOnce(run[0]) by { NoTwins(run[0]); }
    } else {
      InvAt(c, run, n - 1);
      LiveOnceAt(c, run, n - 1);
      assert Moves(c, run[n - 1], run[n - 1 + 1]);
      assert !MoveRevives(run[n - 1], run[n - 1 + 1]) && !MoveEnters(c, run[n - 1], run[n - 1 + 1]);
      MoveLiveOnce(c, run[n - 1], run[n]);
    }
  }

  lemma NoTwins(x: Joint)
    requires Stored(x) == iset{}
    ensures LiveOnce(x)
  {
  }

  /** In every run: no two stored keys with equal columns are ever of live rows, if and only if no deleted row is updated
      beside a live one, and no entry goes in beside one. */
  lemma OneLiveIff(c: Steps.Config, run: seq<Joint>)
    requires PrefixFree(c.space) && Run(c, run)
    ensures (forall j | 0 <= j < |run| :: LiveOnce(run[j]))
      <==> (forall j | 0 <= j < |run| - 1 :: !MoveRevives(run[j], run[j + 1]) && !MoveEnters(c, run[j], run[j + 1]))
  {
    hide JointInv, PrefixFree, Moves, LiveOnce, MoveRevives, MoveEnters, Steps.Init, Init, Abs, AllTests;
    if forall j | 0 <= j < |run| :: LiveOnce(run[j]) {
      forall j | 0 <= j < |run| - 1 ensures !MoveRevives(run[j], run[j + 1]) && !MoveEnters(c, run[j], run[j + 1]) {
        assert LiveOnce(run[j]) && LiveOnce(run[j + 1]);
        InvAt(c, run, j);
        MoveLiveOnce(c, run[j], run[j + 1]);
      }
    }
    if forall j | 0 <= j < |run| - 1 :: !MoveRevives(run[j], run[j + 1]) && !MoveEnters(c, run[j], run[j + 1]) {
      forall j | 0 <= j < |run| ensures LiveOnce(run[j]) {
        LiveOnceAt(c, run, j);
      }
    }
  }

  /** The second needs an update of a row between its test and the end of the walk that tested it. */
  lemma EntryIsAlone(c: Steps.Config, run: seq<Joint>, y: Joint, i: nat)
    requires PrefixFree(c.space) && Run(c, run) && Undisturbed(run) && Enter(c, run[|run| - 1], y, i)
    ensures !EntersBeside(c, run[|run| - 1], y, i)
  {
    hide PrefixFree, SamePrefix, Moves, Disturbs, Steps.Init, Init, Stored, Tid, IsDeleted, R.Cleared;
    var x := run[|run| - 1];
    if EntersBeside(c, x, y, i) {
      var k :| k in Stored(x) && k != x.w.s.threads[i].key && SamePrefix(x.w.s.threads[i].key, k) && LiveKey(x, k);
      TestsHoldAtEntry(c, run, i, k);
    }
  }

  /** And no snapshot holds two live rows with equal columns, if moreover no row is updated that another has replaced. */
  lemma OneSeen(c: Steps.Config, run: seq<Joint>, a: Bytes, b: Bytes, t: Txn)
    requires PrefixFree(c.space) && Run(c, run) && Undisturbed(run)
    requires forall j | 0 <= j < |run| - 1 :: !R.BringsBack(Abs(run[j]), Abs(run[j + 1]))
    requires Twins(run[|run| - 1], a, b) && IsRunning(run[|run| - 1].s, t)
    ensures var x := run[|run| - 1];
      && Tid(a) in x.s.rows && Tid(b) in x.s.rows && LogOk(x.s.rows[Tid(a)]) && LogOk(x.s.rows[Tid(b)])
      && !(R.SeesLive(x.s, Tid(a), t) && R.SeesLive(x.s, Tid(b), t))
  {
    hide PrefixFree, Moves, Disturbs, Abs, R.BringsBack, R.InitIndexed, R.Moves, JointInv, Steps.Init, Init, LogOk,
      R.SeesLive, R.Both, Tid;
    var states := JointRefines(c, run);
    forall j | 0 <= j < |states| - 1 ensures !R.BringsBack(states[j], states[j + 1]) {
      assert !R.BringsBack(Abs(run[j]), Abs(run[j + 1]));
    }
    TwinKeys(run[|run| - 1], a, b);
    TwinsAreBoth(run[|run| - 1], a, b);
    assert Abs(run[|run| - 1]).s == run[|run| - 1].s by { AbsState(run[|run| - 1]); }
    R.OneSeen(states, Columns(a), Tid(a), Tid(b), t);
  }

  lemma AbsState(x: Joint)
    ensures Abs(x).s == x.s
  {
  }

  // ---- one insert from beginning to end ----

  /** The walk of thread i has the same key and owner. */
  ghost predicate SameWalker(x: Joint, y: Joint, i: nat) {
    && i in x.owner && i in y.owner && y.owner[i] == x.owner[i]
    && i in x.w.s.threads && i in y.w.s.threads && x.w.s.threads[i].AtLeaf? && y.w.s.threads[i].AtLeaf?
    && y.w.s.threads[i].key == x.w.s.threads[i].key
  }

  /** The key is stored, its columns are those of the given key, and its row fails the test. */
  ghost predicate InConflict(x: Joint, key: Bytes, k: Bytes, t: Txn) {
    k in Stored(x) && SamePrefix(key, k) && Tid(k) in x.s.rows && R.HasUniqueConflict(x.s.rows[Tid(k)], t)
  }

  /** The key is stored now, which it was not before; or nothing has changed, and some stored key is in conflict. */
  ghost predicate Outcome(x: Joint, y: Joint, key: Bytes, t: Txn) {
    || (key !in Stored(x) && Stored(y) == Stored(x) + iset{key})
    || (Stored(y) == Stored(x) && exists k :: InConflict(x, key, k, t))
  }

  /** A walk goes on with its key and owner, or ends with an outcome for these. */
  ghost predicate Fate(x: Joint, y: Joint, i: nat) {
    if i in y.w.walks then SameWalker(x, y, i)
    else
      && i in x.owner && i in x.w.s.threads && x.w.s.threads[i].AtLeaf?
      && Outcome(x, y, x.w.s.threads[i].key, x.owner[i])
  }

  lemma WalkerAtLeaf(c: Steps.Config, x: Joint, i: nat)
    requires JointInv(c, x) && i in x.w.walks
    ensures W.WorldInv(c, x.w) && i in x.owner && i in x.w.s.threads && x.w.s.threads[i].AtLeaf?
  {
    hide W.WorldInv, Inv;
    assert OwnerOk(x, i);
  }

  lemma RowFate(x: Joint, y: Joint, step: Step, i: nat)
    requires RowStep(x, y, step) && i in x.w.walks && SameWalker(x, x, i)
    ensures Fate(x, y, i)
  {
    hide Enabled, Do;
  }

  lemma TreeFate(c: Steps.Config, x: Joint, y: Joint, j: nat, i: nat)
    requires PrefixFree(c.space) && W.WorldInv(c, x.w) && TreeStep(c, x, y, j) && i in x.w.walks && SameWalker(x, x, i)
    ensures Fate(x, y, i)
  {
    hide PrefixFree, W.WorldInv, W.OtherStep, IsInsert, Outcome, Tree.Contents;
    TreeStepWorld(c, x.w, y.w, j);
  }

  lemma BeginFate(c: Steps.Config, x: Joint, y: Joint, j: nat, key: Bytes, t: Txn, i: nat)
    requires Begin(c, x, y, j, key, t) && i in x.w.walks && SameWalker(x, x, i)
    ensures Fate(x, y, i)
  {
    hide Tree.Contents, HasSplit, SamePrefix, Outcome;
  }

  lemma CheckFate(c: Steps.Config, x: Joint, y: Joint, j: nat, i: nat)
    requires Check(c, x, y, j) && i in x.w.walks && SameWalker(x, x, i)
    ensures Fate(x, y, i)
  {
    hide Tree.Contents, HasSplit, SamePrefix, HighPrefixCmp, HasKey, Passes, Outcome;
  }

  lemma ConflictFate(c: Steps.Config, x: Joint, y: Joint, j: nat, i: nat)
    requires JointInv(c, x) && Conflict(x, y, j) && i in x.w.walks && SameWalker(x, x, i)
    ensures Fate(x, y, i)
  {
    hide JointInv, Tree.Contents, OnLeaf, Passes, InConflict;
    if i == j {
      var k :| OnLeaf(x, i, k) && !Passes(x.s, k, x.owner[i]);
      FailsThere(c, x, i, k);
    }
  }

  lemma EnterFate(c: Steps.Config, x: Joint, y: Joint, j: nat, i: nat)
    requires PrefixFree(c.space) && W.WorldInv(c, x.w) && Enter(c, x, y, j) && i in x.w.walks && SameWalker(x, x, i)
    ensures Fate(x, y, i)
  {
    hide PrefixFree, W.WorldInv, W.Enter, Tree.Contents, SamePrefix, InConflict;
    EnterWorld(c, x.w, y.w, j);
  }

  /** In one move. */
  lemma WalkFate(c: Steps.Config, x: Joint, y: Joint, i: nat)
    requires JointInv(c, x) && PrefixFree(c.space) && Moves(c, x, y) && i in x.w.walks
    ensures Fate(x, y, i)
  {
    hide JointInv, PrefixFree, RowStep, TreeStep, Begin, Check, Conflict, Enter, Fate, W.WorldInv;
    WalkerAtLeaf(c, x, i);
    if step :| RowStep(x, y, step) {
      RowFate(x, y, step, i);
    } else {
      var j :| MovesBy(c, x, y, j);
      if TreeStep(c, x, y, j) {
        TreeFate(c, x, y, j, i);
      } else if key, t :| Begin(c, x, y, j, key, t) {
        BeginFate(c, x, y, j, key, t, i);
      } else if Check(c, x, y, j) {
        CheckFate(c, x, y, j, i);
      } else if Conflict(x, y, j) {
        ConflictFate(c, x, y, j, i);
      } else {
        EnterFate(c, x, y, j, i);
      }
    }
  }

  lemma FailsThere(c: Steps.Config, x: Joint, i: nat, k: Bytes)
    requires JointInv(c, x) && i in x.w.walks && i in x.owner && OnLeaf(x, i, k) && !Passes(x.s, k, x.owner[i])
    ensures i in x.w.s.threads && x.w.s.threads[i].AtLeaf? && InConflict(x, x.w.s.threads[i].key, k, x.owner[i])
  {
    hide Inv, TreeSafety.Inv, SamePrefix, W.HoldsUpTo, W.TestedAll, R.HasUniqueConflict, Tid;
    WalkColumns(c, x.w, i);
    assert W.Knows(c, x.w.s.tree, x.w.walks[i], x.w.s.threads[i]);
    assert k in Stored(x) by { HeldKey(x.w.s.tree, x.w.walks[i].at, k); }
    SameColumns(x.w.walks[i].q, x.w.s.threads[i].key, k);
  }

  lemma HeldKey(t: Tree.Tree, p: nat, k: Bytes)
    requires p in t.nodes && t.nodes[p].level == 0 && HasKey(t.nodes[p].entries, k)
    ensures k in Tree.Contents(t)
  {
  }

  lemma SameColumns(q: Bytes, a: Bytes, b: Bytes)
    requires SamePrefix(q, a) && SamePrefix(q, b)
    ensures SamePrefix(a, b)
  {
  }

  /** Thread i walks in the states a to b, and no longer in the next. */
  ghost predicate WalksFromTo(run: seq<Joint>, i: nat, a: nat, b: nat) {
    && a <= b && b + 1 < |run| && (forall j | a <= j <= b :: i in run[j].w.walks) && i !in run[b + 1].w.walks
  }

  ghost predicate Inserts(x: Joint, i: nat, key: Bytes, t: Txn) {
    && i in x.owner && x.owner[i] == t && i in x.w.s.threads && x.w.s.threads[i].AtLeaf? && x.w.s.threads[i].key == key
  }

  lemma BeginsWith(c: Steps.Config, x: Joint, y: Joint, i: nat, key: Bytes, t: Txn)
    requires Begin(c, x, y, i, key, t)
    ensures Inserts(y, i, key, t)
  {
    hide Tree.Contents, HasSplit, SamePrefix;
  }

  lemma {:induction false} KeyOnTheWay(c: Steps.Config, run: seq<Joint>, i: nat, a: nat, b: nat, n: nat, key: Bytes, t: Txn)
    requires PrefixFree(c.space) && Run(c, run) && WalksFromTo(run, i, a, b) && a <= n <= b && Inserts(run[a], i, key, t)
    ensures JointInv(c, run[n]) && Inserts(run[n], i, key, t)
    decreases n - a
  {
    hide Moves, PrefixFree, Steps.Init, Init, AllTests, JointInv, Undisturbed;
    InvAt(c, run, n);
    if n > a {
      KeyOnTheWay(c, run, i, a, b, n - 1, key, t);
      assert Moves(c, run[n - 1], run[n - 1 + 1]);
      WalkFate(c, run[n - 1], run[n], i);
    }
  }

  /** A unique insert of a key ends, whatever the others do, with just this key added, or without a change: then some stored
      key with its columns is of a row that fails the test at that moment. */
  lemma InsertsOrConflicts(c: Steps.Config, run: seq<Joint>, i: nat, a: nat, b: nat, key: Bytes, t: Txn)
    requires PrefixFree(c.space) && Run(c, run) && a > 0 && WalksFromTo(run, i, a, b)
    requires Begin(c, run[a - 1], run[a], i, key, t)
    ensures Outcome(run[b], run[b + 1], key, t)
  {
    hide Moves, PrefixFree, Steps.Init, Init, Begin, Outcome, JointInv;
    BeginsWith(c, run[a - 1], run[a], i, key, t);
    KeyOnTheWay(c, run, i, a, b, b, key, t);
    assert Moves(c, run[b], run[b + 1]);
    WalkFate(c, run[b], run[b + 1], i);
  }

  // ---- a walk can go on ----

  /** The next leaf, if the walk has to go on to one, is free. */
  ghost predicate NextFree(x: Joint, i: nat) {
    && i in x.w.walks && x.w.walks[i].at in x.w.s.tree.nodes && i in x.w.s.threads && x.w.s.threads[i].AtLeaf?
    && var n := x.w.s.tree.nodes[x.w.walks[i].at];
       HighPrefixCmp(n, x.w.s.threads[i].key) && n.rlink.Some? ==> !W.Latched(x.w, n.rlink.value)
  }

  lemma CheckMoves(c: Steps.Config, x: Joint, i: nat) returns (y: Joint)
    requires JointInv(c, x) && i in x.w.walks && !x.w.walks[i].done && NextFree(x, i)
    requires i in x.owner && forall k | OnLeaf(x, i, k) :: Passes(x.s, k, x.owner[i])
    ensures Check(c, x, y, i)
  {
    hide Inv, W.WorldInv, OwnerOk, HighPrefixCmp, HasSplit, HasKey, SamePrefix, Passes, W.Latched, Tree.Contents, RowsThere;
    var w, th, t := x.w.walks[i], x.w.s.threads[i], x.w.s.tree;
    var n := t.nodes[w.at];
    var tested := w.tested + (iset k | HasKey(n.entries, k) && SamePrefix(w.q, k));
    if HighPrefixCmp(n, th.key) {
      LinkThere(c, x, i);
      var goal := if th.cur == w.at && HasSplit(n, th.key) then n.rlink.value else th.cur;
      var v := W.Walk(w.q, n.rlink.value, w.held + {n.rlink.value}, tested, false);
      y := Joint(W.World(Steps.Record(x.w.s, i, t, Steps.AtLeaf(th.op, th.key, goal, th.stack)), x.w.walks[i := v]), x.s,
        x.owner);
    } else {
      y := Joint(W.World(Steps.Record(x.w.s, i, t, th), x.w.walks[i := w.(tested := tested, done := true)]), x.s, x.owner);
    }
  }

  lemma LinkThere(c: Steps.Config, x: Joint, i: nat)
    requires JointInv(c, x) && i in x.w.walks && x.w.walks[i].at in x.w.s.tree.nodes && i in x.w.s.threads
    requires x.w.s.threads[i].AtLeaf? && HighPrefixCmp(x.w.s.tree.nodes[x.w.walks[i].at], x.w.s.threads[i].key)
    ensures x.w.s.tree.nodes[x.w.walks[i].at].rlink.Some?
  {
    hide Inv, Tree.TreeOk, HighPrefixCmp;
    WalkerAtLeaf(c, x, i);
    TreeInv(c, x.w);
    Runs.InvReader(c, x.w.s, i);
    W.FenceThere(x.w.s.tree.nodes[x.w.walks[i].at], x.w.s.threads[i].key);
    Tree.NodeFacts(x.w.s.tree, x.w.walks[i].at);
  }

  lemma EnterMoves(c: Steps.Config, x: Joint, i: nat) returns (y: Joint)
    requires JointInv(c, x) && i in x.w.walks && x.w.walks[i].done && i in x.w.s.threads && x.w.s.threads[i].AtLeaf?
    requires x.w.s.threads[i].key !in Stored(x)
    ensures Enter(c, x, y, i)
  {
    hide Inv, W.WorldInv, HasSplit, SamePrefix, Tree.Put, OwnerOk, RowsThere, HasKey, Tree.Contents;
    WalkerAtLeaf(c, x, i);
    W.TestedAtEntry(c, x.w, i);
    EntryLeaf(c, x.w, i);
    var th := x.w.s.threads[i];
    var u := Steps.Record(x.w.s, i, Tree.Put(x.w.s.tree, th.cur, Entry(th.key, 0)), Steps.Idle);
    assert Steps.LeafInsert(x.w.s, u, i);
    y := Joint(W.World(u, x.w.walks - {i}), x.s, x.owner - {i});
    assert W.Enter(c, x.w, y.w, i);
  }

  lemma EntryLeaf(c: Steps.Config, w: W.World, i: nat)
    requires W.WorldInv(c, w) && i in w.walks && i in w.s.threads && w.s.threads[i].AtLeaf?
    ensures w.s.threads[i].op.Insert? && w.s.threads[i].cur in w.s.tree.nodes
    ensures w.s.threads[i].key !in Tree.Contents(w.s.tree) ==>
      !HasKey(w.s.tree.nodes[w.s.threads[i].cur].entries, w.s.threads[i].key)
  {
    hide TreeSafety.Inv, W.HoldsUpTo, W.TestedAll, SamePrefix, HasSplit;
    assert W.Knows(c, w.s.tree, w.walks[i], w.s.threads[i]);
    if HasKey(w.s.tree.nodes[w.s.threads[i].cur].entries, w.s.threads[i].key) {
      HeldKey(w.s.tree, w.s.threads[i].cur, w.s.threads[i].key);
    }
  }

  lemma ConflictMoves(x: Joint, i: nat, k: Bytes) returns (y: Joint)
    requires i in x.owner && i in x.w.walks && i in x.w.s.threads && OnLeaf(x, i, k) && !Passes(x.s, k, x.owner[i])
    ensures Conflict(x, y, i)
  {
    hide Tree.Contents, OnLeaf, Passes;
    y := Joint(W.World(Steps.Record(x.w.s, i, x.w.s.tree, Steps.Idle), x.w.walks - {i}), x.s, x.owner - {i});
  }

  ghost predicate CanWalk(c: Steps.Config, x: Joint, i: nat) {
    exists y :: Check(c, x, y, i) || Conflict(x, y, i) || Enter(c, x, y, i)
  }

  /** In every run, a walk can go on unless the next leaf is latched by another, or its key is stored already. */
  lemma WalkCanMove(c: Steps.Config, run: seq<Joint>, i: nat)
    requires PrefixFree(c.space) && Run(c, run) && i in run[|run| - 1].w.walks
    ensures var x := run[|run| - 1];
      && i in x.w.s.threads && x.w.s.threads[i].AtLeaf?
      && ((if x.w.walks[i].done then x.w.s.threads[i].key !in Stored(x) else NextFree(x, i)) ==> CanWalk(c, x, i))
  {
    hide Moves, PrefixFree, Steps.Init, Init, JointInv, Check, Conflict, Enter, OnLeaf, Passes, NextFree, Stored;
    InvAt(c, run, |run| - 1);
    var x := run[|run| - 1];
    WalkerAtLeaf(c, x, i);
    if x.w.walks[i].done {
      if x.w.s.threads[i].key !in Stored(x) {
        var y := EnterMoves(c, x, i);
      }
    } else if k :| OnLeaf(x, i, k) && !Passes(x.s, k, x.owner[i]) {
      var y := ConflictMoves(x, i, k);
    } else if NextFree(x, i) {
      var y := CheckMoves(c, x, i);
    }
  }
}
