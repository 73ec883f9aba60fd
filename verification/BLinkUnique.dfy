/** Unique inserts by any number of threads: the walk over the leaves that may hold the key's columns keeps them all
    latched until the entry is in, so nothing with these columns comes or was missed in between. */
module BLinkUnique {
  import opened ByteOrder
  import opened PageLayout
  import opened LeafScan
  import opened BLinkTree
  import opened BLinkSteps
  import opened BLinkSafety
  import opened BLinkRuns
  import opened BLinkTheorems

  /** at: the leaf to look at next, or looked at last; held: the leaves latched; tested: the stored keys the walk has
      tested; done: the fence says that no later leaf holds any. */
  datatype Walk = Walk(q: Bytes, at: Pid, held: set<Pid>, tested: iset<Bytes>, done: bool)

  /** walks: the threads in a unique insert that hold latches. In s such a thread is AtLeaf, at the leaf its key is to go
      into, as far as it has got. */
  datatype World = World(s: State, walks: map<nat, Walk>)

  ghost predicate Latched(x: World, p: Pid) {
    exists i :: i in x.walks && p in x.walks[i].held
  }

  ghost predicate WritesLeaf(c: Config, s: State, u: State, i: nat)
    requires i in s.threads
  {
    LeafInsert(s, u, i) || LeafDelete(s, u, i) || LeafSplit(c, s, u, i)
  }

  /** A step of any other operation; it writes no leaf that somebody holds latched. */
  ghost predicate OtherStep(c: Config, x: World, y: World, j: nat) {
    && j in x.s.threads && j !in x.walks && ThreadStep(c, x.s, y.s, j) && y.walks == x.walks
    && (WritesLeaf(c, x.s, y.s, j) ==> x.s.threads[j].AtLeaf? && !Latched(x, x.s.threads[j].cur))
  }

  /** The descent was for the search key; the leaf that covers it is latched, and the key gets its identifier. */
  ghost predicate BeginWalk(c: Config, x: World, y: World, i: nat, key: Bytes) {
    && i in x.s.threads && i !in x.walks && x.s.threads[i].AtLeaf? && x.s.threads[i].op.Insert?
    && var AtLeaf(op, q, cur, stack) := x.s.threads[i];
    && IsSearchKey(q) && SamePrefix(q, key) && key in c.space
    && cur in x.s.tree.nodes && !HasSplit(x.s.tree.nodes[cur], q) && !Latched(x, cur)
    && y == World(Record(x.s, i, x.s.tree, AtLeaf(op, key, cur, stack)), x.walks[i := Walk(q, cur, {cur}, iset{}, false)])
  }

  /** The keys of the leaf pass the test; on to the next leaf, which is latched too, or done. */
  ghost predicate CheckLeaf(c: Config, x: World, y: World, i: nat) {
    && i in x.walks && i in x.s.threads && x.s.threads[i].AtLeaf? && !x.walks[i].done
    && var w := x.walks[i];
    && w.at in x.s.tree.nodes
    && var n := x.s.tree.nodes[w.at];
    && var AtLeaf(op, key, cur, stack) := x.s.threads[i];
    && var tested := w.tested + (iset k | HasKey(n.entries, k) && SamePrefix(w.q, k));
    if HighPrefixCmp(n, key) then
      && n.rlink.Some? && !Latched(x, n.rlink.value)
      && var goal := if cur == w.at && HasSplit(n, key) then n.rlink.value else cur;
         y == World(Record(x.s, i, x.s.tree, AtLeaf(op, key, goal, stack)),
                x.walks[i := Walk(w.q, n.rlink.value, w.held + {n.rlink.value}, tested, false)])
    else
      y == World(Record(x.s, i, x.s.tree, x.s.threads[i]), x.walks[i := w.(tested := tested, done := true)])
  }

  /** Some key is in conflict: all latches are released. */
  ghost predicate GiveUp(x: World, y: World, i: nat) {
    i in x.walks && i in x.s.threads && y == World(Record(x.s, i, x.s.tree, Idle), x.walks - {i})
  }

  /** The entry goes into its leaf, split or not, and then all latches are released. */
  ghost predicate Enter(c: Config, x: World, y: World, i: nat) {
    && i in x.walks && i in x.s.threads && x.walks[i].done && y.walks == x.walks - {i}
    && (LeafInsert(x.s, y.s, i) || LeafSplit(c, x.s, y.s, i))
  }

  ghost predicate MovesBy(c: Config, x: World, y: World, i: nat) {
    || OtherStep(c, x, y, i) || (exists key :: BeginWalk(c, x, y, i, key)) || CheckLeaf(c, x, y, i)
    || GiveUp(x, y, i) || Enter(c, x, y, i)
  }

  ghost predicate Moves(c: Config, x: World, y: World) {
    exists i :: MovesBy(c, x, y, i)
  }

  ghost predicate Run(c: Config, run: seq<World>) {
    && run != [] && Init(run[0].s) && run[0].walks == map[]
    && forall j | 0 <= j < |run| - 1 :: Moves(c, run[j], run[j + 1])
  }

  // ---- what a walk knows ----

  ghost predicate IsLeaf(t: Tree, p: Pid) {
    p in t.nodes && p in t.low && t.nodes[p].level == 0
  }

  /** All leaves from the one that covers q up to the leaf at are held. */
  ghost predicate HoldsUpTo(t: Tree, w: Walk)
    requires w.at in t.low
  {
    forall p, k | IsLeaf(t, p) && Covers(t, p, k) && Leq(w.q, k) && (k == w.q || Less(k, t.low[w.at])) :: p in w.held
  }

  /** Every stored key with the columns that lies left of the leaf at has been tested; when done, every one. */
  ghost predicate TestedAll(t: Tree, w: Walk)
    requires w.at in t.low
  {
    forall k | k in Contents(t) && SamePrefix(w.q, k) && (w.done || Less(k, t.low[w.at])) :: k in w.tested
  }

  ghost predicate Knows(c: Config, t: Tree, w: Walk, th: Thread) {
    && IsLeaf(t, w.at) && w.at in w.held && w.q in c.space && IsSearchKey(w.q)
    && th.AtLeaf? && th.op.Insert? && SamePrefix(w.q, th.key) && th.cur in w.held
    && HoldsUpTo(t, w) && TestedAll(t, w)
    && (w.done ==> forall k | k in c.space && SamePrefix(w.q, k) :: Under(k, t.nodes[w.at].high))
    && !HasSplit(t.nodes[w.at], w.q)
    && IsLeaf(t, th.cur) && (th.cur == w.at || !HasSplit(t.nodes[th.cur], th.key))
  }

  ghost predicate WorldInv(c: Config, x: World) {
    && Inv(c, x.s)
    && (forall i | i in x.walks :: i in x.s.threads && Knows(c, x.s.tree, x.walks[i], x.s.threads[i]))
    && forall i, j, p: Pid | i in x.walks && j in x.walks && i != j && p in x.walks[i].held :: p !in x.walks[j].held
  }

  // ---- what a step does to the leaves ----

  /** All leaves but w are as they were, and new ones lie inside what was w's range. */
  ghost predicate LeavesKept(t: Tree, u: Tree, w: Option<Pid>) {
    && (w.Some? ==> IsLeaf(t, w.value))
    && (forall p: Pid | IsLeaf(t, p) && Some(p) != w :: IsLeaf(u, p) && u.nodes[p] == t.nodes[p] && u.low[p] == t.low[p])
    && (forall p: Pid | IsLeaf(u, p) && !(IsLeaf(t, p) && Some(p) != w) ::
          w.Some? && forall k :: Covers(u, p, k) ==> Covers(t, w.value, k))
  }

  lemma SameLeaves(t: Tree)
    ensures LeavesKept(t, t, None)
  {
  }

  lemma OneLeafChanged(t: Tree, u: Tree, p: Pid)
    requires IsLeaf(t, p) && u.low == t.low && p in u.nodes && u.nodes == t.nodes[p := u.nodes[p]]
    requires u.nodes[p].level == 0 && u.nodes[p].high == t.nodes[p].high
    ensures LeavesKept(t, u, Some(p))
  {
  }

  lemma LeafSplitInTwo(t: Tree, u: Tree, p: Pid, q: Pid)
    requires IsLeaf(t, p) && q !in t.nodes && p in u.nodes && q in u.nodes
    requires q !in t.low && u.nodes == t.nodes[p := u.nodes[p]][q := u.nodes[q]]
    requires q in u.low && u.low == t.low[q := u.low[q]]
    requires u.nodes[p].level == u.nodes[q].level == 0
    requires u.nodes[p].high == Some(u.low[q]) && u.nodes[q].high == t.nodes[p].high
    requires Less(t.low[p], u.low[q]) && Under(u.low[q], t.nodes[p].high)
    ensures LeavesKept(t, u, Some(p))
  {
    hide Rank;
    forall x | IsLeaf(u, x) && !(IsLeaf(t, x) && Some(x) != Some(p))
      ensures forall k :: Covers(u, x, k) ==> Covers(t, p, k)
    {
      assert x == p || x == q;
    }
  }

  /** Inner pages come and change; the leaves stay. */
  lemma InnerChanged(t: Tree, u: Tree)
    requires forall p | p in t.nodes && t.nodes[p].level == 0 :: p in u.nodes && u.nodes[p] == t.nodes[p]
    requires forall p | p in u.nodes && u.nodes[p].level == 0 :: p in t.nodes && u.nodes[p] == t.nodes[p]
    requires forall p | p in t.low :: p in u.low && u.low[p] == t.low[p]
    requires t.nodes.Keys == t.low.Keys
    ensures LeavesKept(t, u, None)
  {
  }

  lemma LeavesCompose(t: Tree, u: Tree, v: Tree, w: Option<Pid>)
    requires LeavesKept(t, u, w) && LeavesKept(u, v, None)
    ensures LeavesKept(t, v, w)
  {
    forall p | IsLeaf(v, p) && !(IsLeaf(t, p) && Some(p) != w)
      ensures w.Some? && forall k :: Covers(v, p, k) ==> Covers(t, w.value, k)
    {
      assert IsLeaf(u, p) && v.nodes[p] == u.nodes[p] && v.low[p] == u.low[p];
    }
  }

  lemma NewRootLeaves(t: Tree, r: Pid, sep: Bytes, child: Pid)
    requires t.nodes.Keys == t.low.Keys && t.root in t.nodes && Fresh(t, r)
    ensures LeavesKept(t, NewRoot(t, r, sep, child), None)
  {
    InnerChanged(t, NewRoot(t, r, sep, child));
  }

  lemma SplitKeys(t: Tree, p: Pid, sp: nat, q: Pid, e: Entry)
    requires t.nodes.Keys == t.low.Keys && p in t.nodes && 1 <= sp < |t.nodes[p].entries|
    ensures var u := SplitPut(t, p, sp, q, e);
      u.nodes.Keys == u.low.Keys == t.nodes.Keys + {q} && u.root == t.root
  {
    hide SplitAt;
  }

  lemma AfterLeaves(c: Config, s: State, u: State, i: nat, t: Tree, cur: Pid, sep: Bytes, child: Pid, stack: seq<Pid>)
    requires AfterSplit(c, s, u, i, t, cur, sep, child, stack) && t.nodes.Keys == t.low.Keys
    ensures LeavesKept(t, u.tree, None)
  {
    hide Contents, LeavesKept, NewRoot;
    SameLeaves(t);
    if stack == [] && c.atomicRoot && cur == t.root {
      var r: Pid :| Fresh(t, r) && t.root in t.nodes && u == Record(s, i, NewRoot(t, r, sep, child), Idle);
      NewRootLeaves(t, r, sep, child);
    }
  }

  lemma LeafSplitLeaves(t: Tree, p: Pid, sp: nat, q: Pid, e: Entry)
    requires TreeOk(t) && p in t.nodes && t.nodes[p].level == 0 && Admissible(t, p, e) && Fresh(t, q)
    requires 1 <= sp < |t.nodes[p].entries|
    ensures LeavesKept(t, SplitPut(t, p, sp, q, e), Some(p))
  {
    hide Rank, SplitAt, LeavesKept, TreeOk, Sorted, ChildrenOk;
    TreeKeys(t);
    NodeFacts(t, p);
    AdmissibleIsNew(t, p, e);
    AdmissibleCovers(t, p, e);
    SplitKeepsEntries(t.nodes[p], t.low[p], sp, q, e);
    LeafSplitInTwo(t, SplitPut(t, p, sp, q, e), p, q);
  }

  /** A write of a leaf changes that leaf, and perhaps gives away the upper part of its range. */
  lemma WriteLeaves(c: Config, s: State, u: State, i: nat)
    requires Inv(c, s) && i in s.threads && WritesLeaf(c, s, u, i)
    ensures s.threads[i].AtLeaf? && LeavesKept(s.tree, u.tree, Some(s.threads[i].cur))
  {
    hide Rank, Inv, TreeOk, LeavesKept, Contents, InsertSeq, SplitAt, AfterSplit, PathOk, Admissible;
    InvReader(c, s, i);
    var AtLeaf(_, k, cur, stack) := s.threads[i];
    if LeafSplit(c, s, u, i) {
      LeafAdmits(c, s, i);
      var sp: nat, q: Pid :| Fresh(s.tree, q) && 1 <= sp < |s.tree.nodes[cur].entries|
                             && var t := SplitPut(s.tree, cur, sp, q, Entry(k, 0));
                                AfterSplit(c, s, u, i, t, cur, t.low[q], q, stack);
      var t := SplitPut(s.tree, cur, sp, q, Entry(k, 0));
      SplitKeys(s.tree, cur, sp, q, Entry(k, 0));
      LeafSplitLeaves(s.tree, cur, sp, q, Entry(k, 0));
      AfterLeaves(c, s, u, i, t, cur, t.low[q], q, stack);
      LeavesCompose(s.tree, t, u.tree, Some(cur));
    } else {
      OneLeafChanged(s.tree, u.tree, cur);
    }
  }

  lemma InnerSplitLeaves(t: Tree, p: Pid, sp: nat, q: Pid, e: Entry)
    requires t.nodes.Keys == t.low.Keys && p in t.nodes && t.nodes[p].level > 0 && Fresh(t, q)
    requires 1 <= sp < |t.nodes[p].entries|
    ensures LeavesKept(t, SplitPut(t, p, sp, q, e), None)
  {
    hide SplitAt, LeavesKept;
    SplitLevels(t.nodes[p], sp, q, e);
    InnerChanged(t, SplitPut(t, p, sp, q, e));
  }

  lemma ParentLevel(c: Config, s: State, i: nat)
    requires Inv(c, s) && i in s.threads && s.threads[i].Propagating?
    ensures s.threads[i].cur in s.tree.nodes && s.tree.nodes[s.threads[i].cur].level > 0
  {
    assert ThreadOk(c, s.tree, s.hist, s.threads[i]);
  }

  /** No other step touches a leaf. */
  lemma InnerLeaves(c: Config, s: State, u: State, i: nat)
    requires Inv(c, s) && i in s.threads && ThreadStep(c, s, u, i) && !WritesLeaf(c, s, u, i)
    ensures LeavesKept(s.tree, u.tree, None)
  {
    hide Rank, Inv, TreeOk, LeavesKept, Contents, InsertSeq, SplitAt, AfterSplit, ThreadOk, Start, Down, LeafRight,
      LeafInsert, LeafDelete, LeafSplit, Redescend, RedescendDown, ParentRight, ReadLeaf, FollowLink;
    InvReader(c, s, i);
    if ParentInsert(s, u, i) {
      ParentLevel(c, s, i);
      InnerChanged(s.tree, u.tree);
    } else if ParentSplit(c, s, u, i) {
      ParentLevel(c, s, i);
      var Propagating(sep, child, cur, stack) := s.threads[i];
      var sp: nat, q: Pid :| Fresh(s.tree, q) && 1 <= sp < |s.tree.nodes[cur].entries|
                             && var t := SplitPut(s.tree, cur, sp, q, Entry(sep, child));
                                AfterSplit(c, s, u, i, t, cur, t.low[q], q, stack);
      var t := SplitPut(s.tree, cur, sp, q, Entry(sep, child));
      SplitKeys(s.tree, cur, sp, q, Entry(sep, child));
      InnerSplitLeaves(s.tree, cur, sp, q, Entry(sep, child));
      AfterLeaves(c, s, u, i, t, cur, t.low[q], q, stack);
      LeavesCompose(s.tree, t, u.tree, None);
    } else if CheckRoot(s, u, i) && u.tree != s.tree {
      var RootCheck(pid, sep, child) := s.threads[i];
      var r: Pid :| Fresh(s.tree, r) && u == Record(s, i, NewRoot(s.tree, r, sep, child), Idle);
      NewRootLeaves(s.tree, r, sep, child);
    } else {
      if !CheckRoot(s, u, i) {
        WalkLeavesTree(c, s, u, i);
      }
      SameLeaves(s.tree);
    }
  }

  // ---- the walks of others ----

  /** What a walk knows survives a step that writes none of its leaves, whatever key it adds. */
  lemma KnowsStays(c: Config, t: Tree, u: Tree, w: Walk, th: Thread, at: Option<Pid>, added: iset<Bytes>)
    requires TreeOk(t) && TreeOk(u) && Knows(c, t, w, th) && LeavesKept(t, u, at)
    requires at.Some? ==> at.value !in w.held
    requires Contents(u) <= Contents(t) + added && Contents(u) <= c.space
    requires forall k | k in added :: at.Some? && IsLeaf(t, at.value) && Covers(t, at.value, k)
    ensures Knows(c, u, w, th)
  {
    hide TreeOk, Contents, Rank, SamePrefix, HasSplit, Covers;
    assert IsLeaf(u, w.at) && u.nodes[w.at] == t.nodes[w.at] && u.low[w.at] == t.low[w.at];
    forall p, k | IsLeaf(u, p) && Covers(u, p, k) && Leq(w.q, k) && (k == w.q || Less(k, u.low[w.at])) ensures p in w.held {
      CoveredBefore(t, u, w, at, p, k);
    }
    forall k | k in Contents(u) && SamePrefix(w.q, k) && (w.done || Less(k, u.low[w.at])) ensures k in w.tested {
      if k !in Contents(t) {
        SearchKeyIsFirst(w.q, k);
        NotAdded(c, t, w, th, at.value, k);
      }
    }
  }

  /** A leaf that covers a key of the walk's range did so before. */
  lemma CoveredBefore(t: Tree, u: Tree, w: Walk, at: Option<Pid>, p: Pid, k: Bytes)
    requires w.at in t.low && HoldsUpTo(t, w) && LeavesKept(t, u, at) && (at.Some? ==> at.value !in w.held)
    requires IsLeaf(u, p) && Covers(u, p, k) && Leq(w.q, k) && (k == w.q || Less(k, t.low[w.at]))
    ensures IsLeaf(t, p) && Covers(t, p, k)
  {
    hide Rank;
    if !(IsLeaf(t, p) && Some(p) != at) {
      assert false;
    }
  }

  /** A leaf that covers a key of the walk's range is held. */
  lemma NotAdded(c: Config, t: Tree, w: Walk, th: Thread, p: Pid, k: Bytes)
    requires TreeOk(t) && Knows(c, t, w, th) && IsLeaf(t, p) && Covers(t, p, k)
    requires k in c.space && SamePrefix(w.q, k) && Leq(w.q, k) && (w.done || Less(k, t.low[w.at]))
    ensures p in w.held
  {
    hide TreeOk, SamePrefix, HasSplit;
    if !Less(k, t.low[w.at]) {
      assert Covers(t, w.at, k);
      SameLeaf(t, p, w.at, k);
    }
  }

  /** Whatever step of the tree it is that writes no leaf of the walk. */
  lemma StepKnows(c: Config, s: State, u: State, j: nat, w: Walk, th: Thread)
    requires Inv(c, s) && Inv(c, u) && j in s.threads && ThreadStep(c, s, u, j) && Knows(c, s.tree, w, th)
    requires WritesLeaf(c, s, u, j) ==> s.threads[j].AtLeaf? && s.threads[j].cur !in w.held
    ensures Knows(c, u.tree, w, th)
  {
    hide Inv, Knows, TreeOk, Contents, ThreadStep, LeafInsert, LeafDelete, LeafSplit, LeavesKept, Rank;
    InvReader(c, s, j);
    InvReader(c, u, j) by { StepGrows(c, s, u, j); }
    WritesAreAtomic(c, s, u, j);
    if WritesLeaf(c, s, u, j) {
      WriteLeaves(c, s, u, j);
      var added := if LeafDelete(s, u, j) then iset{} else iset{s.threads[j].key};
      WriterCovers(c, s, u, j);
      KnowsStays(c, s.tree, u.tree, w, th, Some(s.threads[j].cur), added);
    } else {
      InnerLeaves(c, s, u, j);
      KnowsStays(c, s.tree, u.tree, w, th, None, iset{});
    }
  }

  lemma WriterCovers(c: Config, s: State, u: State, i: nat)
    requires Inv(c, s) && i in s.threads && WritesLeaf(c, s, u, i)
    ensures s.threads[i].AtLeaf? && IsLeaf(s.tree, s.threads[i].cur) && Covers(s.tree, s.threads[i].cur, s.threads[i].key)
  {
    hide Contents, SplitPut, Put, Remove, AfterSplit;
    assert ThreadOk(c, s.tree, s.hist, s.threads[i]);
  }

  // ---- the steps ----

  lemma NextInv(c: Config, s: State, u: State, j: nat)
    requires Inv(c, s) && PrefixFree(c.space) && j in s.threads && ThreadStep(c, s, u, j)
    ensures Inv(c, u)
  {
    hide Inv, ThreadStep, PrefixFree;
    assert Next(c, s, u);
    NextKeeps(c, s, u);
  }

  lemma OtherKeeps(c: Config, x: World, y: World, j: nat)
    requires WorldInv(c, x) && PrefixFree(c.space) && OtherStep(c, x, y, j)
    ensures WorldInv(c, y)
  {
    hide Inv, Knows, ThreadStep, WritesLeaf, PrefixFree;
    NextInv(c, x.s, y.s, j);
    StepGrows(c, x.s, y.s, j);
    forall i | i in y.walks ensures i in y.s.threads && Knows(c, y.s.tree, y.walks[i], y.s.threads[i]) {
      StepKnows(c, x.s, y.s, j, x.walks[i], x.s.threads[i]);
    }
  }

  lemma EnterKeeps(c: Config, x: World, y: World, i: nat)
    requires WorldInv(c, x) && PrefixFree(c.space) && Enter(c, x, y, i)
    ensures WorldInv(c, y)
  {
    hide Inv, ThreadStep, LeafInsert, LeafSplit, PrefixFree, HoldsUpTo, TestedAll;
    assert ThreadStep(c, x.s, y.s, i) && WritesLeaf(c, x.s, y.s, i) by { EnterIsStep(c, x, y, i); }
    assert Knows(c, x.s.tree, x.walks[i], x.s.threads[i]);
    hide Knows, WritesLeaf;
    NextInv(c, x.s, y.s, i);
    StepGrows(c, x.s, y.s, i);
    forall j | j in y.walks ensures j in y.s.threads && Knows(c, y.s.tree, y.walks[j], y.s.threads[j]) {
      StepKnows(c, x.s, y.s, i, x.walks[j], x.s.threads[j]);
    }
  }

  lemma EnterIsStep(c: Config, x: World, y: World, i: nat)
    requires Enter(c, x, y, i)
    ensures i in x.s.threads && ThreadStep(c, x.s, y.s, i) && WritesLeaf(c, x.s, y.s, i)
  {
    hide LeafInsert, LeafSplit;
  }

  /** A step of walker i that leaves the tree alone. */
  lemma OwnKeeps(c: Config, x: World, y: World, i: nat, th: Thread)
    requires WorldInv(c, x) && i in x.s.threads && y.s == Record(x.s, i, x.s.tree, th)
    requires Pending(th) == Pending(x.s.threads[i]) && ThreadOk(c, x.s.tree, x.s.hist + [Contents(x.s.tree)], th)
    requires forall j | j in x.walks && j != i :: j in y.walks && y.walks[j] == x.walks[j]
    requires forall j | j in y.walks && j != i :: j in x.walks
    requires i in y.walks ==> Knows(c, x.s.tree, y.walks[i], th)
    requires i in y.walks ==>
      forall j, p: Pid | j in x.walks && j != i && p in y.walks[i].held :: p !in x.walks[j].held
    ensures WorldInv(c, y)
  {
    hide Inv, Knows, ThreadOk, Pending, Contents;
    ReadStepKeeps(c, x.s, i, th);
    forall j | j in y.walks ensures j in y.s.threads && Knows(c, y.s.tree, y.walks[j], y.s.threads[j]) {
    }
    StillApart(x.walks, y.walks, i);
  }

  lemma StillApart(a: map<nat, Walk>, b: map<nat, Walk>, i: nat)
    requires forall j, k, p: Pid | j in a && k in a && j != k && p in a[j].held :: p !in a[k].held
    requires forall j | j in a && j != i :: j in b && b[j] == a[j]
    requires forall j | j in b && j != i :: j in a
    requires i in b ==> forall j, p: Pid | j in a && j != i && p in b[i].held :: p !in a[j].held
    ensures forall j, k, p: Pid | j in b && k in b && j != k && p in b[j].held :: p !in b[k].held
  {
    forall j, k, p: Pid | j in b && k in b && j != k && p in b[j].held ensures p !in b[k].held {
      assert j != i ==> b[j] == a[j];
      assert k != i ==> b[k] == a[k];
    }
  }

  lemma BeginKnows(c: Config, t: Tree, q: Bytes, cur: Pid, th: Thread)
    requires TreeOk(t) && IsLeaf(t, cur) && Leq(t.low[cur], q) && !HasSplit(t.nodes[cur], q)
    requires q in c.space && IsSearchKey(q) && th.AtLeaf? && th.op.Insert? && SamePrefix(q, th.key) && th.cur == cur
    ensures Knows(c, t, Walk(q, cur, {cur}, iset{}, false), th)
  {
    hide TreeOk, Contents, SamePrefix;
    assert Covers(t, cur, q);
    var w := Walk(q, cur, {cur}, iset{}, false);
    forall p, k | IsLeaf(t, p) && Covers(t, p, k) && Leq(q, k) && (k == q || Less(k, t.low[cur])) ensures p == cur {
      SameLeaf(t, p, cur, q);
    }
    forall k | k in Contents(t) && SamePrefix(q, k) && Less(k, t.low[cur]) ensures false {
      SearchKeyIsFirst(q, k);
    }
  }

  lemma BeginKeeps(c: Config, x: World, y: World, i: nat, key: Bytes)
    requires WorldInv(c, x) && BeginWalk(c, x, y, i, key)
    ensures WorldInv(c, y)
  {
    hide Inv, TreeOk, Knows, HasSplit, PathOk, SamePrefix;
    InvReader(c, x.s, i);
    var AtLeaf(op, q, cur, stack) := x.s.threads[i];
    assert WalkOk(x.s.tree, stack, cur, q);
    SearchKeyIsFirst(q, key);
    var th := AtLeaf(op, key, cur, stack);
    BeginKnows(c, x.s.tree, q, cur, th);
    OwnKeeps(c, x, y, i, th);
  }

  lemma GiveUpKeeps(c: Config, x: World, y: World, i: nat)
    requires WorldInv(c, x) && GiveUp(x, y, i)
    ensures WorldInv(c, y)
  {
    hide Inv, HoldsUpTo, TestedAll;
    assert Knows(c, x.s.tree, x.walks[i], x.s.threads[i]);
    hide Knows;
    OwnKeeps(c, x, y, i, Idle);
  }

  /** The keys of the leaf, once tested, are the ones that were missing. */
  lemma CheckTested(c: Config, t: Tree, w: Walk, th: Thread, k: Bytes)
    requires TreeOk(t) && Knows(c, t, w, th) && k in Contents(t) && SamePrefix(w.q, k) && Under(k, t.nodes[w.at].high)
    ensures k in w.tested || HasKey(t.nodes[w.at].entries, k)
  {
    hide TreeOk, Contents, SamePrefix, HoldsUpTo, HasSplit;
    if !Less(k, t.low[w.at]) {
      StoredInCover(t, w.at, k);
    }
  }

  lemma NextKnows(c: Config, t: Tree, w: Walk, th: Thread, v: Walk, next: Thread)
    requires TreeOk(t) && Knows(c, t, w, th) && next.AtLeaf? && next.op.Insert? && next.key == th.key
    requires t.nodes[w.at].rlink.Some? && t.nodes[w.at].high.Some?
    requires var n := t.nodes[w.at];
      && v == Walk(w.q, n.rlink.value, w.held + {n.rlink.value},
                   w.tested + (iset k | HasKey(n.entries, k) && SamePrefix(w.q, k)), false)
      && next.cur == if th.cur == w.at && HasSplit(n, th.key) then n.rlink.value else th.cur
    ensures Knows(c, t, v, next)
  {
    hide TreeOk, Contents, SamePrefix, Rank, RangeOk, ChildrenOk;
    NodeFacts(t, w.at);
    var r := t.nodes[w.at].rlink.value;
    TreeKeys(t);
    assert Less(t.low[w.at], t.low[r]) && (t.nodes[r].high.Some? ==> Less(t.low[r], t.nodes[r].high.value)) by {
      FencesGrow(t, w.at);
    }
    forall p, k | IsLeaf(t, p) && Covers(t, p, k) && Leq(v.q, k) && (k == v.q || Less(k, t.low[r])) ensures p in v.held {
      if k != v.q && !Less(k, t.low[w.at]) {
        SameLeaf(t, p, w.at, k);
      }
    }
    forall k | k in Contents(t) && SamePrefix(v.q, k) && Less(k, t.low[r]) ensures k in v.tested {
      CheckTested(c, t, w, th, k);
    }
  }

  lemma FencesGrow(t: Tree, p: Pid)
    requires TreeOk(t) && p in t.nodes && t.nodes[p].rlink.Some?
    ensures var r := t.nodes[p].rlink.value;
      && r in t.nodes && p in t.low && r in t.low && t.nodes[p].high.Some? && t.low[r] == t.nodes[p].high.value
      && Less(t.low[p], t.low[r]) && (t.nodes[r].high.Some? ==> Less(t.low[r], t.nodes[r].high.value))
  {
    NodeFacts(t, p);
    NodeFacts(t, t.nodes[p].rlink.value);
  }

  /** The fence test reads the same for the key as for its search key. */
  lemma SameFenceTest(n: Node, q: Bytes, key: Bytes, space: iset<Bytes>)
    requires KeysIn(n, space) && PrefixFree(space) && q in space && key in space && SamePrefix(q, key)
    ensures HighPrefixCmp(n, q) == HighPrefixCmp(n, key)
  {
    hide HighPrefixCmp;
    if n.high.Some? {
      FenceColumns(n, q, space);
      FenceColumns(n, key, space);
    } else {
      assert !HighPrefixCmp(n, q) && !HighPrefixCmp(n, key) by { NoFence(n, q); NoFence(n, key); }
    }
  }

  lemma NoFence(n: Node, key: Bytes)
    requires n.high.None?
    ensures !HighPrefixCmp(n, key)
  {
  }

  lemma DoneKnows(c: Config, t: Tree, w: Walk, th: Thread, v: Walk)
    requires TreeOk(t) && LeavesIn(t, c.space) && PrefixFree(c.space) && Contents(t) <= c.space
    requires Knows(c, t, w, th) && th.key in c.space && !HighPrefixCmp(t.nodes[w.at], th.key)
    requires v == w.(tested := w.tested + (iset k | HasKey(t.nodes[w.at].entries, k) && SamePrefix(w.q, k)), done := true)
    ensures Knows(c, t, v, th)
  {
    hide TreeOk, Contents, SamePrefix, HoldsUpTo, PrefixFree, HighPrefixCmp, HasSplit, Rank;
    var n := t.nodes[w.at];
    assert KeysIn(n, c.space);
    SameFenceTest(n, w.q, th.key, c.space);
    forall k | k in c.space && SamePrefix(w.q, k) ensures Under(k, n.high) {
      if n.high.Some? {
        FenceTellsAll(n, w.q, k, c.space);
      }
    }
    forall k | k in Contents(t) && SamePrefix(w.q, k) ensures k in v.tested {
      CheckTested(c, t, w, th, k);
    }
    assert HoldsUpTo(t, v) by { SameHolds(t, w, v); }
  }

  lemma SameHolds(t: Tree, w: Walk, v: Walk)
    requires w.at in t.low && HoldsUpTo(t, w) && v.q == w.q && v.at == w.at && v.held == w.held
    ensures HoldsUpTo(t, v)
  {
  }

  lemma CheckKeeps(c: Config, x: World, y: World, i: nat)
    requires WorldInv(c, x) && PrefixFree(c.space) && CheckLeaf(c, x, y, i)
    ensures WorldInv(c, y)
  {
    hide Inv, TreeOk, HasSplit, PathOk, SamePrefix, HoldsUpTo, TestedAll, PrefixFree, Contents, HighPrefixCmp;
    InvReader(c, x.s, i);
    var t, w, th := x.s.tree, x.walks[i], x.s.threads[i];
    assert Knows(c, t, w, th);
    hide Knows;
    var AtLeaf(op, key, cur, stack) := th;
    var n := t.nodes[w.at];
    if HighPrefixCmp(n, key) {
      assert n.high.Some? by { FenceThere(n, key); }
      if cur == w.at && HasSplit(n, key) {
        WalkRight(t, stack, cur, key);
      }
      NextKnows(c, t, w, th, y.walks[i], y.s.threads[i]);
      OwnKeeps(c, x, y, i, y.s.threads[i]);
    } else {
      DoneKnows(c, t, w, th, y.walks[i]);
      OwnKeeps(c, x, y, i, th);
    }
  }

  lemma FenceThere(n: Node, key: Bytes)
    requires HighPrefixCmp(n, key)
    ensures n.high.Some?
  {
  }

  lemma MoveKeeps(c: Config, x: World, y: World)
    requires WorldInv(c, x) && PrefixFree(c.space) && Moves(c, x, y)
    ensures WorldInv(c, y)
  {
    hide WorldInv, OtherStep, BeginWalk, CheckLeaf, GiveUp, Enter, PrefixFree;
    var i :| MovesBy(c, x, y, i);
    if OtherStep(c, x, y, i) {
      OtherKeeps(c, x, y, i);
    } else if key :| BeginWalk(c, x, y, i, key) {
      BeginKeeps(c, x, y, i, key);
    } else if CheckLeaf(c, x, y, i) {
      CheckKeeps(c, x, y, i);
    } else if GiveUp(x, y, i) {
      GiveUpKeeps(c, x, y, i);
    } else {
      EnterKeeps(c, x, y, i);
    }
  }

  lemma {:induction false} RunKeeps(c: Config, run: seq<World>)
    requires PrefixFree(c.space) && Run(c, run)
    ensures WorldInv(c, run[|run| - 1])
    decreases |run|
  {
    hide Inv, Knows, Moves, PrefixFree, Init;
    if |run| == 1 {
      InitInv(c, run[0].s);
    } else {
      var shorter := run[..|run| - 1];
      RunKeeps(c, shorter);
      assert Moves(c, run[|run| - 2], run[|run| - 1]);
      MoveKeeps(c, run[|run| - 2], run[|run| - 1]);
    }
  }

  // ---- what the latches are for ----

  /** When a unique insert is about to put its entry in, it has tested every stored key with the entry's columns, whatever
      the others have inserted or split meanwhile; and the leaf it holds for the entry covers it. */
  lemma AllTestedAtEntry(c: Config, run: seq<World>, i: nat)
    requires PrefixFree(c.space) && Run(c, run) && i in run[|run| - 1].walks && run[|run| - 1].walks[i].done
    ensures var x := run[|run| - 1];
      && i in x.s.threads && x.s.threads[i].AtLeaf?
      && (forall k | k in Contents(x.s.tree) && SamePrefix(x.s.threads[i].key, k) :: k in x.walks[i].tested)
      && x.s.threads[i].cur in x.s.tree.nodes && !HasSplit(x.s.tree.nodes[x.s.threads[i].cur], x.s.threads[i].key)
  {
    hide WorldInv, SamePrefix, PrefixFree, Moves, Init;
    RunKeeps(c, run);
    TestedAtEntry(c, run[|run| - 1], i);
  }

  lemma TestedAtEntry(c: Config, x: World, i: nat)
    requires WorldInv(c, x) && i in x.walks && x.walks[i].done
    ensures i in x.s.threads && x.s.threads[i].AtLeaf?
    ensures forall k | k in Contents(x.s.tree) && SamePrefix(x.s.threads[i].key, k) :: k in x.walks[i].tested
    ensures x.s.threads[i].cur in x.s.tree.nodes && !HasSplit(x.s.tree.nodes[x.s.threads[i].cur], x.s.threads[i].key)
  {
    hide Inv, SamePrefix, HoldsUpTo;
    assert Knows(c, x.s.tree, x.walks[i], x.s.threads[i]);
    EntryKey(c, x, i);
    forall k | k in Contents(x.s.tree) && SamePrefix(x.s.threads[i].key, k) ensures k in x.walks[i].tested {
      SamePrefixAgain(x.walks[i].q, x.s.threads[i].key, k);
    }
  }

  lemma EntryKey(c: Config, x: World, i: nat)
    requires Inv(c, x.s) && i in x.s.threads && x.s.threads[i].AtLeaf?
    ensures x.s.threads[i].key in c.space
  {
    assert ThreadOk(c, x.s.tree, x.s.hist, x.s.threads[i]);
  }

  lemma SamePrefixAgain(a: Bytes, b: Bytes, d: Bytes)
    requires SamePrefix(a, b) && SamePrefix(b, d)
    ensures SamePrefix(a, d)
  {
  }

  /** No two unique inserts of the same columns hold latches at the same time. */
  lemma OneWalkPerKey(c: Config, run: seq<World>, i: nat, j: nat)
    requires PrefixFree(c.space) && Run(c, run) && i != j && i in run[|run| - 1].walks && j in run[|run| - 1].walks
    ensures run[|run| - 1].walks[i].q != run[|run| - 1].walks[j].q
  {
    hide WorldInv, PrefixFree, Moves, Init;
    RunKeeps(c, run);
    WalksApart(c, run[|run| - 1], i, j);
  }

  lemma WalksApart(c: Config, x: World, i: nat, j: nat)
    requires WorldInv(c, x) && i != j && i in x.walks && j in x.walks
    ensures x.walks[i].q != x.walks[j].q
  {
    hide Inv, TreeOk, Knows;
    InvReader(c, x.s, i);
    var leaf := CoverOf(x.s.tree, x.walks[i].q);
    HoldsCover(c, x, i, leaf);
    if x.walks[i].q == x.walks[j].q {
      HoldsCover(c, x, j, leaf);
    }
  }

  lemma HoldsCover(c: Config, x: World, i: nat, leaf: Pid)
    requires WorldInv(c, x) && i in x.walks && IsLeaf(x.s.tree, leaf) && Covers(x.s.tree, leaf, x.walks[i].q)
    ensures leaf in x.walks[i].held
  {
    hide Inv, TestedAll, HasSplit;
    assert Knows(c, x.s.tree, x.walks[i], x.s.threads[i]);
  }

  lemma CoverOf(t: Tree, k: Bytes) returns (leaf: Pid)
    requires TreeOk(t)
    ensures IsLeaf(t, leaf) && Covers(t, leaf, k)
  {
    leaf := Descend(t, t.root, k, 0);
  }
}
