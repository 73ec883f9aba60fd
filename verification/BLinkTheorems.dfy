/** Consequences of the invariant, and the two places where the code's finer steps lose something. */
module BLinkTheorems {
  import opened ByteOrder
  import opened PageLayout
  import opened LeafScan
  import opened BLinkTree
  import opened BLinkSteps
  import opened BLinkSafety
  import opened BLinkRuns

  // ---- the leaves hold a set; a step adds one key, removes one key, or leaves the set alone ----

  ghost predicate Writes(c: Config, s: State, u: State, i: nat)
    requires i in s.threads
  {
    LeafInsert(s, u, i) || LeafSplit(c, s, u, i)
  }

  /** Every write takes effect in one step: the step in which its leaf is latched. */
  lemma WritesAreAtomic(c: Config, s: State, u: State, i: nat)
    requires Inv(c, s) && i in s.threads && ThreadStep(c, s, u, i)
    ensures Writes(c, s, u, i) ==>
              s.threads[i].AtLeaf? && s.threads[i].key !in Contents(s.tree)
              && Contents(u.tree) == Contents(s.tree) + iset{s.threads[i].key}
    ensures LeafDelete(s, u, i) ==>
              s.threads[i].AtLeaf? && s.threads[i].key in Contents(s.tree)
              && Contents(u.tree) == Contents(s.tree) - iset{s.threads[i].key}
    ensures !Writes(c, s, u, i) && !LeafDelete(s, u, i) ==> Contents(u.tree) == Contents(s.tree)
  {
    hide Inv, Contents, Start, Down, LeafRight, LeafInsert, LeafDelete, LeafSplit, CheckRoot, Redescend, RedescendDown,
      ParentRight, ParentInsert, ParentSplit, ReadLeaf, FollowLink;
    if LeafInsert(s, u, i) {
      LeafInsertKeeps(c, s, u, i);
      WriterKey(c, s, u, i);
    } else if LeafSplit(c, s, u, i) {
      LeafSplitKeeps(c, s, u, i);
      WriterKey(c, s, u, i);
    } else if LeafDelete(s, u, i) {
      LeafDeleteKeeps(c, s, u, i);
      DeleterKey(c, s, u, i);
    } else if CheckRoot(s, u, i) {
      CheckRootKeeps(c, s, u, i);
    } else if ParentInsert(s, u, i) {
      ParentInsertKeeps(c, s, u, i);
    } else if ParentSplit(c, s, u, i) {
      ParentSplitKeeps(c, s, u, i);
    } else {
      WalkLeavesTree(c, s, u, i);
    }
    WriteOrDelete(c, s, u, i);
  }

  lemma WriteOrDelete(c: Config, s: State, u: State, i: nat)
    requires i in s.threads
    ensures Writes(c, s, u, i) ==> !LeafDelete(s, u, i)
  {
  }

  lemma WalkLeavesTree(c: Config, s: State, u: State, i: nat)
    requires i in s.threads
    requires Start(c, s, u, i) || Down(s, u, i) || LeafRight(s, u, i) || Redescend(s, u, i) || RedescendDown(s, u, i)
             || ParentRight(s, u, i) || ReadLeaf(s, u, i) || FollowLink(c, s, u, i)
    ensures u.tree == s.tree
  {
    hide Contents, PageMatches, HasSplit, UpperBound;
  }

  lemma WriterKey(c: Config, s: State, u: State, i: nat)
    requires Inv(c, s) && i in s.threads && Writes(c, s, u, i)
    ensures s.threads[i].AtLeaf? && s.threads[i].key !in Contents(s.tree)
  {
    hide Inv, TreeOk, Contents, SplitPut, Put, AfterSplit;
    InvReader(c, s, i);
    var AtLeaf(_, k, cur, _) := s.threads[i];
    if k in Contents(s.tree) {
      StoredInCover(s.tree, cur, k);
    }
  }

  lemma DeleterKey(c: Config, s: State, u: State, i: nat)
    requires Inv(c, s) && i in s.threads && LeafDelete(s, u, i)
    ensures s.threads[i].AtLeaf? && s.threads[i].key in Contents(s.tree)
  {
    hide Inv, TreeOk, Remove;
    InvReader(c, s, i);
    var AtLeaf(_, k, cur, _) := s.threads[i];
    var n := s.tree.nodes[cur];
    var j: nat :| j < |n.entries| && n.entries[j].key == k;
    assert n.entries[j] in n.entries;
  }

  // ---- quiescence ----

  ghost predicate Quiescent(s: State) {
    forall i | i in s.threads :: Pending(s.threads[i]).None?
  }

  /** The parent entry of a page is unique. */
  lemma ParentUnique(t: Tree, p: Pid, e: Entry, r: Pid, f: Entry)
    requires TreeOk(t) && p in t.nodes && r in t.nodes && t.nodes[p].level > 0 && t.nodes[r].level > 0
    requires e in t.nodes[p].entries && f in t.nodes[r].entries && e.child == f.child
    ensures p == r && e == f
  {
    hide Rank, TreeOk, Covers;
    NodeFacts(t, p);
    NodeFacts(t, r);
    assert ChildOk(t, t.nodes[p].level, e) && ChildOk(t, t.nodes[r].level, f);
    EntryCovered(t, p, e);
    EntryCovered(t, r, f);
    SameLeaf(t, p, r, e.key);
    SortedUnique(t.nodes[p].entries, e, f);
  }

  /** Once no separator is on its way, the root stands alone and a descent never has to go right. */
  lemma QuiescentNeedsNoLinks(c: Config, s: State, p: Pid, k: Bytes)
    requires Inv(c, s) && Quiescent(s) && p in s.tree.nodes && s.tree.nodes[p].level > 0 && Covers(s.tree, p, k)
    ensures s.tree.nodes[s.tree.root].high.None?
    ensures UpperBound(s.tree.nodes[p].entries, k) > 0
    ensures var child := ChildFor(s.tree.nodes[p], k);
            child in s.tree.nodes && child in s.tree.low && Covers(s.tree, child, k) && !HasSplit(s.tree.nodes[child], k)
  {
    hide Rank, TreeOk, UpperBound, ThreadOk, HistOk, LeavesIn, RangeOk, ChildrenOk, PendingsOk, NoOrphans, CmpFull, MemCmp;
    var t := s.tree;
    TreeKeys(t);
    NodeFacts(t, t.root);
    if t.nodes[t.root].high.Some? {
      RootFence(t);
      NotRootReferenced(c, s, t.nodes[t.root].rlink.value);
    }
    DownStep(t, p, k);
    LinkedChildIsListed(c, s, p, k);
  }

  lemma RootFence(t: Tree)
    requires TreeOk(t) && t.root in t.nodes && t.nodes[t.root].high.Some?
    ensures Less([], t.nodes[t.root].high.value)
  {
    NodeFacts(t, t.root);
  }

  /** A page to the right of the child for k, and not above k, would be the child instead. */
  lemma LinkedChildIsListed(c: Config, s: State, p: Pid, k: Bytes)
    requires Inv(c, s) && Quiescent(s) && p in s.tree.nodes && s.tree.nodes[p].level > 0 && Covers(s.tree, p, k)
    requires UpperBound(s.tree.nodes[p].entries, k) > 0
    requires var child := ChildFor(s.tree.nodes[p], k);
      child in s.tree.nodes && child in s.tree.low && s.tree.nodes[child].level + 1 == s.tree.nodes[p].level
      && Leq(s.tree.low[child], k)
    ensures !HasSplit(s.tree.nodes[ChildFor(s.tree.nodes[p], k)], k)
  {
    hide Rank, TreeOk, UpperBound, ThreadOk, HistOk, LeavesIn;
    var t := s.tree;
    TreeKeys(t);
    NodeFacts(t, p);
    var n := t.nodes[p];
    var i := UpperBound(n.entries, k) - 1;
    var child := n.entries[i].child;
    NodeFacts(t, child);
    assert n.entries[i] in n.entries && ChildOk(t, n.level, n.entries[i]);
    if HasSplit(t.nodes[child], k) {
      RightStep(t, child, k);
      var r := t.nodes[child].rlink.value;
      NotRootReferenced(c, s, r);
      var y, e :| y in t.nodes && t.nodes[y].level > 0 && e in t.nodes[y].entries && e.child == r;
      NodeFacts(t, y);
      assert ChildOk(t, t.nodes[y].level, e);
      EntryCovered(t, y, e);
      SameLeaf(t, y, p, e.key);
      var j :| 0 <= j < |n.entries| && n.entries[j] == e;
      assert Less(n.entries[i].key, e.key) && Leq(e.key, k);
      UpperBoundLast(n.entries, k, j);
      SortedIndex(n.entries, i, j);
    }
  }

  lemma SortedIndex(entries: seq<Entry>, i: nat, j: nat)
    requires Sorted(entries) && i < |entries| && j < |entries| && Less(entries[i].key, entries[j].key)
    ensures i < j
  {
  }

  lemma UpperBoundLast(entries: seq<Entry>, k: Bytes, j: nat)
    requires Sorted(entries) && j < |entries| && Leq(entries[j].key, k)
    ensures j < UpperBound(entries, k)
  {
  }

  /** With nothing on its way, a page with something left of it, or below the root, has a parent. */
  lemma NotRootReferenced(c: Config, s: State, r: Pid)
    requires Inv(c, s) && Quiescent(s) && r in s.tree.nodes && r in s.tree.low && s.tree.low[r] != []
    ensures Referenced(s.tree, r)
    ensures s.tree.nodes[r].level < s.tree.nodes[s.tree.root].level
  {
    hide ThreadOk, HistOk, LeavesIn;
    var t := s.tree;
    assert r != t.root && !Carried(s, r);
    var y, e :| y in t.nodes && t.nodes[y].level > 0 && e in t.nodes[y].entries && e.child == r;
    assert NodeOk(t, y) && ChildOk(t, t.nodes[y].level, e);
  }

  // ---- the root split ----

  ghost predicate RootAlone(t: Tree) {
    t.root in t.nodes && forall p | p in t.nodes && t.nodes[p].level == t.nodes[t.root].level :: p == t.root
  }

  ghost predicate HasHome(t: Tree, th: Thread)
    requires t.root in t.nodes
  {
    match th
    case Lost(_, _, _) => false
    case RootCheck(pid, _, _) => pid in t.nodes && t.nodes[pid].level < t.nodes[t.root].level
    case Restart(level, _, _) => level < t.nodes[t.root].level
    case _ => true
  }

  ghost predicate NobodyLost(s: State) {
    RootAlone(s.tree) && forall i | i in s.threads :: HasHome(s.tree, s.threads[i])
  }

  lemma NobodyLostStep(s: State, i: nat, t: Tree, th: Thread)
    requires NobodyLost(s) && i in s.threads && RootAlone(t) && HasHome(t, th)
    requires s.tree.root in s.tree.nodes && t.nodes[t.root].level >= s.tree.nodes[s.tree.root].level
    requires s.tree.nodes.Keys <= t.nodes.Keys
    requires forall p | p in s.tree.nodes :: t.nodes[p].level == s.tree.nodes[p].level
    ensures NobodyLost(Record(s, i, t, th))
  {
    var v := Record(s, i, t, th);
    forall j | j in v.threads ensures HasHome(v.tree, v.threads[j]) {
      assert j != i ==> HasHome(s.tree, s.threads[j]);
    }
  }

  lemma SplitLevels(n: Node, sp: nat, q: Pid, e: Entry)
    requires 1 <= sp < |n.entries|
    ensures SplitAt(n, sp, q, e).left.level == SplitAt(n, sp, q, e).right.level == n.level
  {
  }

  lemma AtomicSplitStep(c: Config, s: State, u: State, i: nat, cur: Pid, stack: seq<Pid>, sp: nat, q: Pid, e: Entry)
    requires c.atomicRoot && Inv(c, s) && NobodyLost(s) && i in s.threads
    requires cur in s.tree.nodes && Fresh(s.tree, q) && 1 <= sp < |s.tree.nodes[cur].entries| && PathOk(s.tree, stack, cur)
    requires var t := SplitPut(s.tree, cur, sp, q, e);
             q in t.low && AfterSplit(c, s, u, i, t, cur, t.low[q], q, stack)
    ensures NobodyLost(u)
  {
    hide Rank, SplitAt, NodeOk, ThreadOk, HistOk, LeavesIn, PendingsOk, NoOrphans, Contents;
    SplitLevels(s.tree.nodes[cur], sp, q, e);
    var t := SplitPut(s.tree, cur, sp, q, e);
    if stack != [] {
      assert s.tree.nodes[stack[0]].level > s.tree.nodes[cur].level;
      NobodyLostStep(s, i, t, Propagating(t.low[q], q, stack[|stack| - 1], stack[..|stack| - 1]));
    } else if cur == t.root {
      var r: Pid :| Fresh(t, r) && t.root in t.nodes && u == Record(s, i, NewRoot(t, r, t.low[q], q), Idle);
      NobodyLostStep(s, i, NewRoot(t, r, t.low[q], q), Idle);
    } else {
      NobodyLostStep(s, i, t, RootCheck(cur, t.low[q], q));
    }
  }

  lemma AtomicStep(c: Config, s: State, u: State)
    requires c.atomicRoot && Inv(c, s) && NobodyLost(s) && Next(c, s, u)
    ensures NobodyLost(u)
  {
    hide Rank, Inv, Contents, SplitAt, InsertEntry, DeleteAt, AfterSplit, PageMatches, UpperBound, HasSplit, NobodyLost,
      RootAlone;
    var i :| i in s.threads && ThreadStep(c, s, u, i);
    InvReader(c, s, i);
    OneHome(s, i);
    if LeafSplit(c, s, u, i) {
      var AtLeaf(_, k, cur, stack) := s.threads[i];
      var sp: nat, q: Pid :| Fresh(s.tree, q) && 1 <= sp < |s.tree.nodes[cur].entries|
                             && var t := SplitPut(s.tree, cur, sp, q, Entry(k, 0));
                                AfterSplit(c, s, u, i, t, cur, t.low[q], q, stack);
      AtomicSplitStep(c, s, u, i, cur, stack, sp, q, Entry(k, 0));
    } else if ParentSplit(c, s, u, i) {
      var Propagating(sep, child, cur, stack) := s.threads[i];
      var sp: nat, q: Pid :| Fresh(s.tree, q) && 1 <= sp < |s.tree.nodes[cur].entries|
                             && var t := SplitPut(s.tree, cur, sp, q, Entry(sep, child));
                                AfterSplit(c, s, u, i, t, cur, t.low[q], q, stack);
      AtomicSplitStep(c, s, u, i, cur, stack, sp, q, Entry(sep, child));
    } else {
      AtomicOtherStep(c, s, u, i);
    }
  }

  lemma OneHome(s: State, i: nat)
    requires NobodyLost(s) && i in s.threads
    ensures RootAlone(s.tree) && HasHome(s.tree, s.threads[i])
  {
  }

  /** A write without a split changes one page's entries. */
  lemma WriteShape(s: State, u: State, i: nat)
    requires i in s.threads && (LeafInsert(s, u, i) || ParentInsert(s, u, i) || LeafDelete(s, u, i))
    ensures u == Record(s, i, u.tree, Idle) && u.tree.root == s.tree.root && u.tree.nodes.Keys == s.tree.nodes.Keys
    ensures forall p | p in s.tree.nodes :: u.tree.nodes[p].level == s.tree.nodes[p].level
  {
    hide Rank, Contents, InsertSeq, UpperBound, HasSplit, HasKey, CalcHeap;
  }

  /** A step that neither splits a page nor has to look for a root keeps everybody's home. */
  lemma AtomicOtherStep(c: Config, s: State, u: State, i: nat)
    requires Inv(c, s) && NobodyLost(s) && i in s.threads && ThreadStep(c, s, u, i)
    requires !LeafSplit(c, s, u, i) && !ParentSplit(c, s, u, i)
    ensures NobodyLost(u)
  {
    hide Inv, ThreadOk, TreeOk, LeavesIn, NobodyLost, ThreadStep, LeafSplit, ParentSplit, LeafInsert, ParentInsert,
      LeafDelete, RootAlone, Contents;
    InvReader(c, s, i);
    OneHome(s, i);
    RootThere(s.tree);
    if LeafInsert(s, u, i) || ParentInsert(s, u, i) || LeafDelete(s, u, i) {
      WriteShape(s, u, i);
      SameShapeAlone(s.tree, u.tree);
      NobodyLostStep(s, i, u.tree, Idle);
    } else {
      HomeAfterWalk(c, s, u, i);
      NobodyLostStep(s, i, s.tree, u.threads[i]);
    }
  }

  lemma RootThere(t: Tree)
    requires TreeOk(t)
    ensures t.root in t.nodes
  {
  }

  lemma SameShapeAlone(t: Tree, u: Tree)
    requires RootAlone(t) && u.root == t.root && u.nodes.Keys == t.nodes.Keys
    requires forall p | p in t.nodes :: u.nodes[p].level == t.nodes[p].level
    ensures RootAlone(u)
  {
  }

  lemma HomeAfterWalk(c: Config, s: State, u: State, i: nat)
    requires i in s.threads && ThreadStep(c, s, u, i) && s.tree.root in s.tree.nodes
    requires HasHome(s.tree, s.threads[i])
    requires !LeafSplit(c, s, u, i) && !ParentSplit(c, s, u, i)
    requires !LeafInsert(s, u, i) && !ParentInsert(s, u, i) && !LeafDelete(s, u, i)
    ensures u.tree == s.tree && i in u.threads && HasHome(s.tree, u.threads[i])
    ensures u == Record(s, i, s.tree, u.threads[i])
  {
    hide Rank, Contents, PageMatches, UpperBound, HasSplit, LeafSplit, ParentSplit, LeafInsert, ParentInsert, LeafDelete;
  }

  /** If the root split is one step, no separator ever lacks a page to go to. */
  lemma {:induction false} AtomicRootNeverLost(c: Config, run: seq<State>)
    requires c.atomicRoot && PrefixFree(c.space) && IsRun(c, run)
    ensures NobodyLost(run[|run| - 1])
    decreases |run|
  {
    hide Inv, Next, PrefixFree;
    if |run| > 1 {
      var shorter := run[..|run| - 1];
      AtomicRootNeverLost(c, shorter);
      RunInv(c, shorter);
      assert Next(c, run[|run| - 2], run[|run| - 1]);
      AtomicStep(c, run[|run| - 2], run[|run| - 1]);
    }
  }

  // ---- order of the results ----

  ghost predicate AllLess(ks: seq<Bytes>, bound: Bytes) {
    forall j | 0 <= j < |ks| :: Less(ks[j], bound)
  }

  ghost predicate InOrder(t: Tree, th: Thread) {
    match th
    case Getting(_, cur, _, found) => cur in t.low && Ascending(found) && AllLess(found, t.low[cur])
    case Linking(_, _, _, found, bound, _) => Ascending(found) && AllLess(found, bound)
    case Got(_, _, _, found) => Ascending(found)
    case _ => true
  }

  ghost predicate AllInOrder(s: State) {
    forall i | i in s.threads :: InOrder(s.tree, s.threads[i])
  }

  /** The reader follows a link to a page that does not start above all it has found. */
  ghost predicate GoesBehind(s: State, u: State, i: nat) {
    && i in s.threads && i in u.threads && s.threads[i].Linking? && u.threads[i].Getting?
    && u.threads[i].cur in s.tree.low && !AllLess(s.threads[i].found, s.tree.low[u.threads[i].cur])
  }

  /** Going behind takes another link than the one validated. */
  lemma UnchangedLinkIsAhead(c: Config, s: State, u: State, i: nat)
    requires Inv(c, s) && i in s.threads && ThreadStep(c, s, u, i) && InOrder(s.tree, s.threads[i])
    requires s.threads[i].Linking? && s.threads[i].cur in s.tree.nodes
    requires c.snapshotLink || s.tree.nodes[s.threads[i].cur].rlink == s.threads[i].link
    ensures !GoesBehind(s, u, i)
  {
    hide Rank, Contents, PageMatches, UpperBound, TreeOk, LeavesIn, HistOk, PendingsOk, NoOrphans, SplitPut, Put, Remove,
      NewRoot, HasSplit, AllBelow, OnlyStored, CmpPrefix;
    assert ThreadOk(c, s.tree, s.hist, s.threads[i]);
  }

  lemma AppendPage(t: Tree, cur: Pid, q: Bytes, found: seq<Bytes>, space: iset<Bytes>)
    requires TreeOk(t) && LeavesIn(t, space) && PrefixFree(space) && q in space && IsSearchKey(q)
    requires cur in t.nodes && cur in t.low && t.nodes[cur].level == 0 && Ascending(found) && AllLess(found, t.low[cur])
    ensures var more := found + PageMatches(t.nodes[cur], q);
            Ascending(more) && (t.nodes[cur].high.Some? ==> AllLess(more, t.nodes[cur].high.value))
  {
    hide Rank, TreeOk, PageMatches, SamePrefix;
    var n := t.nodes[cur];
    NodeFacts(t, cur);
    assert KeysIn(n, space);
    PageMatchesExact(n, q, space);
    var page := PageMatches(n, q);
    forall j | 0 <= j < |page| ensures Inside(page[j], t.low[cur], n.high) {
      assert page[j] in page;
      var e :| e in n.entries && e.key == page[j];
    }
  }

  /** What a reader has found stays in order unless the reader goes behind it. */
  lemma OrderStep(c: Config, s: State, u: State, i: nat)
    requires Inv(c, s) && PrefixFree(c.space) && Next(c, s, u)
    requires i in s.threads && InOrder(s.tree, s.threads[i]) && !GoesBehind(s, u, i)
    ensures i in u.threads && InOrder(u.tree, u.threads[i])
  {
    hide Rank, Inv, Contents, PageMatches, UpperBound, TreeOk, LeavesIn, PrefixFree, SplitPut, Put, Remove, NewRoot,
      ThreadStep, HasSplit, HighPrefixCmp, AllBelow, OnlyStored, GoesBehind;
    var m :| m in s.threads && ThreadStep(c, s, u, m);
    InvReader(c, s, i);
    StepGrows(c, s, u, m);
    if m == i {
      OwnOrder(c, s, u, i);
    }
  }

  ghost predicate LowsKept(t: Tree, u: Tree) {
    t.low.Keys <= u.low.Keys && forall p | p in t.low :: u.low[p] == t.low[p]
  }

  lemma SplitLowsKept(c: Config, s: State, u: State, i: nat, cur: Pid, stack: seq<Pid>, sp: nat, q: Pid, e: Entry)
    requires s.tree.nodes.Keys == s.tree.low.Keys && cur in s.tree.nodes
    requires Fresh(s.tree, q) && 1 <= sp < |s.tree.nodes[cur].entries|
    requires var t := SplitPut(s.tree, cur, sp, q, e);
             q in t.low && AfterSplit(c, s, u, i, t, cur, t.low[q], q, stack)
    ensures LowsKept(s.tree, u.tree)
    ensures i in u.threads && u.threads == s.threads[i := u.threads[i]]
  {
    hide SplitAt, Contents;
  }

  /** Low fences are only ever added, and a thread changes its own state only. */
  lemma StepGrows(c: Config, s: State, u: State, i: nat)
    requires Inv(c, s) && i in s.threads && ThreadStep(c, s, u, i)
    ensures LowsKept(s.tree, u.tree)
    ensures i in u.threads && u.threads == s.threads[i := u.threads[i]]
  {
    hide Rank, Inv, Contents, PageMatches, UpperBound, SplitAt, InsertEntry, DeleteAt, HasSplit, AfterSplit, TreeOk,
      ThreadOk;
    InvReader(c, s, i);
    if LeafSplit(c, s, u, i) {
      var AtLeaf(_, k, cur, stack) := s.threads[i];
      var sp: nat, q: Pid :| Fresh(s.tree, q) && 1 <= sp < |s.tree.nodes[cur].entries|
                             && var t := SplitPut(s.tree, cur, sp, q, Entry(k, 0));
                                AfterSplit(c, s, u, i, t, cur, t.low[q], q, stack);
      SplitLowsKept(c, s, u, i, cur, stack, sp, q, Entry(k, 0));
    } else if ParentSplit(c, s, u, i) {
      var Propagating(sep, child, cur, stack) := s.threads[i];
      var sp: nat, q: Pid :| Fresh(s.tree, q) && 1 <= sp < |s.tree.nodes[cur].entries|
                             && var t := SplitPut(s.tree, cur, sp, q, Entry(sep, child));
                                AfterSplit(c, s, u, i, t, cur, t.low[q], q, stack);
      SplitLowsKept(c, s, u, i, cur, stack, sp, q, Entry(sep, child));
    } else {
      OtherLowsKept(c, s, u, i);
    }
  }

  lemma OtherLowsKept(c: Config, s: State, u: State, i: nat)
    requires s.tree.nodes.Keys == s.tree.low.Keys && i in s.threads && ThreadStep(c, s, u, i)
    requires !LeafSplit(c, s, u, i) && !ParentSplit(c, s, u, i)
    ensures LowsKept(s.tree, u.tree)
    ensures i in u.threads && u.threads == s.threads[i := u.threads[i]]
  {
    hide Rank, Contents, PageMatches, UpperBound, InsertEntry, DeleteAt, HasSplit, LeafSplit, ParentSplit, RootNode;
    if !LeafInsert(s, u, i) && !ParentInsert(s, u, i) && !LeafDelete(s, u, i) && !CheckRoot(s, u, i) {
      WalkLeavesTree(c, s, u, i);
    }
  }

  lemma OwnOrder(c: Config, s: State, u: State, i: nat)
    requires !GoesBehind(s, u, i) && PrefixFree(c.space) && i in s.threads && ThreadStep(c, s, u, i)
    requires TreeOk(s.tree) && ThreadOk(c, s.tree, s.hist, s.threads[i]) && LeavesIn(s.tree, c.space)
    requires s.tree.nodes.Keys == s.tree.low.Keys && InOrder(s.tree, s.threads[i])
    ensures i in u.threads && InOrder(u.tree, u.threads[i])
  {
    hide Rank, Contents, PageMatches, UpperBound, TreeOk, LeavesIn, PrefixFree, SplitPut, Put, Remove, NewRoot,
      HasSplit, AllBelow, OnlyStored, CmpPrefix;
    if s.threads[i].Getting? {
      var Getting(q, cur, start, found) := s.threads[i];
      if HasSplit(s.tree.nodes[cur], q) {
        RightStep(s.tree, cur, q);
      } else {
        AppendPage(s.tree, cur, q, found, c.space);
      }
    } else if s.threads[i].Linking? {
      NodeFacts(s.tree, s.threads[i].cur);
    }
  }

  lemma AheadStep(c: Config, s: State, u: State)
    requires c.snapshotLink && Inv(c, s) && PrefixFree(c.space) && AllInOrder(s) && Next(c, s, u)
    ensures AllInOrder(u)
  {
    hide Inv, ThreadStep, PrefixFree, InOrder, GoesBehind;
    var m :| m in s.threads && ThreadStep(c, s, u, m);
    StepGrows(c, s, u, m);
    forall i | i in u.threads ensures InOrder(u.tree, u.threads[i]) {
      if s.threads[i].Linking? && i == m {
        ReaderThere(c, s, i);
        UnchangedLinkIsAhead(c, s, u, i);
      } else {
        NotBehind(s, u, i);
      }
      OrderStep(c, s, u, i);
    }
  }

  lemma ReaderThere(c: Config, s: State, i: nat)
    requires Inv(c, s) && i in s.threads && s.threads[i].Linking?
    ensures s.threads[i].cur in s.tree.nodes
  {
    assert ThreadOk(c, s.tree, s.hist, s.threads[i]);
  }

  lemma NotBehind(s: State, u: State, i: nat)
    requires i in s.threads && i in u.threads && (!s.threads[i].Linking? || u.threads[i] == s.threads[i])
    ensures !GoesBehind(s, u, i)
  {
  }

  /** If a reader follows the link it validated, its result is strictly ascending: nothing comes twice. */
  lemma {:induction false} SnapshotLinkInOrder(c: Config, run: seq<State>)
    requires c.snapshotLink && PrefixFree(c.space) && IsRun(c, run)
    ensures AllInOrder(run[|run| - 1])
    decreases |run|
  {
    hide Inv, Next, PrefixFree;
    if |run| > 1 {
      var shorter := run[..|run| - 1];
      SnapshotLinkInOrder(c, shorter);
      RunInv(c, shorter);
      assert Next(c, run[|run| - 2], run[|run| - 1]);
      AheadStep(c, run[|run| - 2], run[|run| - 1]);
    }
  }
}
