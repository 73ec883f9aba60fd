/** When the code's finer steps go wrong, in terms of the states and steps of its own runs: a separator without a
    parent, what writing it does to the tree, and a read that returns a key twice. */
module BLinkExact {
  import opened ByteOrder
  import opened PageLayout
  import opened LeafScan
  import opened BLinkTree
  import opened BLinkSteps
  import opened BLinkSafety
  import opened BLinkRuns
  import opened BLinkTheorems
  import opened BLinkRaces

  // ---- the root between its split and the new root ----

  /** Thread i has split the root and not yet installed a new one. */
  ghost predicate AtRoot(s: State, i: nat) {
    i in s.threads && s.threads[i].RootCheck? && s.threads[i].pid == s.tree.root
  }

  ghost predicate RootInv(s: State) {
    RootAlone(s.tree) || exists i :: AtRoot(s, i)
  }

  /** A new root is alone on its level. */
  lemma NewRootAlone(t: Tree, r: Pid, sep: Bytes, child: Pid)
    requires t.root in t.nodes && Fresh(t, r) && forall p | p in t.nodes :: t.nodes[p].level <= t.nodes[t.root].level
    ensures RootAlone(NewRoot(t, r, sep, child))
  {
  }

  lemma RootHighest(t: Tree)
    requires TreeOk(t)
    ensures t.root in t.nodes && forall p | p in t.nodes :: t.nodes[p].level <= t.nodes[t.root].level
  {
  }

  lemma SplitRootInv(c: Config, s: State, u: State, i: nat, cur: Pid, stack: seq<Pid>, sp: nat, q: Pid, e: Entry)
    requires TreeOk(s.tree) && RootInv(s) && i in s.threads && !s.threads[i].RootCheck?
    requires cur in s.tree.nodes && Fresh(s.tree, q) && 1 <= sp < |s.tree.nodes[cur].entries| && PathOk(s.tree, stack, cur)
    requires var t := SplitPut(s.tree, cur, sp, q, e);
             q in t.low && AfterSplit(c, s, u, i, t, cur, t.low[q], q, stack)
    ensures RootInv(u)
  {
    hide Rank, SplitAt, TreeOk, Contents, RootAlone;
    RootHighest(s.tree);
    SplitLevels(s.tree.nodes[cur], sp, q, e);
    var t := SplitPut(s.tree, cur, sp, q, e);
    if stack == [] && c.atomicRoot && cur == t.root {
      var r: Pid :| Fresh(t, r) && t.root in t.nodes && u == Record(s, i, NewRoot(t, r, t.low[q], q), Idle);
      NewRootAlone(t, r, t.low[q], q);
    } else if stack == [] && cur == t.root {
      assert AtRoot(u, i);
    } else {
      if stack != [] {
        assert s.tree.nodes[stack[0]].level > s.tree.nodes[cur].level;
      }
      SplitBelow(s, u, i, t, cur, q);
    }
  }

  /** Splitting another page than the root. */
  lemma SplitBelow(s: State, u: State, i: nat, t: Tree, cur: Pid, q: Pid)
    requires RootInv(s) && cur in s.tree.nodes && cur != s.tree.root && s.tree.root in s.tree.nodes
    requires i in s.threads && !s.threads[i].RootCheck? && u.tree == t && t.root == s.tree.root
    requires t.nodes.Keys == s.tree.nodes.Keys + {q}
    requires forall p | p in s.tree.nodes :: t.nodes[p].level == s.tree.nodes[p].level
    requires q in t.nodes && t.nodes[q].level == t.nodes[cur].level
    requires u.threads.Keys == s.threads.Keys && forall j | j in s.threads && j != i :: u.threads[j] == s.threads[j]
    ensures RootInv(u)
  {
    if !RootAlone(s.tree) {
      var j :| AtRoot(s, j);
      assert AtRoot(u, j);
    }
  }

  lemma RootStep(c: Config, s: State, u: State)
    requires Inv(c, s) && RootInv(s) && Next(c, s, u)
    ensures RootInv(u)
  {
    hide Rank, Inv, Contents, SplitAt, InsertEntry, DeleteAt, AfterSplit, PageMatches, UpperBound, HasSplit, RootInv, TreeOk,
      Start, Down, LeafRight, LeafInsert, LeafDelete, CheckRoot, Redescend, RedescendDown, ParentRight, ParentInsert,
      ReadLeaf, FollowLink, RootAlone, AtRoot;
    var i :| i in s.threads && ThreadStep(c, s, u, i);
    InvReader(c, s, i);
    if LeafSplit(c, s, u, i) {
      var AtLeaf(_, k, cur, stack) := s.threads[i];
      var sp: nat, q: Pid :| Fresh(s.tree, q) && 1 <= sp < |s.tree.nodes[cur].entries|
                             && var t := SplitPut(s.tree, cur, sp, q, Entry(k, 0));
                                AfterSplit(c, s, u, i, t, cur, t.low[q], q, stack);
      SplitRootInv(c, s, u, i, cur, stack, sp, q, Entry(k, 0));
    } else if ParentSplit(c, s, u, i) {
      var Propagating(sep, child, cur, stack) := s.threads[i];
      var sp: nat, q: Pid :| Fresh(s.tree, q) && 1 <= sp < |s.tree.nodes[cur].entries|
                             && var t := SplitPut(s.tree, cur, sp, q, Entry(sep, child));
                                AfterSplit(c, s, u, i, t, cur, t.low[q], q, stack);
      SplitRootInv(c, s, u, i, cur, stack, sp, q, Entry(sep, child));
    } else {
      OtherRootStep(c, s, u, i);
    }
  }

  lemma OtherRootStep(c: Config, s: State, u: State, i: nat)
    requires TreeOk(s.tree) && RootInv(s) && i in s.threads && ThreadStep(c, s, u, i)
    requires !LeafSplit(c, s, u, i) && !ParentSplit(c, s, u, i)
    ensures RootInv(u)
  {
    hide Rank, Contents, InsertEntry, DeleteAt, PageMatches, UpperBound, HasSplit, LeafSplit, ParentSplit, TreeOk, RootAlone;
    RootHighest(s.tree);
    if CheckRoot(s, u, i) && s.threads[i].pid == s.tree.root {
      var RootCheck(pid, sep, child) := s.threads[i];
      var r: Pid :| Fresh(s.tree, r) && u == Record(s, i, NewRoot(s.tree, r, sep, child), Idle);
      NewRootAlone(s.tree, r, sep, child);
    } else {
      SameRoot(c, s, u, i);
      if RootAlone(s.tree) {
        SameShapeAlone(s.tree, u.tree);
      } else {
        var j :| AtRoot(s, j);
        assert AtRoot(u, j);
      }
    }
  }

  lemma SameRoot(c: Config, s: State, u: State, i: nat)
    requires s.tree.root in s.tree.nodes && i in s.threads && ThreadStep(c, s, u, i)
    requires !LeafSplit(c, s, u, i) && !ParentSplit(c, s, u, i) && !(CheckRoot(s, u, i) && s.threads[i].pid == s.tree.root)
    ensures u.tree.root == s.tree.root && u.tree.nodes.Keys == s.tree.nodes.Keys
    ensures forall p | p in s.tree.nodes :: u.tree.nodes[p].level == s.tree.nodes[p].level
    ensures u.threads.Keys == s.threads.Keys && forall j | j in s.threads && j != i :: u.threads[j] == s.threads[j]
    ensures !AtRoot(s, i)
  {
    hide Contents, PageMatches, UpperBound, HasSplit, LeafSplit, ParentSplit, LeafInsert, ParentInsert, LeafDelete;
    if LeafInsert(s, u, i) || ParentInsert(s, u, i) || LeafDelete(s, u, i) {
      WriteShape(s, u, i);
      WriterNotAtRoot(s, u, i);
    }
  }

  lemma WriterNotAtRoot(s: State, u: State, i: nat)
    requires i in s.threads && (LeafInsert(s, u, i) || ParentInsert(s, u, i) || LeafDelete(s, u, i))
    ensures !AtRoot(s, i)
  {
    hide Contents, HasSplit, HasKey, Put, Remove;
  }

  lemma {:induction false} RootRun(c: Config, run: seq<State>)
    requires PrefixFree(c.space) && IsRun(c, run)
    ensures RootInv(run[|run| - 1])
    decreases |run|
  {
    hide Inv, Next, PrefixFree;
    if |run| > 1 {
      var shorter := run[..|run| - 1];
      RootRun(c, shorter);
      RunInv(c, shorter);
      assert Next(c, run[|run| - 2], run[|run| - 1]);
      RootStep(c, run[|run| - 2], run[|run| - 1]);
    }
  }

  /** In every reachable state the root has another page on its level just while some thread stands between
      splitting the root and installing the new one. */
  lemma RootNotAloneIff(c: Config, s: State)
    requires PrefixFree(c.space) && Reachable(c, s)
    ensures !RootAlone(s.tree) <==> exists i :: AtRoot(s, i)
  {
    hide PrefixFree, TreeOk, LeavesIn, HistOk, PendingsOk, NoOrphans, PathOk, RootAlone;
    var run :| IsRun(c, run) && run[|run| - 1] == s;
    RunInv(c, run);
    RootRun(c, run);
    if i :| AtRoot(s, i) {
      SecondPage(c, s, i);
    }
  }

  lemma SecondPage(c: Config, s: State, i: nat)
    requires Inv(c, s) && AtRoot(s, i)
    ensures !RootAlone(s.tree)
  {
    hide TreeOk, LeavesIn, HistOk, PendingsOk, NoOrphans;
    assert ThreadOk(c, s.tree, s.hist, s.threads[i]);
    PendingInTree(c, s.tree, s.hist, s.threads[i]);
  }

  /** A separator is lost just when the page its thread split is on the level of the root; then some other thread
      stands between splitting the root and installing the new one. */
  lemma LostIff(c: Config, s: State, u: State, i: nat)
    requires PrefixFree(c.space) && Reachable(c, s) && i in s.threads && Redescend(s, u, i)
    ensures s.tree.root in s.tree.nodes && i in u.threads
    ensures u.threads[i].Lost? <==> s.threads[i].level == s.tree.nodes[s.tree.root].level
    ensures u.threads[i].Lost? ==> exists j :: j != i && AtRoot(s, j)
  {
    hide PrefixFree, TreeOk, LeavesIn, HistOk, PendingsOk, NoOrphans, Contents, Next, Init;
    var run :| IsRun(c, run) && run[|run| - 1] == s;
    RunInv(c, run);
    RootHighest(s.tree);
    assert ThreadOk(c, s.tree, s.hist, s.threads[i]);
    PendingInTree(c, s.tree, s.hist, s.threads[i]);
    if u.threads[i].Lost? {
      assert !RootAlone(s.tree);
      RootNotAloneIff(c, s);
      var j :| AtRoot(s, j);
      assert j != i;
    }
  }

  // ---- what the write of a lost separator does ----

  /** The page holds an entry that leads to a page of its own level. */
  lemma Misplaced(t: Tree, p: Pid, e: Entry)
    requires p in t.nodes && e in t.nodes[p].entries && e.child != 0
    requires e.child in t.nodes ==> t.nodes[e.child].level == t.nodes[p].level
    ensures !TreeOk(t)
  {
    assert !ChildOk(t, t.nodes[p].level, e);
    assert !ChildrenOk(t, t.nodes[p]);
    if TreeOk(t) {
      NodeFacts(t, p);
    }
  }

  lemma SplitHolds(n: Node, sp: nat, q: Pid, e: Entry)
    requires 1 <= sp < |n.entries|
    ensures var s := SplitAt(n, sp, q, e);
            s.left.level == s.right.level == n.level && (e in s.left.entries || e in s.right.entries)
  {
    hide InsertSeq, CmpFull, CalcHeap;
    var h := Halves(n, sp, q);
    InsertSeqMembers(h.left.entries, e);
    InsertSeqMembers(h.right.entries, e);
  }

  lemma LostSplitBreaks(c: Config, s: State, u: State, i: nat, p: Pid, sp: nat, q: Pid, e: Entry)
    requires LostSplit(c, s, u, i, p, sp, q, e)
    requires e.child != 0 && e.child in s.tree.nodes && s.tree.nodes[e.child].level == s.tree.nodes[p].level
    ensures !TreeOk(u.tree)
  {
    hide TreeOk, Contents, SplitAt;
    SplitHolds(s.tree.nodes[p], sp, q, e);
    var t := SplitPut(s.tree, p, sp, q, e);
    var at := if e in t.nodes[p].entries then p else q;
    assert at in u.tree.nodes && u.tree.nodes[at] == t.nodes[at];
    assert u.tree.nodes[e.child].level == s.tree.nodes[e.child].level;
    Misplaced(u.tree, at, e);
  }

  lemma LostPutBreaks(t: Tree, p: Pid, e: Entry)
    requires p in t.nodes && e.child != 0 && e.child in t.nodes && t.nodes[e.child].level == t.nodes[p].level
    ensures !TreeOk(Put(t, p, e))
  {
    hide TreeOk, CalcHeap, InsertSeq;
    InsertSeqMembers(t.nodes[p].entries, e);
    Misplaced(Put(t, p, e), p, e);
  }

  /** Writing a lost separator always breaks the tree: an inner page leads to a page of its own level, or a leaf
      holds an entry that leads somewhere. */
  lemma LostWriteBreaks(c: Config, s: State, u: State, i: nat)
    requires Inv(c, s) && i in s.threads && LostWrite(c, s, u, i)
    ensures !TreeOk(u.tree)
  {
    hide Inv, TreeOk, Contents, Put, LostSplit;
    var Lost(sep, child, cur) := s.threads[i];
    LostChild(c, s, i);
    var e := Entry(sep, child);
    var p: Pid :|
      && p in s.tree.nodes && s.tree.nodes[p].level == s.tree.nodes[cur].level
      && (|| u == Record(s, i, Put(s.tree, p, e), Idle)
          || exists sp: nat, q: Pid :: LostSplit(c, s, u, i, p, sp, q, e));
    if u == Record(s, i, Put(s.tree, p, e), Idle) {
      LostPutBreaks(s.tree, p, e);
    } else {
      var sp: nat, q: Pid :| LostSplit(c, s, u, i, p, sp, q, e);
      LostSplitBreaks(c, s, u, i, p, sp, q, e);
    }
  }

  lemma LostChild(c: Config, s: State, i: nat)
    requires Inv(c, s) && i in s.threads && s.threads[i].Lost?
    ensures var Lost(sep, child, cur) := s.threads[i];
            && child != 0 && child in s.tree.nodes && cur in s.tree.nodes
            && s.tree.nodes[child].level == s.tree.nodes[cur].level
  {
    assert ThreadOk(c, s.tree, s.hist, s.threads[i]);
  }

  lemma {:induction false} SafePrefix(c: Config, run: seq<State>, n: nat)
    requires PrefixFree(c.space) && IsFullRun(c, run) && n < |run|
    requires forall j | 0 <= j <= n :: TreeOk(run[j].tree)
    ensures IsRun(c, run[..n + 1])
    decreases n
  {
    hide Inv, TreeOk, Next, LostWrite, PrefixFree, Init;
    var shorter := run[..n + 1];
    if n > 0 {
      SafePrefix(c, run, n - 1);
      var before := run[..n];
      RunInv(c, before);
      if !Next(c, run[n - 1], run[n]) {
        assert WritesLost(c, run[n - 1], run[n]);
        var i :| i in run[n - 1].threads && LostWrite(c, run[n - 1], run[n], i);
        LostWriteBreaks(c, run[n - 1], run[n], i);
        assert false;
      }
      forall j | 0 <= j < n ensures Next(c, shorter[j], shorter[j + 1]) {
        assert j < n - 1 ==> Next(c, before[j], before[j + 1]);
      }
    }
  }

  /** Over all runs of the code: the tree is a tree in every state just when no lost separator is written, that is,
      when the run is one of those all other results are about. */
  lemma TreeHoldsIff(c: Config, run: seq<State>)
    requires PrefixFree(c.space) && IsFullRun(c, run)
    ensures (forall j | 0 <= j < |run| :: TreeOk(run[j].tree)) <==> IsRun(c, run)
  {
    hide TreeOk, Next, LostWrite, PrefixFree, Init;
    if forall j | 0 <= j < |run| :: TreeOk(run[j].tree) {
      SafePrefix(c, run, |run| - 1);
      assert run[..|run|] == run;
    } else if IsRun(c, run) {
      forall j | 0 <= j < |run| ensures TreeOk(run[j].tree) {
        var prefix := run[..j + 1];
        forall k | 0 <= k < |prefix| - 1 ensures Next(c, prefix[k], prefix[k + 1]) {
          assert Next(c, run[k], run[k + 1]);
        }
        RunTreeOk(c, prefix);
      }
    }
  }

  lemma RunTreeOk(c: Config, run: seq<State>)
    requires PrefixFree(c.space) && IsRun(c, run)
    ensures TreeOk(run[|run| - 1].tree)
  {
    hide TreeOk, Next, PrefixFree, Init;
    RunInv(c, run);
  }

  /** If the root split is one step, lost separators are never written. */
  lemma {:induction false} AtomicRunsAreSafe(c: Config, run: seq<State>)
    requires c.atomicRoot && PrefixFree(c.space) && IsFullRun(c, run)
    ensures IsRun(c, run)
    decreases |run|
  {
    hide TreeOk, Next, LostWrite, PrefixFree, Init, NobodyLost;
    if |run| > 1 {
      var shorter := run[..|run| - 1];
      forall j | 0 <= j < |shorter| - 1
        ensures Next(c, shorter[j], shorter[j + 1]) || WritesLost(c, shorter[j], shorter[j + 1])
      {
        assert Next(c, run[j], run[j + 1]) || WritesLost(c, run[j], run[j + 1]);
      }
      AtomicRunsAreSafe(c, shorter);
      AtomicRootNeverLost(c, shorter);
      var s, u := run[|run| - 2], run[|run| - 1];
      assert Next(c, s, u) || WritesLost(c, s, u);
      NobodyWrites(c, s, u);
      forall j | 0 <= j < |run| - 1 ensures Next(c, run[j], run[j + 1]) {
        assert j < |run| - 2 ==> Next(c, shorter[j], shorter[j + 1]);
      }
    }
  }

  lemma NobodyWrites(c: Config, s: State, u: State)
    requires NobodyLost(s)
    ensures !WritesLost(c, s, u)
  {
    hide NobodyLost;
    forall i | i in s.threads ensures !LostWrite(c, s, u, i) {
      OneHome(s, i);
    }
  }

  ghost predicate CanBreak(c: Config) {
    exists run: seq<State> :: IsFullRun(c, run) && !TreeOk(run[|run| - 1].tree)
  }

  /** Some run of the code breaks the tree, exactly because it installs the new root in a step of its own. */
  lemma BreaksIffRootSplitInTwoSteps(c: Config, ks: seq<Bytes>)
    requires PrefixFree(c.space) && |ks| >= 5 && InSpace(c, ks)
    ensures CanBreak(c) <==> !c.atomicRoot
  {
    hide PrefixFree, Next, TreeOk, LostWrite, Init, Inv, InSpace, Put;
    if c.atomicRoot {
      forall run: seq<State> | IsFullRun(c, run) ensures TreeOk(run[|run| - 1].tree) {
        AtomicRunsAreSafe(c, run);
        RunTreeOk(c, run);
      }
    } else {
      var s := LostRun(c, ks);
      var run :| IsRun(c, run) && run[|run| - 1] == s;
      RunInv(c, run);
      LostChild(c, s, 1);
      var Lost(sep, child, cur) := s.threads[1];
      var u := Record(s, 1, Put(s.tree, cur, Entry(sep, child)), Idle);
      assert LostWrite(c, s, u, 1) by { WriteThere(c, s, u, 1); }
      LostWriteBreaks(c, s, u, 1);
      var longer := run + [u];
      forall j | 0 <= j < |longer| - 1 ensures Next(c, longer[j], longer[j + 1]) || WritesLost(c, longer[j], longer[j + 1]) {
        assert j < |run| - 1 ==> Next(c, run[j], run[j + 1]);
      }
      assert IsFullRun(c, longer) && longer[|longer| - 1] == u;
    }
  }

  lemma WriteThere(c: Config, s: State, u: State, i: nat)
    requires i in s.threads && s.threads[i].Lost? && s.threads[i].cur in s.tree.nodes
    requires u == Record(s, i, Put(s.tree, s.threads[i].cur, Entry(s.threads[i].sep, s.threads[i].child)), Idle)
    ensures LostWrite(c, s, u, i)
  {
    hide Contents, InsertEntry;
  }
}
