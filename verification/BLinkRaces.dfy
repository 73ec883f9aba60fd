/** Two runs of the code's finer steps: a separator that finds no parent, and a read that returns a key twice.
    With the theorems about the coarser steps they say exactly when each can happen. */
module BLinkRaces {
  import opened ByteOrder
  import opened PageLayout
  import opened LeafScan
  import opened BLinkTree
  import opened BLinkSteps
  import opened BLinkSafety
  import opened BLinkRuns
  import opened BLinkTheorems

  lemma Extend(c: Config, s: State, u: State, i: nat)
    requires Reachable(c, s) && i in s.threads && ThreadStep(c, s, u, i)
    ensures Reachable(c, u)
  {
    hide ThreadStep, Init;
    var run :| IsRun(c, run) && run[|run| - 1] == s;
    var longer := run + [u];
    assert Next(c, s, u);
    forall j | 0 <= j < |longer| - 1 ensures Next(c, longer[j], longer[j + 1]) {
      assert j < |run| - 1 ==> Next(c, run[j], run[j + 1]);
    }
    assert IsRun(c, longer) && longer[|longer| - 1] == u;
  }

  ghost predicate RootIsLeaf(t: Tree) {
    t.root in t.nodes && t.nodes[t.root].level == 0
  }

  /** An idle thread walks to the leaf that is the root. */
  lemma WalkToRoot(c: Config, s: State, i: nat, op: Op, k: Bytes) returns (u: State, start: nat)
    requires Reachable(c, s) && RootIsLeaf(s.tree) && i in s.threads && s.threads[i].Idle?
    requires k in c.space && (op.Get? ==> IsSearchKey(k))
    ensures Reachable(c, u) && u.tree == s.tree
    ensures u.threads == s.threads[i := if op.Get? then Getting(k, s.tree.root, start, []) else AtLeaf(op, k,
      s.tree.root, [])]
  {
    hide Contents, Rank, IsSearchKey;
    var v := Record(s, i, s.tree, Descending(op, k, s.tree.root, [], |s.hist|));
    assert Start(c, s, v, i);
    Extend(c, s, v, i);
    start := |s.hist|;
    var th := if op.Get? then Getting(k, s.tree.root, start, []) else AtLeaf(op, k, s.tree.root, []);
    u := Record(v, i, v.tree, th);
    assert Down(v, u, i);
    Extend(c, v, u, i);
    assert u.threads == s.threads[i := th];
  }

  lemma AddToRoot(c: Config, s: State, i: nat, k: Bytes) returns (u: State)
    requires Reachable(c, s) && RootIsLeaf(s.tree) && i in s.threads && s.threads[i].Idle?
    requires k in c.space && s.tree.nodes[s.tree.root].high.None? && !HasKey(s.tree.nodes[s.tree.root].entries, k)
    ensures Reachable(c, u) && u.threads == s.threads && u.tree == Put(s.tree, s.tree.root, Entry(k, 0))
  {
    hide Contents, Rank, InsertEntry;
    var v, _ := WalkToRoot(c, s, i, Insert, k);
    u := Record(v, i, Put(v.tree, v.tree.root, Entry(k, 0)), Idle);
    assert LeafInsert(v, u, i);
    Extend(c, v, u, i);
    assert u.threads == s.threads;
  }

  /** The latched leaf is split; nobody knows its parent, so the thread goes to look at the root. */
  lemma SplitAlone(c: Config, s: State, i: nat, sp: nat, q: Pid) returns (u: State)
    requires Reachable(c, s) && i in s.threads && LeafReady(s, i, Insert) && s.threads[i].stack == []
    requires !c.atomicRoot || s.threads[i].cur != s.tree.root
    requires Fresh(s.tree, q) && 1 <= sp < |s.tree.nodes[s.threads[i].cur].entries|
    ensures var cur := s.threads[i].cur;
            && Reachable(c, u) && u.tree == SplitPut(s.tree, cur, sp, q, Entry(s.threads[i].key, 0))
            && u.threads == s.threads[i := RootCheck(cur, u.tree.low[q], q)]
  {
    hide Contents, Rank, SplitAt;
    var AtLeaf(_, k, cur, _) := s.threads[i];
    var t := SplitPut(s.tree, cur, sp, q, Entry(k, 0));
    u := Record(s, i, t, RootCheck(cur, t.low[q], q));
    assert AfterSplit(c, s, u, i, t, cur, t.low[q], q, []);
    assert LeafSplit(c, s, u, i);
    Extend(c, s, u, i);
  }

  lemma InsertLast(entries: seq<Entry>, e: Entry)
    requires forall x | x in entries :: Less(x.key, e.key)
    ensures InsertSeq(entries, e) == entries + [e]
  {
    assert LowerBound(entries, e.key) == |entries|;
  }

  ghost predicate InSpace(c: Config, ks: seq<Bytes>) {
    Ascending(ks) && forall k | k in ks :: k in c.space
  }

  lemma StartState() returns (c0: State)
    ensures Init(c0) && c0.threads == map[0 := Idle, 1 := Idle, 2 := Idle]
  {
    c0 := State(Tree(map[1 := EmptyLeaf()], map[1 := []], 1), map[0 := Idle, 1 := Idle, 2 := Idle], [iset{}]);
  }

  lemma InitReachable(c: Config, s: State)
    requires Init(s)
    ensures Reachable(c, s)
  {
    assert IsRun(c, [s]) && [s][0] == s;
  }

  /** Three keys in the root, which is a leaf. */
  lemma ThreeInRoot(c: Config, ks: seq<Bytes>, a: Bytes, b: Bytes, d: Bytes) returns (s: State)
    requires InSpace(c, ks) && a in ks && b in ks && d in ks && Less(a, b) && Less(b, d) && Less(a, d)
    ensures Reachable(c, s) && s.threads == map[0 := Idle, 1 := Idle, 2 := Idle]
    ensures s.tree.root == 1 && s.tree.nodes.Keys == {1} && 1 in s.tree.nodes
    ensures var n := s.tree.nodes[1];
            n.level == 0 && n.entries == [Entry(a, 0), Entry(b, 0), Entry(d, 0)] && n.high.None? && n.rlink.None?
  {
    hide Contents, Rank, CmpFull, CalcHeap, Used, Footprint, LowerBound, InsertSeq, Reachable;
    s := StartState();
    InitReachable(c, s);
    InsertLast([], Entry(a, 0));
    s := AddToRoot(c, s, 0, a);
    assert s.tree.nodes[1].entries == [Entry(a, 0)];
    InsertLast([Entry(a, 0)], Entry(b, 0));
    s := AddToRoot(c, s, 0, b);
    assert s.tree.nodes[1].entries == [Entry(a, 0), Entry(b, 0)];
    InsertLast([Entry(a, 0), Entry(b, 0)], Entry(d, 0));
    s := AddToRoot(c, s, 0, d);
    assert s.tree.nodes[1].entries == [Entry(a, 0), Entry(b, 0), Entry(d, 0)];
  }

  /** The root, still a leaf, has been split into pages 1 and 2, and thread 0 has not installed a new root yet. */
  lemma SplitRootRun(c: Config, ks: seq<Bytes>) returns (s: State)
    requires !c.atomicRoot && |ks| >= 4 && InSpace(c, ks)
    ensures Reachable(c, s) && s.tree.root == 1 && 1 in s.tree.nodes && 2 in s.tree.nodes && s.tree.nodes.Keys == {1, 2}
    ensures var n := s.tree.nodes[1];
            n.level == 0 && n.entries == [Entry(ks[0], 0), Entry(ks[1], 0)] && n.high == Some(ks[2]) && n.rlink == Some(2)
    ensures var n := s.tree.nodes[2];
            n.level == 0 && n.entries == [Entry(ks[2], 0), Entry(ks[3], 0)] && n.high.None? && n.rlink.None?
    ensures s.threads.Keys == {0, 1, 2} && s.threads[0].RootCheck? && s.threads[1] == Idle && s.threads[2] == Idle
  {
    hide Contents, Rank, CmpFull, CalcHeap, Used, Footprint, LowerBound, InsertSeq, Reachable;
    var e0, e1, e2, e3 := Entry(ks[0], 0), Entry(ks[1], 0), Entry(ks[2], 0), Entry(ks[3], 0);
    s := ThreeInRoot(c, ks, ks[0], ks[1], ks[2]);
    var start;
    s, start := WalkToRoot(c, s, 0, Insert, ks[3]);
    InsertLast([e2], e3);
    assert [e0, e1, e2][2..] == [e2] && [e0, e1, e2][..2] == [e0, e1];
    s := SplitAlone(c, s, 0, 2, 2);
  }

  /** Thread 1 splits the page thread 0 has just split off, finds that it is not the root, and re-descends
      into a root that is a leaf itself: its separator has nowhere to go. */
  lemma LostRun(c: Config, ks: seq<Bytes>) returns (s: State)
    requires !c.atomicRoot && |ks| >= 5 && InSpace(c, ks)
    ensures Reachable(c, s) && 1 in s.threads && s.threads[1].Lost?
  {
    hide Contents, Rank, CalcHeap, Used, Footprint, SplitAt, Reachable, Init;
    s := SplitRootRun(c, ks);
    var start;
    s, start := WalkToRoot(c, s, 1, Insert, ks[4]);
    assert HasSplit(s.tree.nodes[1], ks[4]);
    var u := Record(s, 1, s.tree, AtLeaf(Insert, ks[4], 2, []));
    assert LeafRight(s, u, 1);
    Extend(c, s, u, 1);
    assert u.threads[1] == AtLeaf(Insert, ks[4], 2, []);
    assert LeafReady(u, 1, Insert);
    s := SplitAlone(c, u, 1, 1, 3);
    SplitLevels(u.tree.nodes[2], 1, 3, Entry(ks[4], 0));
    u := Record(s, 1, s.tree, Restart(0, s.threads[1].sep, s.threads[1].child));
    assert CheckRoot(s, u, 1);
    Extend(c, s, u, 1);
    s := Record(u, 1, u.tree, Lost(u.threads[1].sep, u.threads[1].child, u.tree.root));
    assert Redescend(u, s, 1);
    Extend(c, u, s, 1);
  }

  ghost predicate CanLose(c: Config) {
    exists s: State, i :: Reachable(c, s) && i in s.threads && s.threads[i].Lost?
  }

  /** A separator can be left without a parent exactly when the new root is installed in a step of its own. */
  lemma LosesIffRootSplitInTwoSteps(c: Config, ks: seq<Bytes>)
    requires PrefixFree(c.space) && |ks| >= 5 && InSpace(c, ks)
    ensures CanLose(c) <==> !c.atomicRoot
  {
    hide PrefixFree, Next, NobodyLost;
    if c.atomicRoot {
      forall s: State, i | Reachable(c, s) && i in s.threads ensures !s.threads[i].Lost? {
        var run :| IsRun(c, run) && run[|run| - 1] == s;
        AtomicRootNeverLost(c, run);
        OneHome(s, i);
      }
    } else {
      var s := LostRun(c, ks);
    }
  }

  /** The root, a leaf, is split, in one step with the new root or without it. */
  lemma SplitRootEitherWay(c: Config, s: State, i: nat, sp: nat, q: Pid, r: Pid) returns (u: State)
    requires Reachable(c, s) && i in s.threads && LeafReady(s, i, Insert) && s.threads[i].stack == []
    requires RootIsLeaf(s.tree) && s.threads[i].cur == s.tree.root
    requires Fresh(s.tree, q) && Fresh(s.tree, r) && r != q && 1 <= sp < |s.tree.nodes[s.tree.root].entries|
    ensures var root := s.tree.root;
            var h := SplitAt(s.tree.nodes[root], sp, q, Entry(s.threads[i].key, 0));
            && Reachable(c, u) && u.tree.nodes.Keys <= {root, q, r} + s.tree.nodes.Keys
            && root in u.tree.nodes && q in u.tree.nodes && u.tree.nodes[root] == h.left && u.tree.nodes[q] == h.right
            && (c.atomicRoot ==> u.tree.root == r)
    ensures u.threads.Keys == s.threads.Keys && forall j | j in s.threads && j != i :: u.threads[j] == s.threads[j]
  {
    hide Contents, Rank, SplitAt, CalcHeap;
    if c.atomicRoot {
      var AtLeaf(_, k, cur, _) := s.threads[i];
      var t := SplitPut(s.tree, cur, sp, q, Entry(k, 0));
      u := Record(s, i, NewRoot(t, r, t.low[q], q), Idle);
      assert AfterSplit(c, s, u, i, t, cur, t.low[q], q, []);
      assert LeafSplit(c, s, u, i);
      Extend(c, s, u, i);
    } else {
      u := SplitAlone(c, s, i, sp, q);
    }
  }

  /** A reader (1) and a writer (2) stand at the root leaf, which then splits into pages 1 = [k0, k1] and
      2 = [k3, k4] with the fence k3 between them. */
  lemma TwoAtFirstPage(c: Config, q: Bytes, ks: seq<Bytes>) returns (s: State, start: nat)
    requires q in c.space && IsSearchKey(q) && |ks| >= 5 && InSpace(c, ks)
    ensures Reachable(c, s) && s.threads.Keys == {0, 1, 2}
    ensures s.threads[1] == Getting(q, 1, start, []) && s.threads[2] == AtLeaf(Insert, ks[2], 1, [])
    ensures s.tree.nodes.Keys <= {1, 2, 4} && 1 in s.tree.nodes && 2 in s.tree.nodes
    ensures var n := s.tree.nodes[1];
            n.level == 0 && n.entries == [Entry(ks[0], 0), Entry(ks[1], 0)] && n.high == Some(ks[3]) && n.rlink == Some(2)
    ensures var n := s.tree.nodes[2]; n.level == 0 && n.high.None?
    ensures c.atomicRoot ==> s.tree.root != 1
  {
    hide Contents, Rank, CmpFull, CalcHeap, Used, Footprint, LowerBound, InsertSeq, Reachable, IsSearchKey;
    var e0, e1, e3, e4 := Entry(ks[0], 0), Entry(ks[1], 0), Entry(ks[3], 0), Entry(ks[4], 0);
    s := ThreeInRoot(c, ks, ks[0], ks[1], ks[3]);
    var other;
    s, start := WalkToRoot(c, s, 1, Get, q);
    s, other := WalkToRoot(c, s, 2, Insert, ks[2]);
    s, other := WalkToRoot(c, s, 0, Insert, ks[4]);
    InsertLast([e3], e4);
    assert [e0, e1, e3][2..] == [e3] && [e0, e1, e3][..2] == [e0, e1];
    s := SplitRootEitherWay(c, s, 0, 2, 2, 4);
  }

  /** While a reader stands between two pages the first one is split again: the reader takes the new right
      link and reads the moved entries a second time. */
  lemma TwiceRun(c: Config, q: Bytes, ks: seq<Bytes>) returns (s: State)
    requires !c.snapshotLink && PrefixFree(c.space) && q in c.space && IsSearchKey(q)
    requires |ks| >= 5 && InSpace(c, ks) && forall k | k in ks :: SamePrefix(q, k)
    ensures Reachable(c, s) && 1 in s.threads && s.threads[1].Got? && !Ascending(s.threads[1].found)
  {
    hide Contents, Rank, CalcHeap, Used, Footprint, SplitAt, Reachable, Init, SamePrefix, PageMatches, CmpPrefix,
      MemCmp, IsSearchKey;
    var start, found;
    s, start, found := SplitUnderReader(c, q, ks);
    SpaceFacts(c, q, ks);
    assert ks[1] in ks && ks[3] in ks;
    // the reader follows the new link
    var u := Record(s, 1, s.tree, Getting(q, 3, start, found));
    assert FollowLink(c, s, u, 1);
    Extend(c, s, u, 1);
    var n3 := u.tree.nodes[3];
    PageGives(c, n3, q, ks[1]);
    s := ReadAndStop(c, u, 1, q, ks[3]);
    var more := s.threads[1].found;
    u := Record(s, 1, s.tree, Getting(q, 2, start, more));
    assert FollowLink(c, s, u, 1);
    Extend(c, s, u, 1);
    var n2 := u.tree.nodes[2];
    s := Record(u, 1, u.tree, Got(q, start, |u.hist|, more + PageMatches(n2, q)));
    assert ReadLeaf(u, s, 1);
    Extend(c, u, s, 1);
    TwiceNotAscending(found, PageMatches(n3, q), PageMatches(n2, q), ks[1]);
  }

  /** The reader has read page 1 and stands before its link; the writer has split page 1 again, with k1 now
      in page 3. */
  lemma SplitUnderReader(c: Config, q: Bytes, ks: seq<Bytes>) returns (s: State, start: nat, found: seq<Bytes>)
    requires !c.snapshotLink && PrefixFree(c.space) && q in c.space && IsSearchKey(q)
    requires |ks| >= 5 && InSpace(c, ks) && forall k | k in ks :: SamePrefix(q, k)
    ensures Reachable(c, s) && 1 in s.threads && ks[1] in found && {1, 2, 3} <= s.tree.nodes.Keys
    ensures s.threads[1].Linking? && s.threads[1].key == q && s.threads[1].cur == 1 && s.threads[1].start == start
      && s.threads[1].found == found
    ensures s.tree.nodes[1].rlink == Some(3)
    ensures var n := s.tree.nodes[3];
      && n.level == 0 && n.entries == [Entry(ks[1], 0), Entry(ks[2], 0)] && n.high == Some(ks[3])
      && n.rlink == Some(2) && KeysIn(n, c.space)
    ensures var n := s.tree.nodes[2]; n.level == 0 && n.high.None?
  {
    hide Contents, Rank, CalcHeap, Used, Footprint, SplitAt, Reachable, Init, SamePrefix, PageMatches, CmpPrefix,
      MemCmp, IsSearchKey;
    s, start := TwoAtFirstPage(c, q, ks);
    SpaceFacts(c, q, ks);
    assert ks[0] in ks && ks[1] in ks && ks[3] in ks && Less(ks[0], ks[3]);
    var n1 := s.tree.nodes[1];
    var u := ReadAndStop(c, s, 1, q, ks[3]);
    found := u.threads[1].found;
    PageGives(c, n1, q, ks[1]);
    // the writer splits page 1 again
    assert LeafReady(u, 2, Insert);
    s := SplitAlone(c, u, 2, 1, 3);
    SplitInTwo(n1, 3, Entry(ks[2], 0));
    assert KeysIn(s.tree.nodes[3], c.space);
  }

  lemma SpaceFacts(c: Config, q: Bytes, ks: seq<Bytes>)
    requires PrefixFree(c.space) && q in c.space && InSpace(c, ks) && IsSearchKey(q)
    requires forall k | k in ks :: SamePrefix(q, k)
    ensures forall k | k in ks :: Leq(q, k) && CmpPrefix(k, q) == 0
  {
    hide Rank, MemCmp, CmpPrefix;
    forall k | k in ks ensures Leq(q, k) && CmpPrefix(k, q) == 0 {
      SearchKeyIsFirst(q, k);
      assert Comparable(k, q);
      PrefixOrderRefined(k, q);
    }
  }

  lemma SplitInTwo(n: Node, q: Pid, e: Entry)
    requires |n.entries| == 2 && Less(n.entries[1].key, e.key)
    ensures var s := SplitAt(n, 1, q, e);
            && s.left.level == s.right.level == n.level && s.left.rlink == Some(q)
            && s.right.entries == [n.entries[1], e] && s.right.high == n.high && s.right.rlink == n.rlink
            && s.left.high == Some(n.entries[1].key)
  {
    hide Rank, CalcHeap, Used, Footprint, LowerBound;
    assert n.entries[1..] == [n.entries[1]];
    InsertLast([n.entries[1]], e);
  }

  lemma PageGives(c: Config, n: Node, q: Bytes, k: Bytes)
    requires PrefixFree(c.space) && q in c.space && IsSearchKey(q) && SamePrefix(q, k)
    requires KeysIn(n, c.space) && Sorted(n.entries) && HasKey(n.entries, k)
    ensures k in PageMatches(n, q)
  {
    PageMatchesExact(n, q, c.space);
  }

  /** A reader reads a page whose fence has the columns it looks for. */
  lemma ReadAndStop(c: Config, s: State, i: nat, q: Bytes, fence: Bytes) returns (u: State)
    requires Reachable(c, s) && i in s.threads && s.threads[i].Getting? && s.threads[i].key == q
    requires var cur := s.threads[i].cur;
             && cur in s.tree.nodes && s.tree.nodes[cur].high == Some(fence)
             && Less(q, fence) && CmpPrefix(fence, q) == 0
    ensures Reachable(c, u) && u.tree == s.tree
    ensures var Getting(_, cur, start, found) := s.threads[i];
            var n := s.tree.nodes[cur];
            u.threads == s.threads[i := Linking(q, cur, start, found + PageMatches(n, q), fence, n.rlink)]
  {
    hide Rank, Contents, PageMatches, CmpPrefix;
    var Getting(_, cur, start, found) := s.threads[i];
    var n := s.tree.nodes[cur];
    u := Record(s, i, s.tree, Linking(q, cur, start, found + PageMatches(n, q), fence, n.rlink));
    assert ReadLeaf(s, u, i);
    Extend(c, s, u, i);
  }

  lemma TwiceNotAscending(a: seq<Bytes>, b: seq<Bytes>, d: seq<Bytes>, k: Bytes)
    requires k in a && k in b
    ensures !Ascending(a + b + d)
  {
    var r := a + b + d;
    var i :| 0 <= i < |a| && a[i] == k;
    var j :| 0 <= j < |b| && b[j] == k;
    assert r[i] == k && r[|a| + j] == k;
  }

  ghost predicate CanRepeat(c: Config) {
    exists s: State, i :: Reachable(c, s) && i in s.threads && s.threads[i].Got? && !Ascending(s.threads[i].found)
  }

  /** A read can return a key twice exactly when the right link is read again after the page was validated. */
  lemma RepeatsIffLinkReadAgain(c: Config, q: Bytes, ks: seq<Bytes>)
    requires PrefixFree(c.space) && q in c.space && IsSearchKey(q)
    requires |ks| >= 5 && InSpace(c, ks) && forall k | k in ks :: SamePrefix(q, k)
    ensures CanRepeat(c) <==> !c.snapshotLink
  {
    hide PrefixFree, Next, SamePrefix, Ascending;
    if c.snapshotLink {
      forall s: State, i | Reachable(c, s) && i in s.threads && s.threads[i].Got? ensures Ascending(s.threads[i].found) {
        var run :| IsRun(c, run) && run[|run| - 1] == s;
        SnapshotLinkInOrder(c, run);
        assert InOrder(s.tree, s.threads[i]);
      }
    } else {
      var s := TwiceRun(c, q, ks);
    }
  }
}
