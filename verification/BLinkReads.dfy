/** When a read repeats a key: exactly when its reader goes behind what it has found. */
module BLinkReads {
  import opened ByteOrder
  import opened PageLayout
  import opened LeafScan
  import opened BLinkTree
  import opened BLinkSteps
  import opened BLinkSafety
  import opened BLinkRuns
  import opened BLinkTheorems

  /** A stretch of a run. */
  ghost predicate IsSegment(c: Config, run: seq<State>) {
    run != [] && forall j | 0 <= j < |run| - 1 :: Next(c, run[j], run[j + 1])
  }

  lemma {:induction false} SegmentInv(c: Config, run: seq<State>, n: nat)
    requires PrefixFree(c.space) && IsSegment(c, run) && Inv(c, run[0]) && n < |run|
    ensures Inv(c, run[n])
    decreases n
  {
    hide Inv, Next, PrefixFree;
    if n > 0 {
      SegmentInv(c, run, n - 1);
      assert Next(c, run[n - 1], run[n - 1 + 1]);
      NextKeeps(c, run[n - 1], run[n]);
    }
  }

  // ---- never behind: in order ----

  /** In every configuration, a read whose reader never goes behind what it has found is strictly ascending. */
  lemma {:induction false} NeverBehindInOrder(c: Config, run: seq<State>, i: nat, n: nat)
    requires PrefixFree(c.space) && IsSegment(c, run) && Inv(c, run[0]) && n < |run|
    requires i in run[0].threads && InOrder(run[0].tree, run[0].threads[i])
    requires forall j | 0 <= j < n :: !GoesBehind(run[j], run[j + 1], i)
    ensures i in run[n].threads && InOrder(run[n].tree, run[n].threads[i])
    decreases n
  {
    hide Inv, Next, PrefixFree, GoesBehind, InOrder;
    if n > 0 {
      NeverBehindInOrder(c, run, i, n - 1);
      SegmentInv(c, run, n - 1);
      assert Next(c, run[n - 1], run[n - 1 + 1]) && !GoesBehind(run[n - 1], run[n - 1 + 1], i);
      OrderStep(c, run[n - 1], run[n], i);
    }
  }

  // ---- behind a key that stays: the key comes again ----

  predicate Reads(th: Thread) {
    th.Getting? || th.Linking? || th.Got?
  }

  /** The reader found what is in the list before; x came again since, or the reader is not beyond it. */
  ghost predicate Coming(t: Tree, th: Thread, list: seq<Bytes>, x: Bytes) {
    && Reads(th) && list <= th.found && SamePrefix(th.key, x)
    && (x in th.found[|list|..]
        || (th.Getting? && th.cur in t.low && Leq(t.low[th.cur], x))
        || (th.Linking? && Leq(th.bound, x)))
  }

  lemma ComingStep(c: Config, s: State, u: State, i: nat, list: seq<Bytes>, x: Bytes)
    requires Inv(c, s) && PrefixFree(c.space) && Next(c, s, u) && x in Contents(s.tree)
    requires i in s.threads && Coming(s.tree, s.threads[i], list, x)
    ensures i in u.threads && Coming(u.tree, u.threads[i], list, x)
  {
    hide Rank, Inv, Contents, TreeOk, LeavesIn, PrefixFree, ThreadStep, AllBelow, OnlyStored, SamePrefix;
    var m :| m in s.threads && ThreadStep(c, s, u, m);
    InvReader(c, s, i);
    StepGrows(c, s, u, m);
    if m == i {
      OwnComing(c, s, u, i, list, x);
    }
  }

  lemma OwnComing(c: Config, s: State, u: State, i: nat, list: seq<Bytes>, x: Bytes)
    requires PrefixFree(c.space) && i in s.threads && ThreadStep(c, s, u, i) && Coming(s.tree, s.threads[i], list, x)
    requires TreeOk(s.tree) && ThreadOk(c, s.tree, s.hist, s.threads[i]) && LeavesIn(s.tree, c.space)
    requires s.tree.nodes.Keys == s.tree.low.Keys && x in Contents(s.tree) && Contents(s.tree) <= c.space
    ensures i in u.threads && Coming(u.tree, u.threads[i], list, x)
  {
    hide Rank, Contents, PageMatches, UpperBound, TreeOk, LeavesIn, PrefixFree, SplitPut, Put, Remove, NewRoot,
      HasSplit, AllBelow, OnlyStored, CmpPrefix, SamePrefix, HighPrefixCmp;
    if s.threads[i].Getting? {
      var Getting(q, cur, start, found) := s.threads[i];
      if HasSplit(s.tree.nodes[cur], q) {
        RightStep(s.tree, cur, q);
        SearchKeyIsFirst(q, x);
      } else {
        if Leq(s.tree.low[cur], x) {
          PageHasComing(c, s.tree, cur, q, x);
        }
        assert (found + PageMatches(s.tree.nodes[cur], q))[|list|..]
            == found[|list|..] + PageMatches(s.tree.nodes[cur], q);
      }
    } else if s.threads[i].Linking? {
      NodeFacts(s.tree, s.threads[i].cur);
    }
  }

  /** A stored key that is not left of the page is on it, or behind its fence, and then the scan goes on. */
  lemma PageHasComing(c: Config, t: Tree, cur: Pid, q: Bytes, x: Bytes)
    requires TreeOk(t) && LeavesIn(t, c.space) && PrefixFree(c.space) && q in c.space && IsSearchKey(q) && x in c.space
    requires cur in t.nodes && cur in t.low && t.nodes[cur].level == 0 && !HasSplit(t.nodes[cur], q)
    requires x in Contents(t) && SamePrefix(q, x) && Leq(t.low[cur], x)
    ensures x in PageMatches(t.nodes[cur], q)
            || (HighPrefixCmp(t.nodes[cur], q) && Leq(t.nodes[cur].high.value, x))
  {
    hide Rank, TreeOk, PageMatches, SamePrefix, HasSplit, HighPrefixCmp, Contents;
    var n := t.nodes[cur];
    NodeFacts(t, cur);
    assert KeysIn(n, c.space);
    if n.high.Some? && Leq(n.high.value, x) {
      FenceExact(n, q, c.space);
    } else {
      StoredInCover(t, cur, x);
      PageMatchesExact(n, q, c.space);
    }
  }

  lemma {:induction false} ComingRun(c: Config, run: seq<State>, i: nat, list: seq<Bytes>, x: Bytes, from: nat, n: nat)
    requires PrefixFree(c.space) && IsSegment(c, run) && Inv(c, run[0]) && from <= n < |run|
    requires forall j | from <= j <= n :: x in Contents(run[j].tree)
    requires i in run[from].threads && Coming(run[from].tree, run[from].threads[i], list, x)
    ensures i in run[n].threads && Coming(run[n].tree, run[n].threads[i], list, x)
    decreases n
  {
    hide Inv, Next, PrefixFree, Coming, Contents;
    if n > from {
      ComingRun(c, run, i, list, x, from, n - 1);
      SegmentInv(c, run, n - 1);
      assert Next(c, run[n - 1], run[n - 1 + 1]);
      ComingStep(c, run[n - 1], run[n], i, list, x);
    }
  }

  ghost predicate Twice(ks: seq<Bytes>) {
    exists a, b :: 0 <= a < b < |ks| && ks[a] == ks[b]
  }

  /** If the reader goes behind a key it has found, and the key stays stored, the key is returned twice. */
  lemma BehindComesTwice(c: Config, run: seq<State>, i: nat, j: nat, x: Bytes)
    requires PrefixFree(c.space) && IsSegment(c, run) && Inv(c, run[0]) && j + 1 < |run|
    requires GoesBehind(run[j], run[j + 1], i) && x in run[j].threads[i].found
    requires !Less(x, run[j].tree.low[run[j + 1].threads[i].cur])
    requires forall m | j < m < |run| :: x in Contents(run[m].tree)
    requires i in run[|run| - 1].threads && run[|run| - 1].threads[i].Got?
    ensures Twice(run[|run| - 1].threads[i].found)
  {
    hide Inv, Next, PrefixFree, Contents, ThreadStep, IsSegment;
    var s, u := run[j], run[j + 1];
    var list := s.threads[i].found;
    BehindStarts(c, run, i, j, x);
    ComingRun(c, run, i, list, x, j + 1, |run| - 1);
    var all := run[|run| - 1].threads[i].found;
    var a :| 0 <= a < |list| && list[a] == x;
    var b :| 0 <= b < |all[|list|..]| && all[|list|..][b] == x;
    assert all[a] == x && all[|list| + b] == x;
  }

  lemma BehindStarts(c: Config, run: seq<State>, i: nat, j: nat, x: Bytes)
    requires PrefixFree(c.space) && IsSegment(c, run) && Inv(c, run[0]) && j + 1 < |run|
    requires GoesBehind(run[j], run[j + 1], i) && x in run[j].threads[i].found
    requires !Less(x, run[j].tree.low[run[j + 1].threads[i].cur])
    ensures Coming(run[j + 1].tree, run[j + 1].threads[i], run[j].threads[i].found, x)
  {
    hide Rank, Inv, Next, PrefixFree, Contents, ThreadStep, TreeOk, LeavesIn, AllBelow;
    var s, u := run[j], run[j + 1];
    SegmentInv(c, run, j);
    assert Next(c, run[j], run[j + 1]);
    NextMover(c, s, u, i);
    StepGrows(c, s, u, i);
    InvReader(c, s, i);
    Followed(c, s, u, i);
  }

  /** The thread whose state changed made the step. */
  lemma NextMover(c: Config, s: State, u: State, i: nat)
    requires Inv(c, s) && Next(c, s, u) && i in s.threads && i in u.threads && u.threads[i] != s.threads[i]
    ensures ThreadStep(c, s, u, i)
  {
    hide Inv, ThreadStep;
    var m :| m in s.threads && ThreadStep(c, s, u, m);
    StepGrows(c, s, u, m);
  }

  lemma Followed(c: Config, s: State, u: State, i: nat)
    requires i in s.threads && i in u.threads && ThreadStep(c, s, u, i) && s.threads[i].Linking? && u.threads[i].Getting?
    ensures u.threads[i].found == s.threads[i].found && u.threads[i].key == s.threads[i].key
  {
    hide Rank, Contents, PageMatches, UpperBound, SplitPut, Put, Remove, NewRoot, HasSplit;
  }

  // ---- exactly ----

  /** What the reader has found is stored now. */
  ghost predicate FoundStored(s: State, i: nat) {
    i in s.threads && Reads(s.threads[i]) && forall x | x in s.threads[i].found :: x in Contents(s.tree)
  }

  lemma FoundStoredStep(c: Config, s: State, u: State, i: nat)
    requires Inv(c, s) && PrefixFree(c.space) && Next(c, s, u) && FoundStored(s, i) && Contents(s.tree) <= Contents(u.tree)
    ensures FoundStored(u, i)
  {
    hide Rank, Inv, Contents, TreeOk, LeavesIn, PrefixFree, ThreadStep, AllBelow, OnlyStored, SamePrefix;
    var m :| m in s.threads && ThreadStep(c, s, u, m);
    InvReader(c, s, i);
    StepGrows(c, s, u, m);
    if m == i {
      OwnFound(c, s, u, i);
    }
  }

  lemma OwnFound(c: Config, s: State, u: State, i: nat)
    requires PrefixFree(c.space) && i in s.threads && ThreadStep(c, s, u, i) && Reads(s.threads[i])
    requires TreeOk(s.tree) && ThreadOk(c, s.tree, s.hist, s.threads[i]) && LeavesIn(s.tree, c.space)
    ensures i in u.threads && Reads(u.threads[i])
    ensures forall x | x in u.threads[i].found :: x in s.threads[i].found || x in Contents(s.tree)
  {
    hide Rank, Contents, PageMatches, UpperBound, TreeOk, LeavesIn, PrefixFree, SplitPut, Put, Remove, NewRoot,
      HasSplit, AllBelow, OnlyStored, CmpPrefix, SamePrefix, HighPrefixCmp;
    if s.threads[i].Getting? {
      var Getting(q, cur, start, found) := s.threads[i];
      MatchesStored(c, s.tree, cur, q);
    }
  }

  lemma MatchesStored(c: Config, t: Tree, cur: Pid, q: Bytes)
    requires TreeOk(t) && LeavesIn(t, c.space) && PrefixFree(c.space) && q in c.space && IsSearchKey(q)
    requires cur in t.nodes && t.nodes[cur].level == 0
    ensures forall x | x in PageMatches(t.nodes[cur], q) :: x in Contents(t)
  {
    hide TreeOk, PageMatches, SamePrefix, PrefixFree;
    NodeFacts(t, cur);
    assert KeysIn(t.nodes[cur], c.space);
    PageMatchesExact(t.nodes[cur], q, c.space);
    forall x | x in PageMatches(t.nodes[cur], q) ensures x in Contents(t) {
      var e :| e in t.nodes[cur].entries && e.key == x;
      assert Has(t, x);
    }
  }

  ghost predicate OnlyGrows(run: seq<State>) {
    forall j | 0 <= j < |run| - 1 :: Contents(run[j].tree) <= Contents(run[j + 1].tree)
  }

  lemma {:induction false} FoundStoredRun(c: Config, run: seq<State>, i: nat, n: nat)
    requires PrefixFree(c.space) && IsSegment(c, run) && Inv(c, run[0]) && OnlyGrows(run) && n < |run|
    requires FoundStored(run[0], i)
    ensures FoundStored(run[n], i)
    decreases n
  {
    hide Inv, Next, PrefixFree, FoundStored, Contents;
    if n > 0 {
      FoundStoredRun(c, run, i, n - 1);
      SegmentInv(c, run, n - 1);
      assert Next(c, run[n - 1], run[n - 1 + 1]) && Contents(run[n - 1].tree) <= Contents(run[n - 1 + 1].tree);
      FoundStoredStep(c, run[n - 1], run[n], i);
    }
  }

  lemma {:induction false} StaysStored(run: seq<State>, x: Bytes, j: nat, n: nat)
    requires OnlyGrows(run) && j <= n < |run| && x in Contents(run[j].tree)
    ensures x in Contents(run[n].tree)
    decreases n
  {
    hide Contents;
    if n > j {
      StaysStored(run, x, j, n - 1);
      assert Contents(run[n - 1].tree) <= Contents(run[n - 1 + 1].tree);
    }
  }

  /** In every configuration, over a stretch in which nothing is deleted, a finished read returns some key twice
      exactly when its reader once followed a link to a page not above all it had found; else it is ascending. */
  lemma RepeatsIffBehind(c: Config, run: seq<State>, i: nat)
    requires PrefixFree(c.space) && IsSegment(c, run) && Inv(c, run[0]) && OnlyGrows(run)
    requires i in run[0].threads && run[0].threads[i].Getting? && run[0].threads[i].found == []
    requires i in run[|run| - 1].threads && run[|run| - 1].threads[i].Got?
    ensures var found := run[|run| - 1].threads[i].found;
            && (Twice(found) <==> exists j :: 0 <= j < |run| - 1 && GoesBehind(run[j], run[j + 1], i))
            && (Twice(found) <==> !Ascending(found))
  {
    hide Inv, Next, PrefixFree, Contents, GoesBehind, InOrder, OnlyGrows;
    var found := run[|run| - 1].threads[i].found;
    TwiceNotInOrder(found);
    if j :| 0 <= j < |run| - 1 && GoesBehind(run[j], run[j + 1], i) {
      var x := WhichBehind(run[j], run[j + 1], i);
      FoundStoredRun(c, run, i, j);
      forall m | j < m < |run| ensures x in Contents(run[m].tree) {
        StaysStored(run, x, j, m);
      }
      BehindComesTwice(c, run, i, j, x);
    } else {
      FreshReaderInOrder(c, run[0], i);
      NeverBehindInOrder(c, run, i, |run| - 1);
      assert InOrder(run[|run| - 1].tree, run[|run| - 1].threads[i]);
      GotInOrder(run[|run| - 1].tree, run[|run| - 1].threads[i]);
    }
  }

  lemma TwiceNotInOrder(ks: seq<Bytes>)
    ensures Twice(ks) ==> !Ascending(ks)
  {
    if Twice(ks) {
      var a, b :| 0 <= a < b < |ks| && ks[a] == ks[b];
      assert !Less(ks[a], ks[b]);
    }
  }

  lemma WhichBehind(s: State, u: State, i: nat) returns (x: Bytes)
    requires GoesBehind(s, u, i)
    ensures i in s.threads && s.threads[i].Linking? && x in s.threads[i].found
    ensures i in u.threads && u.threads[i].Getting? && u.threads[i].cur in s.tree.low
    ensures !Less(x, s.tree.low[u.threads[i].cur])
  {
    var m :| 0 <= m < |s.threads[i].found| && !Less(s.threads[i].found[m], s.tree.low[u.threads[i].cur]);
    x := s.threads[i].found[m];
  }

  lemma FreshReaderInOrder(c: Config, s: State, i: nat)
    requires Inv(c, s) && i in s.threads && s.threads[i].Getting? && s.threads[i].found == []
    ensures InOrder(s.tree, s.threads[i]) && FoundStored(s, i)
  {
    assert ThreadOk(c, s.tree, s.hist, s.threads[i]);
  }

  lemma GotInOrder(t: Tree, th: Thread)
    requires InOrder(t, th) && th.Got?
    ensures Ascending(th.found)
  {
  }
}
