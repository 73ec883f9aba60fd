/** Every step of every thread keeps the invariant; what follows for whole runs. */
module BLinkRuns {
  import opened ByteOrder
  import opened PageLayout
  import opened LeafScan
  import opened BLinkTree
  import opened BLinkSteps
  import opened BLinkSafety

  // ---- the page operations as tree steps ----

  function Gain(t: Tree, p: Pid, e: Entry): set<Pid>
    requires p in t.nodes
  {
    if t.nodes[p].level == 0 then {} else {e.child}
  }

  lemma PutStep(t: Tree, p: Pid, e: Entry, space: iset<Bytes>)
    requires TreeOk(t) && p in t.nodes && Admissible(t, p, e)
    requires LeavesIn(t, space) && (t.nodes[p].level == 0 ==> e.key in space)
    ensures TreeStep(t, Put(t, p, e), Gain(t, p, e)) && LeavesIn(Put(t, p, e), space)
  {
    hide Rank, TreeOk, InsertSeq, CmpFull, CalcHeap, LeavesIn, Admissible;
    TreeKeys(t);
    PutKeepsTree(t, p, e);
    InsertSeqMembers(t.nodes[p].entries, e);
    PutLeavesIn(t, p, e, space);
    var u := Put(t, p, e);
    forall x ensures Referenced(u, x) <==> Referenced(t, x) || x in Gain(t, p, e) {
      if Referenced(t, x) {
        var y, f :| y in t.nodes && t.nodes[y].level > 0 && f in t.nodes[y].entries && f.child == x;
        assert y in u.nodes && u.nodes[y].level > 0 && f in u.nodes[y].entries;
      }
      if x in Gain(t, p, e) {
        assert p in u.nodes && u.nodes[p].level > 0 && e in u.nodes[p].entries;
      }
    }
  }

  lemma PutLeavesIn(t: Tree, p: Pid, e: Entry, space: iset<Bytes>)
    requires p in t.nodes && LeavesIn(t, space) && (t.nodes[p].level == 0 ==> e.key in space)
    ensures LeavesIn(Put(t, p, e), space)
  {
    hide InsertSeq;
    InsertSeqMembers(t.nodes[p].entries, e);
    var u := Put(t, p, e);
    forall x | x in u.nodes && u.nodes[x].level == 0 ensures KeysIn(u.nodes[x], space) {
      assert KeysIn(t.nodes[x], space);
    }
  }

  lemma SplitReferenced(t: Tree, u: Tree, p: Pid, q: Pid, left: Node, right: Node, e: Entry, x: Pid)
    requires p in t.nodes && Fresh(t, q) && u.nodes == t.nodes[p := left][q := right]
    requires left.level == right.level == t.nodes[p].level
    requires forall f :: f in left.entries || f in right.entries <==> f == e || f in t.nodes[p].entries
    ensures Referenced(u, x) <==> Referenced(t, x) || (left.level > 0 && x == e.child)
  {
    if Referenced(t, x) {
      var y, f :| y in t.nodes && t.nodes[y].level > 0 && f in t.nodes[y].entries && f.child == x;
      var z := if y == p && f !in left.entries then q else y;
      assert z in u.nodes && u.nodes[z].level > 0 && f in u.nodes[z].entries;
    }
    if left.level > 0 && x == e.child {
      var z := if e in right.entries then q else p;
      assert z in u.nodes && u.nodes[z].level > 0 && e in u.nodes[z].entries;
    }
    if Referenced(u, x) {
      var y, f :| y in u.nodes && u.nodes[y].level > 0 && f in u.nodes[y].entries && f.child == x;
      var z := if y == q then p else y;
      assert (f == e && left.level > 0) || (z in t.nodes && t.nodes[z].level > 0 && f in t.nodes[z].entries);
    }
  }

  lemma SplitStep(t: Tree, p: Pid, sp: nat, q: Pid, e: Entry, space: iset<Bytes>)
    requires TreeOk(t) && p in t.nodes && Admissible(t, p, e) && Fresh(t, q)
    requires 1 <= sp < |t.nodes[p].entries|
    requires LeavesIn(t, space) && (t.nodes[p].level == 0 ==> e.key in space)
    ensures var u := SplitPut(t, p, sp, q, e);
            && TreeStep(t, u, Gain(t, p, e)) && LeavesIn(u, space)
            && u.root == t.root && u.nodes.Keys == t.nodes.Keys + {q}
            && u.nodes[p].level == t.nodes[p].level
            && ChildAt(u, t.nodes[p].level, u.low[q], q) && Less(t.low[p], u.low[q])
  {
    hide SplitAt, Sorted, NodeOk, Referenced, RangeOk, InsertSeq;
    var u := SplitPut(t, p, sp, q, e);
    var s := SplitAt(t.nodes[p], sp, q, e);
    NodeFacts(t, p);
    SplitPutKeepsTree(t, p, sp, q, e);
    AdmissibleSplitMembers(t, p, sp, q, e);
    AdmissibleIsNew(t, p, e);
    SplitKeepsEntries(t.nodes[p], t.low[p], sp, q, e);
    forall x ensures Referenced(u, x) <==> Referenced(t, x) || x in Gain(t, p, e) {
      SplitReferenced(t, u, p, q, s.left, s.right, e, x);
    }
    SplitLeavesIn(t, p, sp, q, e, space);
  }

  lemma SplitLeavesIn(t: Tree, p: Pid, sp: nat, q: Pid, e: Entry, space: iset<Bytes>)
    requires p in t.nodes && 1 <= sp < |t.nodes[p].entries|
    requires LeavesIn(t, space) && (t.nodes[p].level == 0 ==> e.key in space)
    requires var s := SplitAt(t.nodes[p], sp, q, e);
             && s.left.level == s.right.level == t.nodes[p].level
             && s.left.high == Some(s.sentinel) && s.right.high == t.nodes[p].high
             && forall x :: x in s.left.entries || x in s.right.entries <==> x == e || x in t.nodes[p].entries
    ensures LeavesIn(SplitPut(t, p, sp, q, e), space)
  {
    hide SplitAt;
    var n := t.nodes[p];
    SplitSentinel(n, sp, q, e);
    var u := SplitPut(t, p, sp, q, e);
    forall x | x in u.nodes && u.nodes[x].level == 0 ensures KeysIn(u.nodes[x], space) {
      if x == p || x == q {
        assert KeysIn(n, space);
      } else {
        assert KeysIn(t.nodes[x], space);
      }
    }
  }

  lemma NewRootStep(t: Tree, r: Pid, sep: Bytes, child: Pid, space: iset<Bytes>)
    requires TreeOk(t) && Fresh(t, r) && child != t.root && LeavesIn(t, space)
    requires t.root in t.nodes && ChildAt(t, t.nodes[t.root].level, sep, child)
    ensures var u := NewRoot(t, r, sep, child);
            TreeStep(t, u, {t.root, child}) && LeavesIn(u, space) && u.root == r && u.nodes.Keys == t.nodes.Keys + {r}
  {
    hide TreeOk, Rank, CalcHeap;
    NewRootKeepsTree(t, r, sep, child);
    var u := NewRoot(t, r, sep, child);
    assert u.nodes[r].entries == [Entry([], t.root), Entry(sep, child)];
    forall x ensures Referenced(u, x) <==> Referenced(t, x) || x in {t.root, child} {
      if Referenced(t, x) {
        var y, f :| y in t.nodes && t.nodes[y].level > 0 && f in t.nodes[y].entries && f.child == x;
        assert y in u.nodes && u.nodes[y].level > 0 && f in u.nodes[y].entries;
      }
      if x in {t.root, child} {
        var f := if x == t.root then u.nodes[r].entries[0] else u.nodes[r].entries[1];
        assert f in u.nodes[r].entries && f.child == x;
      }
    }
  }

  lemma RemoveStep(t: Tree, p: Pid, i: nat, space: iset<Bytes>)
    requires TreeOk(t) && p in t.nodes && t.nodes[p].level == 0 && i < |t.nodes[p].entries| && LeavesIn(t, space)
    ensures TreeStep(t, Remove(t, p, i), {}) && LeavesIn(Remove(t, p, i), space)
  {
    hide TreeOk, Rank;
    TreeKeys(t);
    RemoveKeepsTree(t, p, i);
    var u := Remove(t, p, i);
    forall x ensures Referenced(u, x) <==> Referenced(t, x) {
      if Referenced(t, x) {
        var y, f :| y in t.nodes && t.nodes[y].level > 0 && f in t.nodes[y].entries && f.child == x;
        assert y in u.nodes && u.nodes[y].level > 0 && f in u.nodes[y].entries;
      }
    }
    forall x | x in u.nodes && u.nodes[x].level == 0 ensures KeysIn(u.nodes[x], space) {
      assert KeysIn(t.nodes[x], space);
      forall f | f in u.nodes[x].entries ensures f in t.nodes[x].entries {
      }
    }
  }

  lemma StepsCompose(t: Tree, u: Tree, v: Tree, g: set<Pid>, h: set<Pid>)
    requires TreeStep(t, u, g) && TreeStep(u, v, h)
    ensures TreeStep(t, v, g + h)
  {
    hide TreeOk, Referenced, Rank;
    forall p | p in t.nodes ensures v.nodes[p].level == t.nodes[p].level {
      assert u.nodes[p].level == t.nodes[p].level;
    }
    forall p | p in t.low ensures v.low[p] == t.low[p] {
      assert u.low[p] == t.low[p];
    }
    forall p | p in t.nodes && p in v.nodes && t.nodes[p].high.Some?
      ensures v.nodes[p].high.Some? && Leq(v.nodes[p].high.value, t.nodes[p].high.value)
    {
      assert u.nodes[p].high.Some?;
    }
    forall x ensures Referenced(v, x) <==> Referenced(t, x) || x in g + h {
      assert Referenced(v, x) <==> Referenced(u, x) || x in h;
    }
  }

  lemma ContentsIn(t: Tree, space: iset<Bytes>)
    requires LeavesIn(t, space)
    ensures Contents(t) <= space
  {
    forall k | k in Contents(t) ensures k in space {
      var p, e :| p in t.nodes && t.nodes[p].level == 0 && e in t.nodes[p].entries && e.key == k;
      assert KeysIn(t.nodes[p], space);
    }
  }

  /** A step that leaves the tree alone. */
  lemma ReadStepKeeps(c: Config, s: State, i: nat, th: Thread)
    requires Inv(c, s) && i in s.threads
    requires ThreadOk(c, s.tree, s.hist + [Contents(s.tree)], th) && Pending(th) == Pending(s.threads[i])
    ensures Inv(c, Record(s, i, s.tree, th))
  {
    hide TreeOk, ThreadOk, LeavesIn, Pending;
    SameTreeStep(s.tree);
    ContentsIn(s.tree, c.space);
    StepKeeps(c, s, i, s.tree, {}, th);
  }

  // ---- the steps ----

  lemma InvThread(c: Config, s: State, i: nat)
    requires Inv(c, s) && i in s.threads
    ensures TreeOk(s.tree) && ThreadOk(c, s.tree, s.hist, s.threads[i]) && s.hist != []
    ensures s.tree.root in s.tree.nodes && s.tree.root in s.tree.low && s.tree.low[s.tree.root] == []
  {
    hide ThreadOk, NodeOk, Apart;
  }

  lemma StartKeeps(c: Config, s: State, u: State, i: nat)
    requires Inv(c, s) && i in s.threads && Start(c, s, u, i)
    ensures Inv(c, u)
  {
    hide IsSearchKey, Contents, LeavesIn, PendingsOk, NoOrphans, Rank;
    var op: Op, k: Bytes :| k in c.space && (op.Get? ==> IsSearchKey(k))
                            && u == Record(s, i, s.tree, Descending(op, k, s.tree.root, [], |s.hist|));
    ReadStepKeeps(c, s, i, Descending(op, k, s.tree.root, [], |s.hist|));
  }

  lemma WalkRight(t: Tree, stack: seq<Pid>, cur: Pid, k: Bytes)
    requires TreeOk(t) && WalkOk(t, stack, cur, k) && HasSplit(t.nodes[cur], k)
    ensures t.nodes[cur].rlink.Some?
    ensures WalkOk(t, stack, t.nodes[cur].rlink.value, k)
    ensures t.nodes[t.nodes[cur].rlink.value].level == t.nodes[cur].level
    ensures Less(t.low[cur], t.low[t.nodes[cur].rlink.value])
  {
    hide Rank, TreeOk, CmpFull;
    TreeKeys(t);
    RightStep(t, cur, k);
  }

  lemma WalkDown(t: Tree, stack: seq<Pid>, cur: Pid, k: Bytes)
    requires TreeOk(t) && WalkOk(t, stack, cur, k) && t.nodes[cur].level > 0
    ensures UpperBound(t.nodes[cur].entries, k) > 0
    ensures WalkOk(t, stack + [cur], ChildFor(t.nodes[cur], k), k)
    ensures t.nodes[ChildFor(t.nodes[cur], k)].level + 1 == t.nodes[cur].level
  {
    hide Rank, TreeOk, UpperBound;
    TreeKeys(t);
    DownStep(t, cur, k);
    var up := stack + [cur];
    var child := ChildFor(t.nodes[cur], k);
    forall j | 0 <= j < |up|
      ensures up[j] in t.nodes && up[j] in t.low
      ensures t.nodes[up[j]].level == t.nodes[child].level + |up| - j
      ensures Leq(t.low[up[j]], t.low[child])
    {
      assert j < |stack| ==> up[j] == stack[j];
    }
  }

  lemma NothingBelow(hist: seq<iset<Bytes>>, q: Bytes, start: nat, low: Bytes)
    requires IsSearchKey(q) && Leq(low, q)
    ensures AllBelow(hist, q, start, low, []) && OnlyStored(hist, q, start, |hist|, [])
  {
    forall x | SamePrefix(q, x) ensures !Less(x, low) {
      SearchKeyIsFirst(q, x);
    }
  }

  lemma DownKeeps(c: Config, s: State, u: State, i: nat)
    requires Inv(c, s) && i in s.threads && Down(s, u, i)
    ensures Inv(c, u)
  {
    hide Inv, TreeOk, Record, Rank, AllBelow, OnlyStored, Contents, UpperBound, CmpFull;
    InvThread(c, s, i);
    var Descending(op, k, cur, stack, start) := s.threads[i];
    var t := s.tree;
    var n := t.nodes[cur];
    if n.level == 0 {
      if op.Get? {
        NothingBelow(s.hist + [Contents(t)], k, start, t.low[cur]);
      }
      ReadStepKeeps(c, s, i, if op.Get? then Getting(k, cur, start, []) else AtLeaf(op, k, cur, stack));
    } else if HasSplit(n, k) {
      WalkRight(t, stack, cur, k);
      ReadStepKeeps(c, s, i, Descending(op, k, n.rlink.value, stack, start));
    } else {
      WalkDown(t, stack, cur, k);
      ReadStepKeeps(c, s, i, Descending(op, k, ChildFor(n, k), stack + [cur], start));
    }
  }

  lemma LeafRightKeeps(c: Config, s: State, u: State, i: nat)
    requires Inv(c, s) && i in s.threads && LeafRight(s, u, i)
    ensures Inv(c, u)
  {
    var AtLeaf(op, k, cur, stack) := s.threads[i];
    assert ThreadOk(c, s.tree, s.hist, s.threads[i]);
    WalkRight(s.tree, stack, cur, k);
    ReadStepKeeps(c, s, i, AtLeaf(op, k, s.tree.nodes[cur].rlink.value, stack));
  }

  lemma LeafAdmits(c: Config, s: State, i: nat)
    requires Inv(c, s) && i in s.threads && LeafReady(s, i, Insert)
    ensures Admissible(s.tree, s.threads[i].cur, Entry(s.threads[i].key, 0))
    ensures s.tree.nodes[s.threads[i].cur].level == 0 && s.threads[i].key in c.space
  {
    assert ThreadOk(c, s.tree, s.hist, s.threads[i]);
  }

  lemma LeafInsertKeeps(c: Config, s: State, u: State, i: nat)
    requires Inv(c, s) && i in s.threads && LeafInsert(s, u, i)
    ensures Inv(c, u)
    ensures Contents(u.tree) == Contents(s.tree) + iset{s.threads[i].key}
  {
    hide TreeOk, LeavesIn, InsertEntry;
    var AtLeaf(_, k, cur, _) := s.threads[i];
    var e := Entry(k, 0);
    LeafAdmits(c, s, i);
    PutStep(s.tree, cur, e, c.space);
    PutContents(s.tree, cur, e);
    var t := Put(s.tree, cur, e);
    ContentsIn(t, c.space);
    StepKeeps(c, s, i, t, {}, Idle);
  }

  lemma LeafDeleteKeeps(c: Config, s: State, u: State, i: nat)
    requires Inv(c, s) && i in s.threads && LeafDelete(s, u, i)
    ensures Inv(c, u)
    ensures Contents(u.tree) == Contents(s.tree) - iset{s.threads[i].key}
  {
    hide TreeOk, LeavesIn, DeleteAt;
    var AtLeaf(_, k, cur, _) := s.threads[i];
    assert ThreadOk(c, s.tree, s.hist, s.threads[i]);
    var j: nat :| j < |s.tree.nodes[cur].entries| && s.tree.nodes[cur].entries[j].key == k
                  && u == Record(s, i, Remove(s.tree, cur, j), Idle);
    RemoveStep(s.tree, cur, j, c.space);
    RemoveContents(s.tree, cur, j);
    var t := Remove(s.tree, cur, j);
    ContentsIn(t, c.space);
    StepKeeps(c, s, i, t, {}, Idle);
  }

  /** Page cur is about to be split by thread i, which has come down the given stack. */
  ghost predicate Splitting(c: Config, s: State, i: nat, sp: nat, q: Pid, e: Entry, cur: Pid, stack: seq<Pid>) {
    && i in s.threads && cur in s.tree.nodes && cur in s.tree.low && Fresh(s.tree, q)
    && 1 <= sp < |s.tree.nodes[cur].entries| && Admissible(s.tree, cur, e)
    && (s.tree.nodes[cur].level == 0 ==> e.key in c.space && Pending(s.threads[i]).None?)
    && (s.tree.nodes[cur].level > 0 ==> Pending(s.threads[i]) == Some(e.child))
    && PathOk(s.tree, stack, cur)
  }

  /** What the split alone guarantees, whoever takes the separator next. */
  lemma SplitFacts(c: Config, s: State, i: nat, sp: nat, q: Pid, e: Entry, cur: Pid, stack: seq<Pid>)
    requires Inv(c, s) && Splitting(c, s, i, sp, q, e, cur, stack)
    ensures var t := SplitPut(s.tree, cur, sp, q, e);
            && TreeStep(s.tree, t, Gain(s.tree, cur, e)) && LeavesIn(t, c.space) && Contents(t) <= c.space
            && t.root == s.tree.root && t.nodes.Keys == s.tree.nodes.Keys + {q} && t.nodes.Keys == t.low.Keys
            && t.nodes[cur].level == s.tree.nodes[cur].level
            && ChildAt(t, t.nodes[cur].level, t.low[q], q) && Less(t.low[cur], t.low[q])
            && PathOk(t, stack, cur)
            && (e.child in Gain(s.tree, cur, e) ==> e.child in s.tree.nodes)
            && Contents(t) == if s.tree.nodes[cur].level == 0 then Contents(s.tree) + iset{e.key} else Contents(s.tree)
  {
    hide LeavesIn, Rank, NodeOk, SplitPut, Covers;
    SplitStep(s.tree, cur, sp, q, e, c.space);
    SplitPutContents(s.tree, cur, sp, q, e);
    var t := SplitPut(s.tree, cur, sp, q, e);
    ContentsIn(t, c.space);
    PathKeeps(s.tree, t, stack, cur);
    TreeKeys(t);
  }

  /** After page cur was split and q came out of it: hand the separator to the parent, to a new root,
      or to the root check. */
  lemma SplitThenKeeps(c: Config, s: State, u: State, i: nat, sp: nat, q: Pid, e: Entry, cur: Pid, stack: seq<Pid>)
    requires Inv(c, s) && Splitting(c, s, i, sp, q, e, cur, stack)
    requires var t := SplitPut(s.tree, cur, sp, q, e);
             q in t.low && AfterSplit(c, s, u, i, t, cur, t.low[q], q, stack)
    ensures Inv(c, u)
    ensures Contents(u.tree) == if s.tree.nodes[cur].level == 0 then Contents(s.tree) + iset{e.key} else Contents(s.tree)
  {
    hide Inv, LeavesIn, SplitPut, Admissible, Rank, ChildOk, NodeOk, TreeOk, Contents, PathOk, NewRoot;
    SplitFacts(c, s, i, sp, q, e, cur, stack);
    var t := SplitPut(s.tree, cur, sp, q, e);
    if stack != [] {
      SplitToParent(c, s, i, sp, q, e, cur, stack);
    } else if c.atomicRoot && cur == t.root {
      var r: Pid :| Fresh(t, r) && t.root in t.nodes && u == Record(s, i, NewRoot(t, r, t.low[q], q), Idle);
      SplitToRoot(c, s, i, sp, q, e, cur, stack, r);
    } else {
      StepKeeps(c, s, i, t, Gain(s.tree, cur, e), RootCheck(cur, t.low[q], q));
    }
  }

  lemma SplitToParent(c: Config, s: State, i: nat, sp: nat, q: Pid, e: Entry, cur: Pid, stack: seq<Pid>)
    requires Inv(c, s) && Splitting(c, s, i, sp, q, e, cur, stack) && stack != []
    ensures var t := SplitPut(s.tree, cur, sp, q, e);
            q in t.low
            && Inv(c, Record(s, i, t, Propagating(t.low[q], q, stack[|stack| - 1], stack[..|stack| - 1])))
  {
    hide Inv, LeavesIn, SplitPut, Admissible, Rank, ChildOk, NodeOk, TreeOk, Contents;
    SplitFacts(c, s, i, sp, q, e, cur, stack);
    var t := SplitPut(s.tree, cur, sp, q, e);
    PopPath(t, stack, cur);
    assert Leq(t.low[stack[|stack| - 1]], t.low[q]);
    StepKeeps(c, s, i, t, Gain(s.tree, cur, e), Propagating(t.low[q], q, stack[|stack| - 1], stack[..|stack| - 1]));
  }

  lemma SplitToRoot(c: Config, s: State, i: nat, sp: nat, q: Pid, e: Entry, cur: Pid, stack: seq<Pid>, r: Pid)
    requires Inv(c, s) && Splitting(c, s, i, sp, q, e, cur, stack) && cur == s.tree.root
    requires Fresh(SplitPut(s.tree, cur, sp, q, e), r)
    ensures var t := SplitPut(s.tree, cur, sp, q, e);
            && q in t.low && t.root in t.nodes
            && Inv(c, Record(s, i, NewRoot(t, r, t.low[q], q), Idle))
            && Contents(NewRoot(t, r, t.low[q], q)) == Contents(t)
  {
    hide Inv, LeavesIn, SplitPut, Admissible, Rank, ChildOk, NodeOk, TreeOk, Contents, PathOk, NewRoot;
    SplitFacts(c, s, i, sp, q, e, cur, stack);
    var t := SplitPut(s.tree, cur, sp, q, e);
    NewRootStep(t, r, t.low[q], q, c.space);
    NewRootContents(t, r, t.low[q], q);
    var v := NewRoot(t, r, t.low[q], q);
    StepsCompose(s.tree, t, v, Gain(s.tree, cur, e), {t.root, q});
    StepKeeps(c, s, i, v, Gain(s.tree, cur, e) + {t.root, q}, Idle);
  }

  lemma PopPath(t: Tree, stack: seq<Pid>, cur: Pid)
    requires PathOk(t, stack, cur) && stack != []
    ensures PathOk(t, stack[..|stack| - 1], stack[|stack| - 1])
  {
    hide Rank;
    var top := stack[|stack| - 1];
    var rest := stack[..|stack| - 1];
    forall j | 0 <= j < |rest|
      ensures rest[j] in t.nodes && rest[j] in t.low
      ensures t.nodes[rest[j]].level == t.nodes[top].level + |rest| - j
      ensures Leq(t.low[rest[j]], t.low[top])
    {
      assert rest[j] == stack[j];
    }
  }

  lemma LeafSplitKeeps(c: Config, s: State, u: State, i: nat)
    requires Inv(c, s) && i in s.threads && LeafSplit(c, s, u, i)
    ensures Inv(c, u)
    ensures Contents(u.tree) == Contents(s.tree) + iset{s.threads[i].key}
  {
    var AtLeaf(_, k, cur, stack) := s.threads[i];
    LeafAdmits(c, s, i);
    assert ThreadOk(c, s.tree, s.hist, s.threads[i]);
    var sp: nat, q: Pid :| Fresh(s.tree, q) && 1 <= sp < |s.tree.nodes[cur].entries|
                           && var t := SplitPut(s.tree, cur, sp, q, Entry(k, 0));
                              AfterSplit(c, s, u, i, t, cur, t.low[q], q, stack);
    SplitThenKeeps(c, s, u, i, sp, q, Entry(k, 0), cur, stack);
  }

  lemma CheckRootKeeps(c: Config, s: State, u: State, i: nat)
    requires Inv(c, s) && i in s.threads && CheckRoot(s, u, i)
    ensures Inv(c, u) && Contents(u.tree) == Contents(s.tree)
  {
    hide Inv, TreeOk, LeavesIn, NewRoot, Contents, ChildAt;
    InvThread(c, s, i);
    var RootCheck(pid, sep, child) := s.threads[i];
    if s.tree.root == pid {
      var r: Pid :| Fresh(s.tree, r) && u == Record(s, i, NewRoot(s.tree, r, sep, child), Idle);
      InstallRootKeeps(c, s, i, r);
    } else {
      ReadStepKeeps(c, s, i, Restart(s.tree.nodes[pid].level, sep, child));
    }
  }

  lemma InstallRootKeeps(c: Config, s: State, i: nat, r: Pid)
    requires Inv(c, s) && i in s.threads && s.threads[i].RootCheck? && s.threads[i].pid == s.tree.root
    requires Fresh(s.tree, r) && s.tree.root in s.tree.nodes
    ensures var v := NewRoot(s.tree, r, s.threads[i].sep, s.threads[i].child);
            Inv(c, Record(s, i, v, Idle)) && Contents(v) == Contents(s.tree)
  {
    hide TreeOk, LeavesIn, NewRoot, Contents, AllBelow, OnlyStored, PendingsOk, NoOrphans, HistOk;
    InvThread(c, s, i);
    TreeKeys(s.tree);
    var RootCheck(pid, sep, child) := s.threads[i];
    NewRootStep(s.tree, r, sep, child, c.space);
    NewRootContents(s.tree, r, sep, child);
    var v := NewRoot(s.tree, r, sep, child);
    ContentsIn(v, c.space);
    IdleOk(c, v, s.hist + [Contents(v)]);
    StepKeeps(c, s, i, v, {s.tree.root, child}, Idle);
  }

  lemma IdleOk(c: Config, t: Tree, hist: seq<iset<Bytes>>)
    ensures ThreadOk(c, t, hist, Idle)
  {
  }

  lemma RedescendKeeps(c: Config, s: State, u: State, i: nat)
    requires Inv(c, s) && i in s.threads && Redescend(s, u, i)
    ensures Inv(c, u)
  {
    hide Inv, Record, Rank, Contents, NodeOk, Apart;
    InvThread(c, s, i);
    var Restart(level, sep, child) := s.threads[i];
    if s.tree.nodes[s.tree.root].level <= level {
      ReadStepKeeps(c, s, i, Lost(sep, child, s.tree.root));
    } else {
      ReadStepKeeps(c, s, i, Redescending(level + 1, sep, child, s.tree.root, []));
    }
  }

  lemma RedescendDownKeeps(c: Config, s: State, u: State, i: nat)
    requires Inv(c, s) && i in s.threads && RedescendDown(s, u, i)
    ensures Inv(c, u)
  {
    hide Inv, TreeOk, Record, Rank, AllBelow, OnlyStored, Contents, UpperBound, CmpFull;
    InvThread(c, s, i);
    var Redescending(target, sep, child, cur, stack) := s.threads[i];
    var n := s.tree.nodes[cur];
    if n.level <= target {
      ReadStepKeeps(c, s, i, Propagating(sep, child, cur, stack));
    } else if HasSplit(n, sep) {
      WalkRight(s.tree, stack, cur, sep);
      ReadStepKeeps(c, s, i, Redescending(target, sep, child, n.rlink.value, stack));
    } else {
      WalkDown(s.tree, stack, cur, sep);
      ReadStepKeeps(c, s, i, Redescending(target, sep, child, ChildFor(n, sep), stack + [cur]));
    }
  }

  lemma ParentRightKeeps(c: Config, s: State, u: State, i: nat)
    requires Inv(c, s) && i in s.threads && ParentRight(s, u, i)
    ensures Inv(c, u)
  {
    hide TreeOk, LeavesIn, HistOk;
    var Propagating(sep, child, cur, stack) := s.threads[i];
    InvThread(c, s, i);
    WalkRight(s.tree, stack, cur, sep);
    ReadStepKeeps(c, s, i, Propagating(sep, child, s.tree.nodes[cur].rlink.value, stack));
  }

  /** A carried separator is admissible at the page it has been walked to. */
  lemma ParentAdmits(c: Config, s: State, i: nat)
    requires Inv(c, s) && i in s.threads && s.threads[i].Propagating?
    requires !HasSplit(s.tree.nodes[s.threads[i].cur], s.threads[i].sep)
    ensures Admissible(s.tree, s.threads[i].cur, Entry(s.threads[i].sep, s.threads[i].child))
    ensures s.tree.nodes[s.threads[i].cur].level > 0
  {
    assert ThreadOk(c, s.tree, s.hist, s.threads[i]);
    assert Pending(s.threads[i]).Some?;
  }

  lemma ParentInsertKeeps(c: Config, s: State, u: State, i: nat)
    requires Inv(c, s) && i in s.threads && ParentInsert(s, u, i)
    ensures Inv(c, u) && Contents(u.tree) == Contents(s.tree)
  {
    hide TreeOk, LeavesIn, InsertEntry, Admissible;
    var Propagating(sep, child, cur, stack) := s.threads[i];
    assert ThreadOk(c, s.tree, s.hist, s.threads[i]);
    ParentAdmits(c, s, i);
    var e := Entry(sep, child);
    PutStep(s.tree, cur, e, c.space);
    PutContents(s.tree, cur, e);
    var t := Put(s.tree, cur, e);
    ContentsIn(t, c.space);
    StepKeeps(c, s, i, t, {child}, Idle);
  }

  lemma ParentSplitKeeps(c: Config, s: State, u: State, i: nat)
    requires Inv(c, s) && i in s.threads && ParentSplit(c, s, u, i)
    ensures Inv(c, u) && Contents(u.tree) == Contents(s.tree)
  {
    var Propagating(sep, child, cur, stack) := s.threads[i];
    assert ThreadOk(c, s.tree, s.hist, s.threads[i]);
    ParentAdmits(c, s, i);
    var sp: nat, q: Pid :| Fresh(s.tree, q) && 1 <= sp < |s.tree.nodes[cur].entries|
                           && var t := SplitPut(s.tree, cur, sp, q, Entry(sep, child));
                              AfterSplit(c, s, u, i, t, cur, t.low[q], q, stack);
    SplitThenKeeps(c, s, u, i, sp, q, Entry(sep, child), cur, stack);
  }

  // ---- readers ----

  /** A key stored right now lies in the leaf that covers it. */
  lemma StoredInCover(t: Tree, p: Pid, x: Bytes)
    requires TreeOk(t) && p in t.nodes && p in t.low && t.nodes[p].level == 0 && x in Contents(t) && Covers(t, p, x)
    ensures HasKey(t.nodes[p].entries, x)
  {
    hide Rank, TreeOk, Covers;
    var y, e :| y in t.nodes && t.nodes[y].level == 0 && e in t.nodes[y].entries && e.key == x;
    EntryCovered(t, y, e);
    SameLeaf(t, y, p, x);
  }

  lemma PageHasAll(c: Config, t: Tree, hist: seq<iset<Bytes>>, cur: Pid, q: Bytes, start: nat, found: seq<Bytes>,
      bound: Bytes)
    requires TreeOk(t) && LeavesIn(t, c.space) && PrefixFree(c.space) && q in c.space && IsSearchKey(q)
    requires cur in t.nodes && cur in t.low && t.nodes[cur].level == 0
    requires start < |hist| && hist[|hist| - 1] == Contents(t)
    requires AllBelow(hist, q, start, t.low[cur], found)
    requires t.nodes[cur].high.Some? ==> Leq(bound, t.nodes[cur].high.value)
    ensures AllBelow(hist, q, start, bound, found + PageMatches(t.nodes[cur], q))
  {
    hide Rank, TreeOk, MemCmp, CmpPrefix, SamePrefix, PageMatches;
    var n := t.nodes[cur];
    NodeFacts(t, cur);
    assert KeysIn(n, c.space);
    PageMatchesExact(n, q, c.space);
    forall x | SamePrefix(q, x) && Less(x, bound) && Always(hist, start, |hist|, x)
      ensures x in found + PageMatches(n, q)
    {
      if !Less(x, t.low[cur]) {
        assert x in hist[|hist| - 1];
        StoredInCover(t, cur, x);
      }
    }
  }

  lemma PageOnlyStored(c: Config, t: Tree, hist: seq<iset<Bytes>>, cur: Pid, q: Bytes, start: nat, found: seq<Bytes>)
    requires TreeOk(t) && LeavesIn(t, c.space) && PrefixFree(c.space) && q in c.space && IsSearchKey(q)
    requires cur in t.nodes && t.nodes[cur].level == 0
    requires start < |hist| && hist[|hist| - 1] == Contents(t)
    requires OnlyStored(hist, q, start, |hist|, found)
    ensures OnlyStored(hist, q, start, |hist|, found + PageMatches(t.nodes[cur], q))
  {
    hide Rank, TreeOk, MemCmp, CmpPrefix, SamePrefix, PageMatches;
    var n := t.nodes[cur];
    NodeFacts(t, cur);
    assert KeysIn(n, c.space);
    PageMatchesExact(n, q, c.space);
    forall x | x in PageMatches(n, q) ensures Once(hist, start, |hist|, x) {
      var e :| e in n.entries && e.key == x;
      assert Has(t, x);
      assert x in hist[|hist| - 1];
    }
  }

  /** When the fence does not have the columns of q, the walk has seen every key of q. */
  lemma LastPage(c: Config, t: Tree, hist: seq<iset<Bytes>>, cur: Pid, q: Bytes, start: nat, found: seq<Bytes>)
    requires TreeOk(t) && LeavesIn(t, c.space) && PrefixFree(c.space) && q in c.space && IsSearchKey(q)
    requires cur in t.nodes && cur in t.low && t.nodes[cur].level == 0
    requires start < |hist| && hist[|hist| - 1] == Contents(t) && Contents(t) <= c.space
    requires AllBelow(hist, q, start, t.low[cur], found)
    requires !HasSplit(t.nodes[cur], q) && !HighPrefixCmp(t.nodes[cur], q)
    ensures AllFound(hist, q, start, |hist|, found + PageMatches(t.nodes[cur], q))
  {
    hide Rank, TreeOk, MemCmp, CmpPrefix, SamePrefix, PageMatches, HasSplit, HighPrefixCmp;
    var n := t.nodes[cur];
    assert KeysIn(n, c.space);
    forall x | SamePrefix(q, x) && Always(hist, start, |hist|, x) ensures x in found + PageMatches(n, q) {
      assert x in hist[|hist| - 1];
      if n.high.Some? {
        FenceTellsAll(n, q, x, c.space);
        PageHasAll(c, t, hist, cur, q, start, found, n.high.value);
      } else {
        AboveAll(x);
        PageHasAll(c, t, hist, cur, q, start, found, x + [0]);
      }
    }
  }

  lemma AboveAll(x: Bytes)
    ensures Less(x, x + [0])
  {
    RankCommonPrefix(x, [0], []);
    assert x + [] == x;
  }

  lemma ReadLeafKeeps(c: Config, s: State, u: State, i: nat)
    requires Inv(c, s) && PrefixFree(c.space) && i in s.threads && ReadLeaf(s, u, i)
    ensures Inv(c, u)
  {
    hide Inv, TreeOk, LeavesIn, Contents, PageMatches, AllBelow, OnlyStored, AllFound, SamePrefix, Rank, CmpPrefix, MemCmp;
    var Getting(q, cur, start, found) := s.threads[i];
    var t := s.tree;
    var n := t.nodes[cur];
    InvReader(c, s, i);
    var h := s.hist + [Contents(t)];
    HistGrows(s.hist, Contents(t), q, start, t.low[cur], found);
    if HasSplit(n, q) {
      RightStep(t, cur, q);
      NodeFacts(t, cur);
      BelowFence(h, q, start, t.low[cur], t.low[n.rlink.value], found);
      ReadStepKeeps(c, s, i, Getting(q, n.rlink.value, start, found));
    } else {
      PageOnlyStored(c, t, h, cur, q, start, found);
      var more := found + PageMatches(n, q);
      if HighPrefixCmp(n, q) {
        PageHasAll(c, t, h, cur, q, start, found, n.high.value);
        NodeFacts(t, cur);
        ReadStepKeeps(c, s, i, Linking(q, cur, start, more, n.high.value, n.rlink));
      } else {
        LastPage(c, t, h, cur, q, start, found);
        GotTrim(h, q, start, |s.hist|, more);
        ReadStepKeeps(c, s, i, Got(q, start, |s.hist|, more));
      }
    }
  }

  lemma InvReader(c: Config, s: State, i: nat)
    requires Inv(c, s) && i in s.threads
    ensures TreeOk(s.tree) && ThreadOk(c, s.tree, s.hist, s.threads[i]) && LeavesIn(s.tree, c.space)
    ensures s.hist != [] && s.hist[|s.hist| - 1] == Contents(s.tree) && Contents(s.tree) <= c.space
    ensures s.tree.nodes.Keys == s.tree.low.Keys
  {
    hide ThreadOk, NodeOk, Apart;
  }

  /** The last recorded contents are recorded twice, so a read that ends now ends at the last but one. */
  lemma GotTrim(h: seq<iset<Bytes>>, q: Bytes, start: nat, to: nat, found: seq<Bytes>)
    requires start < to && |h| == to + 1 && h[to] == h[to - 1]
    requires AllFound(h, q, start, |h|, found) && OnlyStored(h, q, start, |h|, found)
    ensures AllFound(h, q, start, to, found) && OnlyStored(h, q, start, to, found)
  {
    hide SamePrefix;
    forall x | Always(h, start, to, x) ensures Always(h, start, |h|, x) {
      assert x in h[to - 1];
    }
    forall x | Once(h, start, |h|, x) ensures Once(h, start, to, x) {
      var j :| start <= j < |h| && x in h[j];
      assert x in h[if j == to then to - 1 else j];
    }
  }

  /** No key of q lies between the low fence of a page q is right of and the page's high fence. */
  lemma BelowFence(hist: seq<iset<Bytes>>, q: Bytes, start: nat, low: Bytes, high: Bytes, found: seq<Bytes>)
    requires AllBelow(hist, q, start, low, found) && IsSearchKey(q) && Leq(high, q)
    ensures AllBelow(hist, q, start, high, found)
  {
    hide Always;
    forall x | SamePrefix(q, x) ensures !Less(x, high) {
      SearchKeyIsFirst(q, x);
    }
  }

  lemma FollowLinkKeeps(c: Config, s: State, u: State, i: nat)
    requires Inv(c, s) && i in s.threads && FollowLink(c, s, u, i)
    ensures Inv(c, u)
  {
    hide Inv, TreeOk, LeavesIn, Contents, OnlyStored, AllFound, SamePrefix, Rank;
    var Linking(q, cur, start, found, bound, link) := s.threads[i];
    var t := s.tree;
    InvReader(c, s, i);
    NodeFacts(t, cur);
    HistGrows(s.hist, Contents(t), q, start, bound, found);
    var next := if c.snapshotLink then link else t.nodes[cur].rlink;
    assert next.Some? && next.value in t.nodes && next.value in t.low && Leq(t.low[next.value], bound);
    ReadStepKeeps(c, s, i, Getting(q, next.value, start, found));
  }

  // ---- whole runs ----

  lemma InitInv(c: Config, s: State)
    requires Init(s)
    ensures Inv(c, s)
  {
    assert forall k :: !Has(s.tree, k);
  }

  lemma NextKeeps(c: Config, s: State, u: State)
    requires Inv(c, s) && PrefixFree(c.space) && Next(c, s, u)
    ensures Inv(c, u)
  {
    hide Inv, Start, Down, LeafRight, LeafInsert, LeafDelete, LeafSplit, CheckRoot, Redescend, RedescendDown,
      ParentRight, ParentInsert, ParentSplit, ReadLeaf, FollowLink, PrefixFree;
    var i :| i in s.threads && ThreadStep(c, s, u, i);
    if {
      case Start(c, s, u, i) => StartKeeps(c, s, u, i);
      case Down(s, u, i) => DownKeeps(c, s, u, i);
      case LeafRight(s, u, i) => LeafRightKeeps(c, s, u, i);
      case LeafInsert(s, u, i) => LeafInsertKeeps(c, s, u, i);
      case LeafDelete(s, u, i) => LeafDeleteKeeps(c, s, u, i);
      case LeafSplit(c, s, u, i) => LeafSplitKeeps(c, s, u, i);
      case CheckRoot(s, u, i) => CheckRootKeeps(c, s, u, i);
      case Redescend(s, u, i) => RedescendKeeps(c, s, u, i);
      case RedescendDown(s, u, i) => RedescendDownKeeps(c, s, u, i);
      case ParentRight(s, u, i) => ParentRightKeeps(c, s, u, i);
      case ParentInsert(s, u, i) => ParentInsertKeeps(c, s, u, i);
      case ParentSplit(c, s, u, i) => ParentSplitKeeps(c, s, u, i);
      case ReadLeaf(s, u, i) => ReadLeafKeeps(c, s, u, i);
      case FollowLink(c, s, u, i) => FollowLinkKeeps(c, s, u, i);
    }
  }

  lemma {:induction false} RunInv(c: Config, run: seq<State>)
    requires PrefixFree(c.space) && IsRun(c, run)
    ensures Inv(c, run[|run| - 1])
    decreases |run|
  {
    hide Inv, Next, PrefixFree, Init;
    if |run| == 1 {
      InitInv(c, run[0]);
    } else {
      var shorter := run[..|run| - 1];
      RunInv(c, shorter);
      assert Next(c, run[|run| - 2], run[|run| - 1]);
      NextKeeps(c, run[|run| - 2], run[|run| - 1]);
    }
  }

  /** In every reachable state, whatever separators are still on their way, the walk from the root for
      a stored key ends at the one leaf that holds it. */
  lemma ReachableKeysFound(c: Config, s: State, leaf: Pid, e: Entry)
    requires PrefixFree(c.space) && Reachable(c, s)
    requires leaf in s.tree.nodes && s.tree.nodes[leaf].level == 0 && e in s.tree.nodes[leaf].entries
    ensures TreeOk(s.tree) && s.tree.root in s.tree.nodes && Leq(s.tree.low[s.tree.root], e.key)
    ensures Descend(s.tree, s.tree.root, e.key, 0) == leaf
  {
    var run :| IsRun(c, run) && run[|run| - 1] == s;
    RunInv(c, run);
    Reachability(s.tree, leaf, e);
  }

  lemma GotRegular(c: Config, s: State, i: nat)
    requires Inv(c, s) && i in s.threads && s.threads[i].Got?
    ensures var Got(q, start, stop, found) := s.threads[i];
            && stop <= |s.hist|
            && (forall x | SamePrefix(q, x) && (forall j | start <= j < stop :: x in s.hist[j]) :: x in found)
            && (forall x | x in found :: SamePrefix(q, x) && exists j :: start <= j < stop && x in s.hist[j])
  {
    hide TreeOk, SamePrefix, LeavesIn, HistOk, PendingsOk, NoOrphans;
    assert ThreadOk(c, s.tree, s.hist, s.threads[i]);
    var Got(q, start, stop, found) := s.threads[i];
    forall x | SamePrefix(q, x) && (forall j | start <= j < stop :: x in s.hist[j]) ensures x in found {
      assert Always(s.hist, start, stop, x);
    }
    forall x | x in found ensures exists j :: start <= j < stop && x in s.hist[j] {
      assert Once(s.hist, start, stop, x);
    }
  }

  /** A finished read returned every key of its columns that was stored during the whole read, and
      nothing that was not stored at some moment of it. This holds with either kind of link. */
  lemma GetIsRegular(c: Config, s: State, i: nat)
    requires PrefixFree(c.space) && Reachable(c, s) && i in s.threads && s.threads[i].Got?
    ensures var Got(q, start, stop, found) := s.threads[i];
            && stop <= |s.hist|
            && (forall x | SamePrefix(q, x) && (forall j | start <= j < stop :: x in s.hist[j]) :: x in found)
            && (forall x | x in found :: SamePrefix(q, x) && exists j :: start <= j < stop && x in s.hist[j])
  {
    hide Inv, SamePrefix;
    var run :| IsRun(c, run) && run[|run| - 1] == s;
    RunInv(c, run);
    GotRegular(c, s, i);
  }
}
