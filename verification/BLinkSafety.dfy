/** Safety of the concurrent tree over whole runs. */
module BLinkSafety {
  import opened ByteOrder
  import opened PageLayout
  import opened LeafScan
  import opened BLinkTree
  import opened BLinkSteps

  // ---- what each thread relies on; all of it survives the steps of others ----

  /** The pages on the stack lie above cur, one level each, and not to the right of it. */
  ghost predicate PathOk(t: Tree, stack: seq<Pid>, cur: Pid) {
    && cur in t.nodes && cur in t.low
    && (forall j | 0 <= j < |stack| ::
          && stack[j] in t.nodes && stack[j] in t.low
          && t.nodes[stack[j]].level == t.nodes[cur].level + |stack| - j
          && Leq(t.low[stack[j]], t.low[cur]))
    && (forall j, k | 0 <= j < k < |stack| :: Leq(t.low[stack[j]], t.low[stack[k]]))
  }

  ghost predicate WalkOk(t: Tree, stack: seq<Pid>, cur: Pid, k: Bytes) {
    PathOk(t, stack, cur) && Leq(t.low[cur], k)
  }

  /** Where a separator has to go: the page split off, already in the tree. */
  ghost predicate ChildAt(t: Tree, level: nat, sep: Bytes, child: Pid) {
    child in t.nodes && child in t.low && t.nodes[child].level == level && t.low[child] == sep && sep != []
  }

  function Pending(th: Thread): Option<Pid> {
    match th
    case RootCheck(_, _, child) => Some(child)
    case Restart(_, _, child) => Some(child)
    case Redescending(_, _, child, _, _) => Some(child)
    case Propagating(_, child, _, _) => Some(child)
    case Lost(_, child, _) => Some(child)
    case _ => None
  }

  ghost predicate Always(hist: seq<iset<Bytes>>, from: nat, to: nat, x: Bytes) {
    to <= |hist| && forall j | from <= j < to :: x in hist[j]
  }

  ghost predicate Once(hist: seq<iset<Bytes>>, from: nat, to: nat, x: Bytes) {
    to <= |hist| && exists j :: from <= j < to && x in hist[j]
  }

  /** The list holds only keys of q that were stored at some moment of the read. */
  ghost predicate OnlyStored(hist: seq<iset<Bytes>>, q: Bytes, start: nat, to: nat, found: seq<Bytes>) {
    forall x | x in found :: SamePrefix(q, x) && Once(hist, start, to, x)
  }

  /** Every key of q below bound that was stored all along is in the list. */
  ghost predicate AllBelow(hist: seq<iset<Bytes>>, q: Bytes, start: nat, bound: Bytes, found: seq<Bytes>) {
    forall x | SamePrefix(q, x) && Less(x, bound) && Always(hist, start, |hist|, x) :: x in found
  }

  ghost predicate AllFound(hist: seq<iset<Bytes>>, q: Bytes, start: nat, to: nat, found: seq<Bytes>) {
    forall x | SamePrefix(q, x) && Always(hist, start, to, x) :: x in found
  }

  ghost predicate Sought(c: Config, hist: seq<iset<Bytes>>, q: Bytes, start: nat) {
    q in c.space && IsSearchKey(q) && start < |hist|
  }

  ghost predicate ThreadOk(c: Config, t: Tree, hist: seq<iset<Bytes>>, th: Thread) {
    match th
    case Idle => true
    case Descending(op, k, cur, stack, start) =>
      WalkOk(t, stack, cur, k) && k in c.space && start < |hist| && (op.Get? ==> IsSearchKey(k))
    case AtLeaf(op, k, cur, stack) =>
      WalkOk(t, stack, cur, k) && k in c.space && t.nodes[cur].level == 0
    case RootCheck(pid, sep, child) =>
      pid in t.nodes && ChildAt(t, t.nodes[pid].level, sep, child)
    case Restart(level, sep, child) =>
      ChildAt(t, level, sep, child)
    case Redescending(target, sep, child, cur, stack) =>
      WalkOk(t, stack, cur, sep) && target > 0 && ChildAt(t, target - 1, sep, child) && t.nodes[cur].level >= target
    case Propagating(sep, child, cur, stack) =>
      WalkOk(t, stack, cur, sep) && t.nodes[cur].level > 0 && ChildAt(t, t.nodes[cur].level - 1, sep, child)
    case Lost(sep, child, cur) =>
      cur in t.nodes && ChildAt(t, t.nodes[cur].level, sep, child)
    case Getting(q, cur, start, found) =>
      && Sought(c, hist, q, start) && cur in t.nodes && cur in t.low && t.nodes[cur].level == 0
      && AllBelow(hist, q, start, t.low[cur], found) && OnlyStored(hist, q, start, |hist|, found)
    case Linking(q, cur, start, found, bound, link) =>
      && Sought(c, hist, q, start) && cur in t.nodes && t.nodes[cur].level == 0
      && t.nodes[cur].high.Some? && Leq(t.nodes[cur].high.value, bound)
      && link.Some? && link.value in t.nodes && link.value in t.low
      && t.nodes[link.value].level == 0 && t.low[link.value] == bound
      && AllBelow(hist, q, start, bound, found) && OnlyStored(hist, q, start, |hist|, found)
    case Got(q, start, stop, found) =>
      start <= stop <= |hist| && AllFound(hist, q, start, stop, found) && OnlyStored(hist, q, start, stop, found)
  }

  ghost predicate LeavesIn(t: Tree, space: iset<Bytes>) {
    forall p | p in t.nodes && t.nodes[p].level == 0 :: KeysIn(t.nodes[p], space)
  }

  ghost predicate HistOk(c: Config, s: State) {
    && s.hist != [] && s.hist[|s.hist| - 1] == Contents(s.tree)
    && forall j | 0 <= j < |s.hist| :: s.hist[j] <= c.space
  }

  /** Separators on their way: nobody leads to the page yet, and no other thread carries it. */
  ghost predicate PendingsOk(s: State) {
    && (forall i | i in s.threads && Pending(s.threads[i]).Some? ::
          !Referenced(s.tree, Pending(s.threads[i]).value))
    && (forall i, j | i in s.threads && j in s.threads && i != j && Pending(s.threads[i]).Some? ::
          Pending(s.threads[i]) != Pending(s.threads[j]))
  }

  ghost predicate Carried(s: State, p: Pid) {
    exists i :: i in s.threads && Pending(s.threads[i]) == Some(p)
  }

  /** Every page but the root is led to by some parent, or its separator is on its way. */
  ghost predicate NoOrphans(s: State) {
    forall p | p in s.tree.nodes :: p == s.tree.root || Referenced(s.tree, p) || Carried(s, p)
  }

  ghost predicate Inv(c: Config, s: State) {
    && TreeOk(s.tree) && LeavesIn(s.tree, c.space) && HistOk(c, s)
    && (forall i | i in s.threads :: ThreadOk(c, s.tree, s.hist, s.threads[i]))
    && PendingsOk(s) && NoOrphans(s)
  }

  // ---- what one page operation does to everybody else ----

  ghost predicate Shrunk(t: Tree, u: Tree) {
    forall p | p in t.nodes && p in u.nodes && t.nodes[p].high.Some? ::
      u.nodes[p].high.Some? && Leq(u.nodes[p].high.value, t.nodes[p].high.value)
  }

  /** gain: the pages that get a parent in this step. */
  ghost predicate TreeStep(t: Tree, u: Tree, gain: set<Pid>) {
    && TreeOk(u) && Grown(t, u) && Shrunk(t, u)
    && u.root in u.nodes && t.root in t.nodes
    && u.nodes[u.root].level >= t.nodes[t.root].level
    && (forall x :: Referenced(u, x) <==> Referenced(t, x) || x in gain)
  }

  lemma SameTreeStep(t: Tree)
    requires TreeOk(t)
    ensures TreeStep(t, t, {})
  {
  }

  lemma {:induction false} PathKeeps(t: Tree, u: Tree, stack: seq<Pid>, cur: Pid)
    requires PathOk(t, stack, cur) && Grown(t, u)
    ensures PathOk(u, stack, cur)
  {
    hide Rank;
    forall j | 0 <= j < |stack|
      ensures stack[j] in u.nodes && stack[j] in u.low
      ensures u.nodes[stack[j]].level == u.nodes[cur].level + |stack| - j
      ensures Leq(u.low[stack[j]], u.low[cur])
    {
      assert stack[j] in t.nodes && stack[j] in t.low;
    }
    forall j, k | 0 <= j < k < |stack| ensures Leq(u.low[stack[j]], u.low[stack[k]]) {
      assert Leq(t.low[stack[j]], t.low[stack[k]]);
    }
  }

  lemma HistGrows(hist: seq<iset<Bytes>>, more: iset<Bytes>, q: Bytes, start: nat, bound: Bytes, found: seq<Bytes>)
    requires start <= |hist|
    ensures AllBelow(hist, q, start, bound, found) ==> AllBelow(hist + [more], q, start, bound, found)
    ensures OnlyStored(hist, q, start, |hist|, found) ==> OnlyStored(hist + [more], q, start, |hist| + 1, found)
  {
    hide Rank;
    var h := hist + [more];
    forall x | Always(h, start, |h|, x) ensures Always(hist, start, |hist|, x) {
      forall j | start <= j < |hist| ensures x in hist[j] {
        assert h[j] == hist[j];
      }
    }
    forall x | Once(hist, start, |hist|, x) ensures Once(h, start, |h|, x) {
      var j :| start <= j < |hist| && x in hist[j];
      assert x in h[j];
    }
  }

  lemma HistGrowsGot(hist: seq<iset<Bytes>>, more: iset<Bytes>, q: Bytes, start: nat, to: nat, found: seq<Bytes>)
    requires to <= |hist|
    ensures AllFound(hist, q, start, to, found) ==> AllFound(hist + [more], q, start, to, found)
    ensures OnlyStored(hist, q, start, to, found) ==> OnlyStored(hist + [more], q, start, to, found)
  {
    var h := hist + [more];
    forall x | Always(h, start, to, x) ensures Always(hist, start, to, x) {
      forall j | start <= j < to ensures x in hist[j] {
        assert h[j] == hist[j];
      }
    }
    forall x | Once(hist, start, to, x) ensures Once(h, start, to, x) {
      var j :| start <= j < to && x in hist[j];
      assert x in h[j];
    }
  }

  lemma ThreadKeeps(c: Config, t: Tree, u: Tree, gain: set<Pid>, hist: seq<iset<Bytes>>, more: iset<Bytes>, th: Thread)
    requires TreeOk(t) && TreeStep(t, u, gain) && ThreadOk(c, t, hist, th)
    ensures ThreadOk(c, u, hist + [more], th)
  {
    hide Rank, TreeOk, AllBelow, OnlyStored, AllFound, SamePrefix;
    match th
    case Descending(_, _, cur, stack, _) => PathKeeps(t, u, stack, cur);
    case AtLeaf(_, _, cur, stack) => PathKeeps(t, u, stack, cur);
    case Redescending(_, _, _, cur, stack) => PathKeeps(t, u, stack, cur);
    case Propagating(_, _, cur, stack) => PathKeeps(t, u, stack, cur);
    case Getting(q, cur, start, found) => HistGrows(hist, more, q, start, t.low[cur], found);
    case Linking(q, _, start, found, bound, _) => HistGrows(hist, more, q, start, bound, found);
    case Got(q, start, stop, found) => HistGrowsGot(hist, more, q, start, stop, found);
    case _ =>
  }

  /** One step of thread i keeps the invariant if its own new state is all right and the page it
      stops carrying is the one that gained a parent. */
  lemma StepKeeps(c: Config, s: State, i: nat, u: Tree, gain: set<Pid>, th: Thread)
    requires Inv(c, s) && i in s.threads
    requires TreeStep(s.tree, u, gain) && LeavesIn(u, c.space) && Contents(u) <= c.space
    requires ThreadOk(c, u, s.hist + [Contents(u)], th)
    requires forall x | x in gain :: x == s.tree.root || Pending(s.threads[i]) == Some(x) || x !in s.tree.nodes
    requires Pending(s.threads[i]).Some? && Pending(th) != Pending(s.threads[i]) ==> Pending(s.threads[i]).value in gain
    requires Pending(th).Some? ==> Pending(th) == Pending(s.threads[i]) || Pending(th).value !in s.tree.nodes
    requires Pending(th).Some? ==> Pending(th).value !in gain
    requires s.tree.root != u.root ==> s.tree.root in gain
    requires forall x | x in u.nodes && x !in s.tree.nodes :: Pending(th) == Some(x) || x == u.root || x in gain
    ensures Inv(c, Record(s, i, u, th))
  {
    hide Rank, TreeOk, AllBelow, OnlyStored, AllFound, SamePrefix, LeavesIn, ThreadOk, Pending, Contents,
      PendingsOk, NoOrphans, Referenced, Shrunk;
    var v := Record(s, i, u, th);
    forall j | j in v.threads ensures ThreadOk(c, v.tree, v.hist, v.threads[j]) {
      if j != i {
        ThreadKeeps(c, s.tree, u, gain, s.hist, Contents(u), s.threads[j]);
      }
    }
    StepKeepsPendings(c, s, i, u, gain, th);
    forall j | 0 <= j < |v.hist| ensures v.hist[j] <= c.space {
      assert j < |s.hist| ==> v.hist[j] == s.hist[j];
    }
  }

  /** A carried page is a page of the tree, and not the root. */
  lemma PendingInTree(c: Config, t: Tree, hist: seq<iset<Bytes>>, th: Thread)
    requires TreeOk(t) && ThreadOk(c, t, hist, th) && Pending(th).Some?
    ensures Pending(th).value in t.nodes && Pending(th).value != t.root
  {
  }

  lemma StepKeepsPendings(c: Config, s: State, i: nat, u: Tree, gain: set<Pid>, th: Thread)
    requires Inv(c, s) && i in s.threads && TreeStep(s.tree, u, gain)
    requires ThreadOk(c, u, s.hist + [Contents(u)], th)
    requires forall x | x in gain :: x == s.tree.root || Pending(s.threads[i]) == Some(x) || x !in s.tree.nodes
    requires Pending(s.threads[i]).Some? && Pending(th) != Pending(s.threads[i]) ==> Pending(s.threads[i]).value in gain
    requires Pending(th).Some? ==> Pending(th) == Pending(s.threads[i]) || Pending(th).value !in s.tree.nodes
    requires Pending(th).Some? ==> Pending(th).value !in gain
    requires s.tree.root != u.root ==> s.tree.root in gain
    requires forall x | x in u.nodes && x !in s.tree.nodes :: Pending(th) == Some(x) || x == u.root || x in gain
    ensures PendingsOk(Record(s, i, u, th)) && NoOrphans(Record(s, i, u, th))
  {
    hide TreeOk, ThreadOk, Referenced, LeavesIn, HistOk, Contents, Pending, Grown, Shrunk;
    var v := Record(s, i, u, th);
    forall j | j in v.threads && Pending(v.threads[j]).Some?
      ensures !Referenced(u, Pending(v.threads[j]).value)
    {
      if j != i {
        PendingInTree(c, s.tree, s.hist, s.threads[j]);
      } else if Pending(th) != Pending(s.threads[i]) && Referenced(s.tree, Pending(th).value) {
        ReferencedInTree(s.tree, Pending(th).value);
      }
    }
    forall j, k | j in v.threads && k in v.threads && j != k && Pending(v.threads[j]).Some?
      ensures Pending(v.threads[j]) != Pending(v.threads[k])
    {
      if j != i {
        PendingInTree(c, s.tree, s.hist, s.threads[j]);
      }
      if k != i && Pending(s.threads[k]).Some? {
        PendingInTree(c, s.tree, s.hist, s.threads[k]);
      }
    }
    forall p | p in u.nodes ensures p == u.root || Referenced(u, p) || Carried(v, p) {
      if p in s.tree.nodes && Carried(s, p) {
        var j :| j in s.threads && Pending(s.threads[j]) == Some(p);
        if j != i {
          assert Pending(v.threads[j]) == Some(p);
        } else {
          assert p in gain || Pending(v.threads[i]) == Some(p);
        }
      } else if p !in s.tree.nodes {
        assert Pending(th) == Some(p) ==> Pending(v.threads[i]) == Some(p);
      }
    }
  }

  lemma ReferencedInTree(t: Tree, q: Pid)
    requires TreeOk(t) && Referenced(t, q)
    ensures q in t.nodes
  {
    var p, e :| p in t.nodes && t.nodes[p].level > 0 && e in t.nodes[p].entries && e.child == q;
    assert NodeOk(t, p) && ChildOk(t, t.nodes[p].level, e);
  }
}
