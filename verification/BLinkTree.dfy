/** The B-link tree as a value: what every latched page operation keeps, and why a descent that
    goes right when it must always arrives. */
module BLinkTree {
  import opened ByteOrder
  import opened PageLayout

  /** low is the lower fence of a page. No page stores it; a page is born with it and keeps it. */
  datatype Tree = Tree(nodes: map<Pid, Node>, low: map<Pid, Bytes>, root: Pid)

  ghost predicate Under(k: Bytes, high: Option<Bytes>) {
    high.Some? ==> Less(k, high.value)
  }

  ghost predicate Inside(k: Bytes, low: Bytes, high: Option<Bytes>) {
    Leq(low, k) && Under(k, high)
  }

  /** k belongs to page p. */
  ghost predicate Covers(t: Tree, p: Pid, k: Bytes)
    requires p in t.nodes && p in t.low
  {
    Inside(k, t.low[p], t.nodes[p].high)
  }

  /** The separator above a page equals the page's own low fence, and the page is one level down. */
  ghost predicate ChildOk(t: Tree, level: nat, e: Entry) {
    e.child in t.nodes && e.child in t.low && t.nodes[e.child].level + 1 == level && t.low[e.child] == e.key
  }

  ghost predicate LinkOk(t: Tree, n: Node) {
    && (n.high.None? <==> n.rlink.None?)
    && (n.rlink.Some? ==>
          && n.rlink.value in t.nodes && n.rlink.value in t.low
          && t.nodes[n.rlink.value].level == n.level
          && t.low[n.rlink.value] == n.high.value)
  }

  /** What a page must look like, apart from where its children and its link lead. */
  ghost predicate RangeOk(n: Node, low: Bytes) {
    && Sorted(n.entries)
    && Under(low, n.high)
    && (forall e | e in n.entries :: Inside(e.key, low, n.high))
    && (n.level > 0 ==> n.entries != [] && n.entries[0].key == low)
  }

  /** The entries of an inner page lead to its children; those of a leaf lead nowhere. */
  ghost predicate ChildrenOk(t: Tree, n: Node) {
    && (n.level > 0 ==> forall e | e in n.entries :: ChildOk(t, n.level, e))
    && (n.level == 0 ==> forall e | e in n.entries :: e.child == 0)
  }

  ghost predicate NodeOk(t: Tree, p: Pid)
    requires p in t.nodes && p in t.low
  {
    RangeOk(t.nodes[p], t.low[p]) && LinkOk(t, t.nodes[p]) && ChildrenOk(t, t.nodes[p])
  }

  /** The ranges of two pages of one level do not overlap. */
  ghost predicate Apart(t: Tree, p: Pid, q: Pid)
    requires p in t.nodes && q in t.nodes && p in t.low && q in t.low
  {
    || (t.nodes[p].high.Some? && Leq(t.nodes[p].high.value, t.low[q]))
    || (t.nodes[q].high.Some? && Leq(t.nodes[q].high.value, t.low[p]))
  }

  ghost predicate TreeOk(t: Tree) {
    && t.nodes.Keys == t.low.Keys
    && t.root in t.nodes && t.low[t.root] == [] && 0 !in t.nodes
    && (forall p | p in t.nodes :: NodeOk(t, p))
    && (forall p | p in t.nodes :: t.nodes[p].level <= t.nodes[t.root].level)
    && (forall p, q | p in t.nodes && q in t.nodes && p != q && t.nodes[p].level == t.nodes[q].level :: Apart(t, p, q))
  }

  /** A page number that can be given to a new page; 0 is no page. */
  ghost predicate Fresh(t: Tree, p: Pid) {
    p != 0 && p !in t.nodes
  }

  /** Some inner page has an entry that leads to q. */
  ghost predicate Referenced(t: Tree, q: Pid) {
    exists p, e :: p in t.nodes && t.nodes[p].level > 0 && e in t.nodes[p].entries && e.child == q
  }

  /** Some leaf holds k. */
  ghost predicate Has(t: Tree, k: Bytes) {
    exists p, e :: p in t.nodes && t.nodes[p].level == 0 && e in t.nodes[p].entries && e.key == k
  }

  ghost function Contents(t: Tree): iset<Bytes> {
    iset k | Has(t, k)
  }

  // ---- the page operations on the tree ----

  function Put(t: Tree, p: Pid, e: Entry): Tree
    requires p in t.nodes
  {
    t.(nodes := t.nodes[p := InsertEntry(t.nodes[p], e)])
  }

  function SplitPut(t: Tree, p: Pid, sp: nat, q: Pid, e: Entry): Tree
    requires p in t.nodes && 1 <= sp < |t.nodes[p].entries|
  {
    var s := SplitAt(t.nodes[p], sp, q, e);
    t.(nodes := t.nodes[p := s.left][q := s.right], low := t.low[q := s.sentinel])
  }

  function NewRoot(t: Tree, r: Pid, sep: Bytes, child: Pid): Tree
    requires t.root in t.nodes
  {
    var level := t.nodes[t.root].level + 1;
    t.(nodes := t.nodes[r := RootNode(level, sep, t.root, child)], low := t.low[r := []], root := r)
  }

  function Remove(t: Tree, p: Pid, i: nat): Tree
    requires p in t.nodes && i < |t.nodes[p].entries|
  {
    t.(nodes := t.nodes[p := DeleteAt(t.nodes[p], i)])
  }

  /** The same pages are still there, at the same levels and with the same low fences. */
  ghost predicate Grown(t: Tree, u: Tree) {
    && t.nodes.Keys <= u.nodes.Keys && t.low.Keys <= u.low.Keys
    && (forall p | p in t.nodes :: u.nodes[p].level == t.nodes[p].level)
    && (forall p | p in t.low :: u.low[p] == t.low[p])
  }

  // ---- which entries a page may receive ----

  /** A leaf takes a key it does not hold; an inner page takes the low fence of a page nobody leads to yet. */
  ghost predicate Admissible(t: Tree, p: Pid, e: Entry)
    requires p in t.nodes && p in t.low
  {
    && Covers(t, p, e.key)
    && (t.nodes[p].level == 0 ==> !HasKey(t.nodes[p].entries, e.key) && e.child == 0)
    && (t.nodes[p].level > 0 ==> ChildOk(t, t.nodes[p].level, e) && !Referenced(t, e.child))
  }

  lemma TreeKeys(t: Tree)
    requires TreeOk(t)
    ensures t.nodes.Keys == t.low.Keys && t.root in t.nodes && t.low[t.root] == []
  {
  }

  lemma NodeFacts(t: Tree, p: Pid)
    requires TreeOk(t) && p in t.nodes
    ensures p in t.low && RangeOk(t.nodes[p], t.low[p]) && LinkOk(t, t.nodes[p]) && ChildrenOk(t, t.nodes[p])
  {
    assert NodeOk(t, p);
  }

  lemma EntryCovered(t: Tree, p: Pid, e: Entry)
    requires TreeOk(t) && p in t.nodes && e in t.nodes[p].entries
    ensures p in t.low && Covers(t, p, e.key)
  {
    assert NodeOk(t, p);
  }

  lemma LowsDistinct(t: Tree, p: Pid, q: Pid)
    requires TreeOk(t) && p in t.nodes && q in t.nodes
    requires t.nodes[p].level == t.nodes[q].level && t.low[p] == t.low[q]
    ensures p == q
  {
    assert p != q ==> Apart(t, p, q);
    assert NodeOk(t, p) && NodeOk(t, q);
  }

  lemma AdmissibleIsNew(t: Tree, p: Pid, e: Entry)
    requires TreeOk(t) && p in t.nodes && Admissible(t, p, e)
    ensures !HasKey(t.nodes[p].entries, e.key)
    ensures t.nodes[p].level > 0 ==> Less(t.low[p], e.key)
  {
    var n := t.nodes[p];
    assert NodeOk(t, p);
    if n.level > 0 {
      forall x | x in n.entries ensures x.key != e.key {
        assert ChildOk(t, n.level, x);
        assert Referenced(t, x.child);
        if x.key == e.key {
          LowsDistinct(t, x.child, e.child);
        }
      }
      assert n.entries[0] in n.entries;
      if Rank(t.low[p]) == Rank(e.key) {
        RankInjective(t.low[p], e.key);
      }
    }
  }

  lemma InsertRangeOk(n: Node, low: Bytes, e: Entry)
    requires RangeOk(n, low) && Inside(e.key, low, n.high) && !HasKey(n.entries, e.key)
    ensures RangeOk(InsertEntry(n, e), low)
  {
    InsertSeqSorted(n.entries, e);
    InsertSeqMembers(n.entries, e);
    if n.level > 0 {
      assert n.entries[0] in n.entries;
      if Rank(low) == Rank(e.key) {
        RankInjective(low, e.key);
      }
      assert LowerBound(n.entries, e.key) > 0;
    }
  }

  lemma HalvesRangeOk(n: Node, low: Bytes, sp: nat, q: Pid)
    requires RangeOk(n, low) && 1 <= sp < |n.entries|
    ensures var h := Halves(n, sp, q);
            RangeOk(h.left, low) && RangeOk(h.right, h.sentinel) && Less(low, h.sentinel) && Under(h.sentinel, n.high)
  {
    assert n.entries[0] in n.entries && n.entries[sp] in n.entries;
    assert Less(n.entries[0].key, n.entries[sp].key);
    var h := Halves(n, sp, q);
    forall e | e in h.left.entries ensures Inside(e.key, low, h.left.high) {
      var i :| 0 <= i < sp && n.entries[i] == e;
    }
    forall e | e in h.right.entries ensures Inside(e.key, h.sentinel, n.high) {
      var i :| sp <= i < |n.entries| && n.entries[i] == e;
    }
  }

  /** Splitting keeps the meaning of the page: the two halves hold the old entries and the new one,
      everything left of the sentinel is below it, everything right of it is not. */
  lemma SplitKeepsEntries(n: Node, low: Bytes, sp: nat, q: Pid, e: Entry)
    requires RangeOk(n, low) && 1 <= sp < |n.entries|
    requires Inside(e.key, low, n.high) && !HasKey(n.entries, e.key)
    ensures var s := SplitAt(n, sp, q, e);
            && s.left.entries + s.right.entries == InsertSeq(n.entries, e)
            && RangeOk(s.left, low) && RangeOk(s.right, s.sentinel)
            && s.left.high == Some(s.sentinel) && s.left.rlink == Some(q)
            && s.right.high == n.high && s.right.rlink == n.rlink
            && s.left.level == s.right.level == n.level
            && Less(low, s.sentinel) && Under(s.sentinel, n.high)
            && s.left.entries != [] && s.right.entries != []
  {
    hide Rank, Used, Footprint, CalcHeap, LowerBound, InsertSeq;
    HalvesRangeOk(n, low, sp, q);
    var h := Halves(n, sp, q);
    assert n.entries == h.left.entries + h.right.entries;
    forall x | x in h.left.entries || x in h.right.entries ensures x in n.entries {
    }
    InsertSeqAppend(h.left.entries, h.right.entries, e);
    if Leq(h.sentinel, e.key) {
      InsertRangeOk(h.right, h.sentinel, e);
    } else {
      InsertRangeOk(h.left, low, e);
    }
  }

  lemma SplitSentinel(n: Node, sp: nat, q: Pid, e: Entry)
    requires 1 <= sp < |n.entries|
    ensures SplitAt(n, sp, q, e).sentinel == n.entries[sp].key && n.entries[sp] in n.entries
  {
  }

  lemma InsertSeqAppend(a: seq<Entry>, b: seq<Entry>, e: Entry)
    requires Sorted(a + b) && b != []
    ensures Leq(b[0].key, e.key) ==> a + InsertSeq(b, e) == InsertSeq(a + b, e)
    ensures !Leq(b[0].key, e.key) ==> InsertSeq(a, e) + b == InsertSeq(a + b, e)
  {
    hide LowerBound, Rank;
    LowerBoundAppend(a, b, e.key);
    if Leq(b[0].key, e.key) {
      assert a + InsertSeq(b, e) == InsertSeq(a + b, e);
    } else {
      assert InsertSeq(a, e) + b == InsertSeq(a + b, e);
    }
  }

  lemma SplitMembers(n: Node, low: Bytes, sp: nat, q: Pid, e: Entry)
    requires RangeOk(n, low) && 1 <= sp < |n.entries|
    requires Inside(e.key, low, n.high) && !HasKey(n.entries, e.key)
    ensures var s := SplitAt(n, sp, q, e);
            forall x :: x in s.left.entries || x in s.right.entries <==> x == e || x in n.entries
  {
    hide InsertSeq, SplitAt;
    SplitKeepsEntries(n, low, sp, q, e);
    InsertSeqMembers(n.entries, e);
    var s := SplitAt(n, sp, q, e);
    assert forall x :: x in s.left.entries + s.right.entries <==> x in s.left.entries || x in s.right.entries;
  }

  lemma {:induction false} LowerBoundAppend(a: seq<Entry>, b: seq<Entry>, k: Bytes)
    requires Sorted(a + b) && b != []
    ensures LowerBound(a + b, k) == if Leq(b[0].key, k) then |a| + LowerBound(b, k) else LowerBound(a, k)
  {
    if a == [] {
      assert a + b == b;
    } else {
      assert (a + b)[0] == a[0] && (a + b)[|a|] == b[0];
      assert (a + b)[1..] == a[1..] + b;
      LowerBoundAppend(a[1..], b, k);
    }
  }

  // ---- invariant preservation ----

  lemma LinkOkGrows(t: Tree, u: Tree, n: Node)
    requires LinkOk(t, n) && Grown(t, u)
    ensures LinkOk(u, n)
  {
  }

  lemma ChildrenOkGrows(t: Tree, u: Tree, n: Node)
    requires ChildrenOk(t, n) && Grown(t, u)
    ensures ChildrenOk(u, n)
  {
    forall c | c in n.entries && n.level > 0 ensures ChildOk(u, n.level, c) {
      assert ChildOk(t, n.level, c);
    }
  }

  lemma NodeOkGrows(t: Tree, u: Tree, n: Node)
    requires LinkOk(t, n) && ChildrenOk(t, n) && Grown(t, u)
    ensures LinkOk(u, n) && ChildrenOk(u, n)
  {
    LinkOkGrows(t, u, n);
    ChildrenOkGrows(t, u, n);
  }

  lemma ChildrenOkRemove(t: Tree, n: Node, i: nat)
    requires ChildrenOk(t, n) && i < |n.entries|
    ensures ChildrenOk(t, DeleteAt(n, i))
  {
    forall c | c in DeleteAt(n, i).entries ensures c in n.entries {
    }
  }

  lemma ChildrenOkInsert(t: Tree, n: Node, e: Entry)
    requires ChildrenOk(t, n) && (if n.level > 0 then ChildOk(t, n.level, e) else e.child == 0)
    ensures ChildrenOk(t, InsertEntry(n, e))
  {
    InsertSeqMembers(n.entries, e);
  }

  lemma ChildrenOkSplit(t: Tree, n: Node, sp: nat, q: Pid, e: Entry)
    requires ChildrenOk(t, n) && (if n.level > 0 then ChildOk(t, n.level, e) else e.child == 0) && 1 <= sp < |n.entries|
    ensures var s := SplitAt(n, sp, q, e); ChildrenOk(t, s.left) && ChildrenOk(t, s.right)
  {
    var h := Halves(n, sp, q);
    assert ChildrenOk(t, h.left) && ChildrenOk(t, h.right);
    ChildrenOkInsert(t, h.left, e);
    ChildrenOkInsert(t, h.right, e);
  }

  lemma AdmissibleChildren(t: Tree, p: Pid, e: Entry)
    requires p in t.nodes && p in t.low && Admissible(t, p, e)
    ensures if t.nodes[p].level > 0 then ChildOk(t, t.nodes[p].level, e) else e.child == 0
  {
  }

  lemma AdmissibleCovers(t: Tree, p: Pid, e: Entry)
    requires p in t.nodes && p in t.low && Admissible(t, p, e)
    ensures Inside(e.key, t.low[p], t.nodes[p].high)
  {
  }

  lemma PutKeepsTree(t: Tree, p: Pid, e: Entry)
    requires TreeOk(t) && p in t.nodes && Admissible(t, p, e)
    ensures TreeOk(Put(t, p, e)) && Grown(t, Put(t, p, e))
  {
    hide InsertSeq, CmpFull, Rank, Sorted, ChildrenOk, CalcHeap, RangeOk, Admissible;
    AdmissibleChildren(t, p, e);
    AdmissibleCovers(t, p, e);
    var u := Put(t, p, e);
    assert NodeOk(t, p);
    AdmissibleIsNew(t, p, e);
    InsertRangeOk(t.nodes[p], t.low[p], e);
    ChildrenOkInsert(t, t.nodes[p], e);
    forall x | x in u.nodes ensures NodeOk(u, x) {
      assert NodeOk(t, x);
      NodeOkGrows(t, u, u.nodes[x]);
    }
    forall x, y | x in u.nodes && y in u.nodes && x != y && u.nodes[x].level == u.nodes[y].level
      ensures Apart(u, x, y)
    {
      assert Apart(t, x, y);
    }
  }

  lemma SplitPutKeepsTree(t: Tree, p: Pid, sp: nat, q: Pid, e: Entry)
    requires TreeOk(t) && p in t.nodes && Admissible(t, p, e) && Fresh(t, q)
    requires 1 <= sp < |t.nodes[p].entries|
    ensures TreeOk(SplitPut(t, p, sp, q, e)) && Grown(t, SplitPut(t, p, sp, q, e))
    ensures Less(t.low[p], SplitPut(t, p, sp, q, e).low[q])
  {
    hide SplitAt, CmpFull, Rank, Sorted, ChildrenOk, Apart, RangeOk, LinkOk, Admissible;
    var u := SplitPut(t, p, sp, q, e);
    var n := t.nodes[p];
    assert NodeOk(t, p);
    AdmissibleChildren(t, p, e);
    AdmissibleIsNew(t, p, e);
    assert Inside(e.key, t.low[p], n.high) by { AdmissibleCovers(t, p, e); }
    SplitKeepsEntries(n, t.low[p], sp, q, e);
    ChildrenOkSplit(t, n, sp, q, e);
    forall x | x in u.nodes ensures NodeOk(u, x) {
      assert x != p && x != q ==> NodeOk(t, x);
      ChildrenOkGrows(t, u, u.nodes[x]);
      SplitLinks(t, u, p, q, x);
    }
    SplitPutApart(t, p, sp, q, e);
  }

  lemma SplitLinks(t: Tree, u: Tree, p: Pid, q: Pid, x: Pid)
    requires p in t.nodes && Fresh(t, q) && q in u.nodes && q in u.low && p in u.nodes && Grown(t, u)
    requires u.nodes[p].level == u.nodes[q].level == t.nodes[p].level && LinkOk(t, t.nodes[p])
    requires u.nodes[p].high == Some(u.low[q]) && u.nodes[p].rlink == Some(q)
    requires u.nodes[q].high == t.nodes[p].high && u.nodes[q].rlink == t.nodes[p].rlink
    requires x in u.nodes && (x != p && x != q ==> x in t.nodes && u.nodes[x] == t.nodes[x] && LinkOk(t, t.nodes[x]))
    ensures LinkOk(u, u.nodes[x])
  {
  }

  lemma SplitPutApart(t: Tree, p: Pid, sp: nat, q: Pid, e: Entry)
    requires TreeOk(t) && p in t.nodes && Fresh(t, q) && 1 <= sp < |t.nodes[p].entries|
    requires var s := SplitAt(t.nodes[p], sp, q, e);
             && s.left.high == Some(s.sentinel) && s.right.high == t.nodes[p].high
             && s.left.level == s.right.level == t.nodes[p].level
             && Less(t.low[p], s.sentinel) && Under(s.sentinel, t.nodes[p].high)
    ensures var u := SplitPut(t, p, sp, q, e);
            forall x, y | x in u.nodes && y in u.nodes && x != y && u.nodes[x].level == u.nodes[y].level ::
              Apart(u, x, y)
  {
    hide SplitAt, CmpFull, Rank, NodeOk, ChildOk;
    var u := SplitPut(t, p, sp, q, e);
    forall x, y | x in u.nodes && y in u.nodes && x != y && u.nodes[x].level == u.nodes[y].level
      ensures Apart(u, x, y)
    {
      if x == q || y == q {
        var z := if x == q then y else x;
        assert z != p ==> Apart(t, p, z);
      } else {
        assert Apart(t, x, y);
      }
    }
  }

  lemma NewRootKeepsTree(t: Tree, r: Pid, sep: Bytes, child: Pid)
    requires TreeOk(t) && Fresh(t, r) && child in t.nodes && child != t.root
    requires t.nodes[child].level == t.nodes[t.root].level && t.low[child] == sep
    ensures TreeOk(NewRoot(t, r, sep, child)) && Grown(t, NewRoot(t, r, sep, child))
  {
    hide CmpFull, CalcHeap, RangeOk, LinkOk, ChildrenOk;
    var u := NewRoot(t, r, sep, child);
    if sep == [] {
      LowsDistinct(t, t.root, child);
    }
    assert Less([], sep);
    NewRootLevel(t, r, sep, child);
    forall x | x in u.nodes && x != r ensures NodeOk(u, x) {
      assert NodeOk(t, x);
      NodeOkGrows(t, u, u.nodes[x]);
    }
    forall x, y | x in u.nodes && y in u.nodes && x != y && u.nodes[x].level == u.nodes[y].level
      ensures Apart(u, x, y)
    {
      assert x != r && y != r;
      assert Apart(t, x, y);
    }
  }

  lemma RootNodeOk(u: Tree, r: Pid, sep: Bytes, root: Pid, child: Pid)
    requires r in u.nodes && r in u.low && u.low[r] == [] && Less([], sep) && u.nodes[r].level > 0
    requires u.nodes[r] == RootNode(u.nodes[r].level, sep, root, child)
    requires ChildOk(u, u.nodes[r].level, Entry([], root)) && ChildOk(u, u.nodes[r].level, Entry(sep, child))
    ensures NodeOk(u, r)
  {
    hide CmpFull, CalcHeap, ChildOk;
  }

  /** The new root is a page as it should be, alone on its level. */
  lemma NewRootLevel(t: Tree, r: Pid, sep: Bytes, child: Pid)
    requires TreeOk(t) && Fresh(t, r) && child in t.nodes && child != t.root && Less([], sep)
    requires t.nodes[child].level == t.nodes[t.root].level && t.low[child] == sep
    ensures var u := NewRoot(t, r, sep, child);
      && r in u.nodes && r in u.low && NodeOk(u, r)
      && forall x | x in t.nodes :: x in u.nodes && u.nodes[x].level < u.nodes[r].level
  {
    hide CmpFull, CalcHeap, NodeOk, Apart;
    var u := NewRoot(t, r, sep, child);
    assert ChildOk(u, u.nodes[r].level, u.nodes[r].entries[0]) && ChildOk(u, u.nodes[r].level, u.nodes[r].entries[1]);
    assert NodeOk(u, r) by { RootNodeOk(u, r, sep, t.root, child); }
  }

  lemma RemoveRangeOk(n: Node, low: Bytes, i: nat)
    requires RangeOk(n, low) && n.level == 0 && i < |n.entries|
    ensures RangeOk(DeleteAt(n, i), low)
  {
    forall c | c in DeleteAt(n, i).entries ensures c in n.entries {
    }
  }

  lemma RemoveKeepsTree(t: Tree, p: Pid, i: nat)
    requires TreeOk(t) && p in t.nodes && t.nodes[p].level == 0 && i < |t.nodes[p].entries|
    ensures TreeOk(Remove(t, p, i)) && Grown(t, Remove(t, p, i))
  {
    hide ChildrenOk, Rank, RangeOk;
    var u := Remove(t, p, i);
    assert NodeOk(t, p);
    ChildrenOkRemove(t, t.nodes[p], i);
    RemoveRangeOk(t.nodes[p], t.low[p], i);
    forall x | x in u.nodes ensures NodeOk(u, x) {
      assert NodeOk(t, x);
      NodeOkGrows(t, u, u.nodes[x]);
    }
    forall x, y | x in u.nodes && y in u.nodes && x != y && u.nodes[x].level == u.nodes[y].level
      ensures Apart(u, x, y)
    {
      assert Apart(t, x, y);
    }
  }

  // ---- what the operations do to the set of keys ----

  lemma PutContents(t: Tree, p: Pid, e: Entry)
    requires TreeOk(t) && p in t.nodes && Admissible(t, p, e)
    ensures Contents(Put(t, p, e)) == if t.nodes[p].level == 0 then Contents(t) + iset{e.key} else Contents(t)
  {
    hide TreeOk, Admissible, InsertSeq, CalcHeap;
    var u := Put(t, p, e);
    InsertSeqMembers(t.nodes[p].entries, e);
    forall k ensures Has(u, k) <==> Has(t, k) || (t.nodes[p].level == 0 && k == e.key) {
      if Has(t, k) {
        var x, c :| x in t.nodes && t.nodes[x].level == 0 && c in t.nodes[x].entries && c.key == k;
        assert x in u.nodes && u.nodes[x].level == 0 && c in u.nodes[x].entries;
      }
      if t.nodes[p].level == 0 && k == e.key {
        assert p in u.nodes && e in u.nodes[p].entries;
      }
    }
  }

  lemma AdmissibleSplitMembers(t: Tree, p: Pid, sp: nat, q: Pid, e: Entry)
    requires TreeOk(t) && p in t.nodes && Admissible(t, p, e) && 1 <= sp < |t.nodes[p].entries|
    ensures var s := SplitAt(t.nodes[p], sp, q, e);
            && s.left.level == s.right.level == t.nodes[p].level
            && forall x :: x in s.left.entries || x in s.right.entries <==> x == e || x in t.nodes[p].entries
  {
    assert NodeOk(t, p);
    AdmissibleIsNew(t, p, e);
    SplitKeepsEntries(t.nodes[p], t.low[p], sp, q, e);
    SplitMembers(t.nodes[p], t.low[p], sp, q, e);
  }

  lemma SplitPutContents(t: Tree, p: Pid, sp: nat, q: Pid, e: Entry)
    requires TreeOk(t) && p in t.nodes && Admissible(t, p, e) && Fresh(t, q)
    requires 1 <= sp < |t.nodes[p].entries|
    ensures Contents(SplitPut(t, p, sp, q, e)) == if t.nodes[p].level == 0 then Contents(t) + iset{e.key} else Contents(t)
  {
    hide SplitAt, TreeOk, Admissible;
    AdmissibleSplitMembers(t, p, sp, q, e);
    var u := SplitPut(t, p, sp, q, e);
    var s := SplitAt(t.nodes[p], sp, q, e);
    assert u.nodes == t.nodes[p := s.left][q := s.right];
    forall k ensures Has(u, k) <==> Has(t, k) || (t.nodes[p].level == 0 && k == e.key) {
      SplitHas(t, u, p, q, s.left, s.right, e, k);
    }
  }

  lemma SplitHas(t: Tree, u: Tree, p: Pid, q: Pid, left: Node, right: Node, e: Entry, k: Bytes)
    requires p in t.nodes && Fresh(t, q) && u.nodes == t.nodes[p := left][q := right]
    requires left.level == right.level == t.nodes[p].level
    requires forall x :: x in left.entries || x in right.entries <==> x == e || x in t.nodes[p].entries
    ensures Has(u, k) <==> Has(t, k) || (left.level == 0 && k == e.key)
  {
    if Has(t, k) {
      var x, c :| x in t.nodes && t.nodes[x].level == 0 && c in t.nodes[x].entries && c.key == k;
      var y := if x == p && c !in left.entries then q else x;
      assert y in u.nodes && u.nodes[y].level == 0 && c in u.nodes[y].entries;
    }
    if left.level == 0 && k == e.key {
      var y := if e in right.entries then q else p;
      assert y in u.nodes && u.nodes[y].level == 0 && e in u.nodes[y].entries;
    }
    if Has(u, k) {
      var x, c :| x in u.nodes && u.nodes[x].level == 0 && c in u.nodes[x].entries && c.key == k;
      var y := if x == q then p else x;
      assert (c == e && left.level == 0) || (y in t.nodes && t.nodes[y].level == 0 && c in t.nodes[y].entries);
    }
  }

  lemma NewRootContents(t: Tree, r: Pid, sep: Bytes, child: Pid)
    requires TreeOk(t) && Fresh(t, r)
    ensures Contents(NewRoot(t, r, sep, child)) == Contents(t)
  {
    var u := NewRoot(t, r, sep, child);
    forall k ensures Has(u, k) <==> Has(t, k) {
      if Has(t, k) {
        var x, c :| x in t.nodes && t.nodes[x].level == 0 && c in t.nodes[x].entries && c.key == k;
        assert x in u.nodes && c in u.nodes[x].entries;
      }
    }
  }

  lemma DeleteMembers(n: Node, low: Bytes, i: nat)
    requires RangeOk(n, low) && i < |n.entries|
    ensures DeleteAt(n, i).level == n.level
    ensures forall c :: c in DeleteAt(n, i).entries <==> c in n.entries && c != n.entries[i]
  {
    hide Rank;
    var es, d := n.entries, DeleteAt(n, i).entries;
    forall c ensures c in d <==> c in es && c != es[i] {
      if c in es && c != es[i] {
        var j :| 0 <= j < |es| && es[j] == c;
        assert c == if j < i then d[j] else d[j - 1];
      }
      if c in d {
        var j :| 0 <= j < |d| && d[j] == c;
        var m := if j < i then j else j + 1;
        assert c == es[m];
        SortedApart(es, i, m);
      }
    }
  }

  lemma SortedApart(es: seq<Entry>, i: nat, j: nat)
    requires Sorted(es) && i < |es| && j < |es| && i != j
    ensures es[i] != es[j]
  {
    if i < j {
      assert Less(es[i].key, es[j].key);
    } else {
      assert Less(es[j].key, es[i].key);
    }
  }

  lemma RemoveContents(t: Tree, p: Pid, i: nat)
    requires TreeOk(t) && p in t.nodes && t.nodes[p].level == 0 && i < |t.nodes[p].entries|
    ensures Contents(Remove(t, p, i)) == Contents(t) - iset{t.nodes[p].entries[i].key}
  {
    hide DeleteAt, Sorted, TreeOk, Covers;
    var u := Remove(t, p, i);
    var n := t.nodes[p];
    NodeFacts(t, p);
    DeleteMembers(n, t.low[p], i);
    EntryCovered(t, p, n.entries[i]);
    forall k ensures Has(u, k) <==> Has(t, k) && k != n.entries[i].key {
      if Has(t, k) && k != n.entries[i].key {
        var x, c :| x in t.nodes && t.nodes[x].level == 0 && c in t.nodes[x].entries && c.key == k;
        assert x in u.nodes && c in u.nodes[x].entries;
      }
      if Has(u, k) {
        var x, c :| x in u.nodes && u.nodes[x].level == 0 && c in u.nodes[x].entries && c.key == k;
        assert c in t.nodes[x].entries;
        EntryCovered(t, x, c);
        if k == n.entries[i].key {
          SameLeaf(t, x, p, k);
          assert c in DeleteAt(n, i).entries;
          SortedUnique(n.entries, c, n.entries[i]);
        }
      }
    }
  }

  // ---- descent ----

  /** A key belongs to one page of each level only. */
  lemma SameLeaf(t: Tree, p: Pid, q: Pid, k: Bytes)
    requires TreeOk(t) && p in t.nodes && q in t.nodes && t.nodes[p].level == t.nodes[q].level
    requires Covers(t, p, k) && Covers(t, q, k)
    ensures p == q
  {
    assert p != q ==> Apart(t, p, q);
  }

  /** The pages of p's level that lie further right: what a right-walk has left. */
  ghost function RightOf(t: Tree, p: Pid): set<Pid>
    requires p in t.nodes && t.nodes.Keys == t.low.Keys
  {
    set q | q in t.nodes && t.nodes[q].level == t.nodes[p].level && Less(t.low[p], t.low[q])
  }

  lemma RightStep(t: Tree, p: Pid, k: Bytes)
    requires TreeOk(t) && p in t.nodes && HasSplit(t.nodes[p], k)
    ensures var r := t.nodes[p].rlink;
            && r.Some? && r.value in t.nodes && t.nodes[r.value].level == t.nodes[p].level
            && t.low[r.value] == t.nodes[p].high.value && Leq(t.low[r.value], k) && Less(t.low[p], t.low[r.value])
            && RightOf(t, r.value) < RightOf(t, p)
  {
    assert NodeOk(t, p);
    var r := t.nodes[p].rlink.value;
    assert r in RightOf(t, p) && r !in RightOf(t, r);
  }

  /** The child the search picks: the last entry not above k. */
  function ChildFor(n: Node, k: Bytes): Pid
    requires UpperBound(n.entries, k) > 0
  {
    n.entries[UpperBound(n.entries, k) - 1].child
  }

  lemma DownStep(t: Tree, p: Pid, k: Bytes)
    requires TreeOk(t) && p in t.nodes && t.nodes[p].level > 0 && Leq(t.low[p], k)
    ensures UpperBound(t.nodes[p].entries, k) > 0
    ensures var c := ChildFor(t.nodes[p], k);
            c in t.nodes && t.nodes[c].level + 1 == t.nodes[p].level && Leq(t.low[c], k) && Leq(t.low[p], t.low[c])
  {
    hide Rank, LowerBound, UpperBound, Used, CmpFull, MemCmp;
    var n := t.nodes[p];
    assert NodeOk(t, p);
    assert Leq(n.entries[0].key, k);
    UpperBoundPositive(n.entries, k);
    var e := n.entries[UpperBound(n.entries, k) - 1];
    assert e in n.entries && ChildOk(t, n.level, e);
  }

  /** The walk of a reader or writer: right while the fence says so, else down, until level target. */
  ghost function Descend(t: Tree, p: Pid, k: Bytes, target: nat): (leaf: Pid)
    requires TreeOk(t) && p in t.nodes && Leq(t.low[p], k) && target <= t.nodes[p].level
    ensures leaf in t.nodes && t.nodes[leaf].level == target && Covers(t, leaf, k)
    decreases t.nodes[p].level, RightOf(t, p)
  {
    if HasSplit(t.nodes[p], k) then
      RightStep(t, p, k);
      Descend(t, t.nodes[p].rlink.value, k, target)
    else if t.nodes[p].level == target then p
    else
      DownStep(t, p, k);
      Descend(t, ChildFor(t.nodes[p], k), k, target)
  }

  /** Lehman-Yao reachability: wherever a key is stored, the walk from the root ends there,
      whether or not every separator has reached its parent. */
  lemma Reachability(t: Tree, leaf: Pid, e: Entry)
    requires TreeOk(t) && leaf in t.nodes && t.nodes[leaf].level == 0 && e in t.nodes[leaf].entries
    ensures Descend(t, t.root, e.key, 0) == leaf
  {
    assert NodeOk(t, leaf);
    SameLeaf(t, Descend(t, t.root, e.key, 0), leaf, e.key);
  }
}
