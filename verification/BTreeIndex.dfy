/** The index run by one thread: the loops of BTreeIndex over pages that are bytes. It refines a set of keys; an
    insert can stop in the two ways the page layout leaves open, or when no page number is left. */
module BTreeIndex {
  import opened ByteOrder
  import opened PageLayout
  import opened LeafScan
  import opened BLinkTree
  import opened BLinkSafety
  import opened BLinkRuns
  import opened SplitSpace
  import opened PageImage
  import Order = BLinkTheorems
  import Pages = SlottedPage

  datatype UniqueOutcome = Conflict | Tried(res: Outcome)

  /** HeapWraps: the 16-bit space test said yes to an entry longer than the space below the heap. TooFewEntries: the
      split assertion failed. NoPages: a new page was needed and the assertion that there is one failed. In all these
      cases the program is past what it promises. */
  datatype Outcome = Done | HeapWraps(pid: Pid) | TooFewEntries(pid: Pid) | NoPages

  /** BUFFER_POOL_PAGE_NUM: page numbers stay below it. */
  const PAGE_LIMIT := 80000

  const SHORT_KEY := 128

  // ---- pages ----

  /** What the sequential index keeps about each page besides its place in the tree. */
  ghost predicate PageOk(n: Node, maxLen: nat) {
    && SpaceOk(n) && FenceLen(n.high, maxLen)
    && (n.level == 0 ==> LensIn(n.entries, MIN_SEPARATOR, maxLen))
    && (n.level > 0 ==>
          && n.entries != [] && LensIn(n.entries[1..], MIN_SEPARATOR, maxLen)
          && |n.entries[0].key| <= maxLen && (|n.entries[0].key| >= MIN_SEPARATOR || n.entries[0].key == [])
          && n.heap == PAGE_SIZE - Used(n.level, n.entries) - FenceUsed(n.level, n.high))
  }

  /** What an insert needs of its leaf: no wrap, and either room or something to split. */
  ghost predicate Takes(n: Node, key: Bytes) {
    |key| + EntryHeader(n.level) <= n.heap && (Fits(n, key) || |n.entries| >= 2)
  }

  lemma LensInsert(n: Node, key: Bytes, child: Pid, maxLen: nat)
    requires PageOk(n, maxLen) && MIN_SEPARATOR <= |key| <= maxLen
    requires n.level > 0 ==> Less(n.entries[0].key, key)
    ensures var r := InsertSeq(n.entries, Entry(key, child));
            && (n.level == 0 ==> LensIn(r, MIN_SEPARATOR, maxLen))
            && (n.level > 0 ==> r != [] && r[0] == n.entries[0] && LensIn(r[1..], MIN_SEPARATOR, maxLen))
  {
    hide Used, Rank;
    var e := Entry(key, child);
    InsertSeqMembers(n.entries, e);
    if n.level > 0 {
      var i := LowerBound(n.entries, key);
      assert i > 0;
      assert InsertSeq(n.entries, e)[1..] == n.entries[1..i] + [e] + n.entries[i..];
      assert n.entries[1..] == n.entries[1..i] + n.entries[i..];
      forall x | x in InsertSeq(n.entries, e)[1..] ensures x == e || x in n.entries[1..] {
        assert x in n.entries[1..i] || x == e || x in n.entries[i..];
      }
    }
  }

  lemma InsertPageOk(n: Node, key: Bytes, child: Pid, maxLen: nat)
    requires PageOk(n, maxLen) && Fits(n, key) && MIN_SEPARATOR <= |key| <= maxLen
    requires n.level > 0 ==> Less(n.entries[0].key, key)
    ensures PageOk(InsertEntry(n, Entry(key, child)), maxLen)
  {
    hide Used, Rank, InsertSeq, CalcHeap;
    LensInsert(n, key, child, maxLen);
    InsertKeepsSpace(n, Entry(key, child));
    UsedInsert(n.level, n.entries, Entry(key, child));
  }

  lemma HalvesSpace(n: Node, sp: nat, q: Pid)
    requires SpaceOk(n) && 1 <= sp < |n.entries|
    ensures var h := Halves(n, sp, q); SpaceOk(h.left) && SpaceOk(h.right)
  {
    hide Used, Footprint;
    var a, b := n.entries[..sp], n.entries[sp..];
    assert n.entries == a + b && b == [b[0]] + b[1..];
    UsedConcat(n.level, a, b);
    UsedConcat(n.level, [b[0]], b[1..]);
    OneEntry(n.level, b[0]);
    UsedAlign(n.level, a);
    UsedAlign(n.level, b);
    AlignedHeap(n.level, Used(n.level, a), Footprint(n.level, |b[0].key|));
    AlignedHeap(n.level, Used(n.level, b), FenceUsed(n.level, n.high));
  }

  lemma AlignedHeap(level: nat, a: nat, b: nat)
    requires a % EntryAlign(level) == 0 && b % EntryAlign(level) == 0
    ensures (PAGE_SIZE - a - b) % EntryAlign(level) == 0
  {
    if level == 0 {
      assert (PAGE_SIZE - a - b) % 2 == 0;
    } else {
      assert (PAGE_SIZE - a - b) % 4 == 0;
    }
  }

  lemma AlignedSum(level: nat, a: nat, b: nat)
    requires a % EntryAlign(level) == 0 && b % EntryAlign(level) == 0
    ensures (a + b) % EntryAlign(level) == 0
  {
    hide EntryAlign;
    var n := EntryAlign(level);
    assert n == 2 || n == 4 by { AlignIs(level); }
  }

  lemma AlignIs(level: nat)
    ensures EntryAlign(level) == if level == 0 then 2 else 4
  {
  }

  lemma {:induction false} UsedAlign(level: nat, entries: seq<Entry>)
    ensures Used(level, entries) % EntryAlign(level) == 0
  {
    hide Footprint;
    if entries != [] {
      UsedAlign(level, entries[1..]);
      AlignedSum(level, Footprint(level, |entries[0].key|), Used(level, entries[1..]));
    }
  }

  lemma HalvesPageOk(n: Node, sp: nat, q: Pid, maxLen: nat)
    requires PageOk(n, maxLen) && 1 <= sp < |n.entries|
    ensures var h := Halves(n, sp, q);
            PageOk(h.left, maxLen) && PageOk(h.right, maxLen) && MIN_SEPARATOR <= |h.sentinel| <= maxLen
  {
    hide Used, Footprint;
    HalvesSpace(n, sp, q);
    var h := Halves(n, sp, q);
    assert n.level > 0 ==> n.entries[sp] == n.entries[1..][sp - 1];
    assert n.entries[sp] in n.entries;
    forall e | e in h.left.entries || e in h.right.entries ensures e in n.entries {
    }
    if n.level > 0 {
      forall e | e in h.left.entries[1..] ensures e in n.entries[1..] {
        var i :| 0 <= i < |h.left.entries[1..]| && h.left.entries[1..][i] == e;
        assert e == n.entries[1..][i];
      }
      forall e | e in h.right.entries ensures e in n.entries[1..] {
        var i :| 0 <= i < |h.right.entries| && h.right.entries[i] == e;
        assert e == n.entries[1..][sp - 1 + i];
      }
    }
  }

  /** A rejected entry leaves two pages that are in order, with the entry in. */
  lemma SplitPageOk(n: Node, q: Pid, key: Bytes, child: Pid, maxLen: nat)
    requires PageOk(n, maxLen) && |n.entries| >= 2 && MIN_SEPARATOR <= |key| <= maxLen < MAX_ROW_SIZE
    requires !HasSpace(n, key) && !HasKey(n.entries, key) && (n.level > 0 ==> Less(n.entries[0].key, key))
    ensures var s := SplitAt(n, FindSplitPoint(n.entries), q, Entry(key, child));
            PageOk(s.left, maxLen) && PageOk(s.right, maxLen) && MIN_SEPARATOR <= |s.sentinel| <= maxLen
  {
    hide Used, Footprint, HasSpace, FindSplitPoint, InsertEntry, Rank, CmpFull;
    var sp := FindSplitPoint(n.entries);
    var h := Halves(n, sp, q);
    HalvesPageOk(n, sp, q, maxLen);
    if n.level == 0 {
      LeafHalvesFit(n, q, key);
    } else {
      InnerHalvesFit(n, q, key);
    }
    assert h.left.entries[0] == n.entries[0] && h.right.entries[0].key == h.sentinel;
    if Leq(h.sentinel, key) {
      assert n.entries[sp] in n.entries;
      NotEqualLess(h.sentinel, key);
      InsertPageOk(h.right, key, child, maxLen);
    } else {
      InsertPageOk(h.left, key, child, maxLen);
    }
  }

  lemma NotEqualLess(a: Bytes, b: Bytes)
    requires Leq(a, b) && a != b
    ensures Less(a, b)
  {
    assert CmpFull(a, b) != 0;
  }

  /** Inner pages hold no dead entries, so one that is out of room can be split. */
  lemma InnerSplits(n: Node, key: Bytes, maxLen: nat)
    requires PageOk(n, maxLen) && n.level > 0 && |key| <= maxLen < MAX_ROW_SIZE && !HasSpace(n, key)
    ensures |n.entries| >= 2
  {
    if |n.entries| == 1 {
      assert n.entries == [n.entries[0]];
      OneEntry(n.level, n.entries[0]);
      CalcHeapExact(n.level, n.heap, |key|);
    }
  }

  lemma {:induction false} UsedBound(level: nat, entries: seq<Entry>)
    requires level > 0 && LensIn(entries, 0, SHORT_KEY)
    ensures Used(level, entries) <= 136 * |entries|
  {
    if entries != [] {
      assert entries[0] in entries;
      UsedBound(level, entries[1..]);
    }
  }

  /** With keys of at most 128 bytes an inner page runs out of slots before the subtraction can wrap. */
  lemma ShortSeparatorsDoNotWrap(n: Node, key: Bytes, maxLen: nat)
    requires PageOk(n, maxLen) && n.level > 0 && |key| <= maxLen <= SHORT_KEY
    ensures |key| + EntryHeader(n.level) <= n.heap
  {
    hide Used;
    assert n.entries == [n.entries[0]] + n.entries[1..];
    forall e | e in n.entries ensures |e.key| <= SHORT_KEY {
      assert e in n.entries[1..] || e == n.entries[0];
    }
    UsedBound(n.level, n.entries);
  }

  lemma RootPageOk(level: nat, key: Bytes, pid: Pid, newPid: Pid, maxLen: nat)
    requires level > 0 && MIN_SEPARATOR <= |key| <= maxLen < MAX_ROW_SIZE
    ensures PageOk(RootNode(level, key, pid, newPid), maxLen)
  {
    var n := RootNode(level, key, pid, newPid);
    CalcHeapExact(level, PAGE_SIZE, 0);
    CalcHeapExact(level, PAGE_SIZE - Footprint(level, 0), |key|);
    assert n.entries == [n.entries[0]] + [n.entries[1]];
    UsedConcat(level, [n.entries[0]], [n.entries[1]]);
    OneEntry(level, n.entries[0]);
    OneEntry(level, n.entries[1]);
  }

  // ---- the index between and during operations ----

  ghost predicate PagesOk(t: Tree, maxLen: nat) {
    forall p | p in t.nodes :: PageOk(t.nodes[p], maxLen)
  }

  /** Every page but the root has a parent. */
  ghost predicate Settled(t: Tree) {
    forall p | p in t.nodes :: p == t.root || Referenced(t, p)
  }

  /** Every page but the root and q has a parent; q has none. */
  ghost predicate Unsettled(t: Tree, q: Pid) {
    && !Referenced(t, q) && q != t.root
    && forall p | p in t.nodes && p != q :: p == t.root || Referenced(t, p)
  }

  ghost predicate IndexOk(t: Tree, nextPid: Pid, space: iset<Bytes>, maxLen: nat) {
    && TreeOk(t) && LeavesIn(t, space) && PagesOk(t, maxLen) && maxLen < MAX_ROW_SIZE
    && nextPid <= PAGE_LIMIT && (forall p | p in t.nodes :: p < nextPid)
  }

  /** The stack ends at a page one level above the page split off, not to the right of it. */
  ghost predicate StackFor(t: Tree, stack: seq<Pid>, child: Pid, sep: Bytes) {
    && stack != [] && child in t.nodes && child in t.low && t.low[child] == sep && sep != []
    && var top := stack[|stack| - 1];
       WalkOk(t, stack[..|stack| - 1], top, sep) && t.nodes[top].level == t.nodes[child].level + 1
  }

  lemma PutIndexOk(t: Tree, p: Pid, e: Entry, nextPid: Pid, space: iset<Bytes>, maxLen: nat)
    requires IndexOk(t, nextPid, space, maxLen) && p in t.nodes && Admissible(t, p, e) && Fits(t.nodes[p], e.key)
    requires MIN_SEPARATOR <= |e.key| <= maxLen && (t.nodes[p].level == 0 ==> e.key in space && e.child == 0)
    ensures IndexOk(Put(t, p, e), nextPid, space, maxLen) && TreeStep(t, Put(t, p, e), Gain(t, p, e))
    ensures Contents(Put(t, p, e)) == if t.nodes[p].level == 0 then Contents(t) + iset{e.key} else Contents(t)
  {
    hide Contents, LeavesIn, InsertEntry, Rank, NodeOk, PageOk, Referenced;
    PutStep(t, p, e, space);
    PutContents(t, p, e);
    AdmissibleIsNew(t, p, e);
    NodeFacts(t, p);
    assert PageOk(t.nodes[p], maxLen);
    InsertPageOk(t.nodes[p], e.key, e.child, maxLen);
  }

  lemma SplitIndexOk(t: Tree, p: Pid, q: Pid, e: Entry, space: iset<Bytes>, maxLen: nat)
    requires IndexOk(t, q, space, maxLen) && q < PAGE_LIMIT && p in t.nodes && Admissible(t, p, e)
    requires !HasSpace(t.nodes[p], e.key) && |t.nodes[p].entries| >= 2
    requires MIN_SEPARATOR <= |e.key| <= maxLen && (t.nodes[p].level == 0 ==> e.key in space && e.child == 0)
    ensures var u := SplitPut(t, p, FindSplitPoint(t.nodes[p].entries), q, e);
            && IndexOk(u, q + 1, space, maxLen) && TreeStep(t, u, Gain(t, p, e))
            && u.root == t.root && u.nodes.Keys == t.nodes.Keys + {q} && u.nodes[p].level == t.nodes[p].level
            && ChildAt(u, t.nodes[p].level, u.low[q], q) && Less(t.low[p], u.low[q])
            && MIN_SEPARATOR <= |u.low[q]| <= maxLen
            && Contents(u) == if t.nodes[p].level == 0 then Contents(t) + iset{e.key} else Contents(t)
  {
    hide Contents, LeavesIn, SplitAt, Rank, NodeOk, FindSplitPoint, HasSpace, PageOk, Referenced;
    var sp := FindSplitPoint(t.nodes[p].entries);
    SplitStep(t, p, sp, q, e, space);
    SplitPutContents(t, p, sp, q, e);
    AdmissibleIsNew(t, p, e);
    NodeFacts(t, p);
    assert PageOk(t.nodes[p], maxLen);
    SplitPageOk(t.nodes[p], q, e.key, e.child, maxLen);
  }

  lemma RootIndexOk(t: Tree, r: Pid, sep: Bytes, child: Pid, space: iset<Bytes>, maxLen: nat)
    requires IndexOk(t, r, space, maxLen) && r < PAGE_LIMIT && t.root in t.nodes
    requires ChildAt(t, t.nodes[t.root].level, sep, child)
    requires Unsettled(t, child) && MIN_SEPARATOR <= |sep| <= maxLen
    ensures var u := NewRoot(t, r, sep, child);
            IndexOk(u, r + 1, space, maxLen) && Settled(u) && Contents(u) == Contents(t)
  {
    hide Contents, LeavesIn, Rank, PageOk, TreeOk, RootNode, ChildAt, Grown, Shrunk, Referenced, Settled;
    NewRootStep(t, r, sep, child, space);
    NewRootContents(t, r, sep, child);
    RootPageOk(t.nodes[t.root].level + 1, sep, t.root, child, maxLen);
    RootSettles(t, NewRoot(t, r, sep, child), r, child);
  }

  lemma RootSettles(t: Tree, u: Tree, r: Pid, child: Pid)
    requires TreeStep(t, u, {t.root, child}) && Unsettled(t, child) && u.nodes.Keys == t.nodes.Keys + {r} && u.root == r
    ensures Settled(u)
  {
    hide TreeOk, Referenced, Grown, Shrunk;
    forall x | x in u.nodes ensures x == u.root || Referenced(u, x) {
      assert Referenced(u, x) <==> Referenced(t, x) || x in {t.root, child};
    }
  }

  lemma PutSettles(t: Tree, u: Tree, child: Pid)
    requires TreeStep(t, u, {child}) && Unsettled(t, child) && u.nodes.Keys == t.nodes.Keys && u.root == t.root
    ensures Settled(u)
  {
    hide TreeOk, Referenced;
  }

  /** A new page without a parent takes the place of the one that just got its own. */
  lemma SplitUnsettles(t: Tree, u: Tree, q: Pid, gain: set<Pid>)
    requires TreeOk(t) && TreeStep(t, u, gain) && u.nodes.Keys == t.nodes.Keys + {q} && u.root == t.root
      && q !in t.nodes && q !in gain
    requires (gain == {} && Settled(t)) || exists c :: gain == {c} && Unsettled(t, c)
    ensures Unsettled(u, q)
  {
    hide TreeOk;
    if Referenced(t, q) {
      ReferencedInTree(t, q);
    }
    hide Referenced;
    TreeKeys(t);
  }

  lemma RemoveIndexOk(t: Tree, p: Pid, i: nat, nextPid: Pid, space: iset<Bytes>, maxLen: nat)
    requires IndexOk(t, nextPid, space, maxLen) && Settled(t)
    requires p in t.nodes && t.nodes[p].level == 0 && i < |t.nodes[p].entries|
    ensures IndexOk(Remove(t, p, i), nextPid, space, maxLen) && Settled(Remove(t, p, i))
    ensures Contents(Remove(t, p, i)) == Contents(t) - iset{t.nodes[p].entries[i].key}
  {
    hide Contents, LeavesIn, Rank, NodeOk, DeleteAt, Referenced;
    RemoveStep(t, p, i, space);
    RemoveContents(t, p, i);
    DeleteKeepsSpace(t.nodes[p], i);
    DeleteLens(t.nodes[p], i, maxLen);
    var u := Remove(t, p, i);
    forall x | x in u.nodes ensures PageOk(u.nodes[x], maxLen) {
      assert PageOk(t.nodes[x], maxLen);
    }
  }

  lemma DeleteLens(n: Node, i: nat, maxLen: nat)
    requires PageOk(n, maxLen) && n.level == 0 && i < |n.entries|
    ensures LensIn(DeleteAt(n, i).entries, MIN_SEPARATOR, maxLen)
    ensures DeleteAt(n, i).level == 0 && DeleteAt(n, i).high == n.high
  {
  }

  // ---- which inserts go through ----

  /** The entry's insert goes through at page p: the space test does not wrap, and the page has room, or it can be
      split and is the root, or the separator of the split goes through one level up. */
  ghost predicate Absorbs(t: Tree, p: Pid, key: Bytes)
    requires TreeOk(t) && p in t.nodes
    decreases t.nodes[t.root].level - t.nodes[p].level, 0
  {
    var n := t.nodes[p];
    && |key| + EntryHeader(n.level) <= n.heap
    && (|| Fits(n, key)
        || (|n.entries| >= 2 && (p == t.root || Lifts(t, n.entries[FindSplitPoint(n.entries)].key, n.level + 1))))
  }

  /** The separator goes through at the page of the level whose range holds it. */
  ghost predicate Lifts(t: Tree, sep: Bytes, level: nat)
    requires TreeOk(t)
    decreases t.nodes[t.root].level - level, 1
  {
    level <= t.nodes[t.root].level && Absorbs(t, Descend(t, t.root, sep, level), sep)
  }

  lemma LiftsAt(t: Tree, stack: seq<Pid>, p: Pid, sep: Bytes)
    requires TreeOk(t) && WalkOk(t, stack, p, sep) && !HasSplit(t.nodes[p], sep)
    ensures Lifts(t, sep, t.nodes[p].level) == Absorbs(t, p, sep)
  {
    hide Absorbs, Rank, NodeOk, Apart;
    RootLow(t);
    SameLeaf(t, Descend(t, t.root, sep, t.nodes[p].level), p, sep);
  }

  lemma RootLow(t: Tree)
    requires TreeOk(t)
    ensures t.root in t.nodes && t.root in t.low && forall k :: Leq(t.low[t.root], k)
    ensures forall p | p in t.nodes :: p in t.low && t.nodes[p].level <= t.nodes[t.root].level
  {
  }

  /** Two trees with the same root that agree from some level on. */
  ghost predicate SameFrom(t: Tree, u: Tree, level: nat) {
    && u.root == t.root
    && (forall p | p in t.nodes && t.nodes[p].level >= level :: p in u.nodes && u.nodes[p] == t.nodes[p])
    && (forall p | p in t.low :: p in u.low && u.low[p] == t.low[p])
  }

  lemma LiftsIs(t: Tree, sep: Bytes, level: nat)
    requires TreeOk(t)
    ensures level > t.nodes[t.root].level ==> !Lifts(t, sep, level)
    ensures level <= t.nodes[t.root].level ==>
              Leq(t.low[t.root], sep) && Lifts(t, sep, level) == Absorbs(t, Descend(t, t.root, sep, level), sep)
  {
    hide TreeOk, Descend, Rank, HasSplit, Absorbs;
    RootLow(t);
  }

  lemma AbsorbsIs(t: Tree, p: Pid, key: Bytes)
    requires TreeOk(t) && p in t.nodes
    ensures var n := t.nodes[p];
      Absorbs(t, p, key) <==>
        && |key| + EntryHeader(n.level) <= n.heap
        && (|| Fits(n, key)
            || (|n.entries| >= 2 && (p == t.root || Lifts(t, n.entries[FindSplitPoint(n.entries)].key, n.level + 1))))
  {
    hide FindSplitPoint, Fits, Lifts, TreeOk, Rank, HasSplit;
  }

  lemma {:induction false} LiftsKept(t: Tree, u: Tree, sep: Bytes, level: nat)
    requires TreeOk(t) && TreeOk(u) && SameFrom(t, u, level) && level <= t.nodes[t.root].level
    ensures Lifts(t, sep, level) == Lifts(u, sep, level)
    decreases t.nodes[t.root].level - level
  {
    hide Rank, TreeOk, FindSplitPoint, Fits, Absorbs, Lifts;
    RootLow(t);
    RootLow(u);
    var p := Descend(t, t.root, sep, level);
    SameLeaf(u, Descend(u, u.root, sep, level), p, sep);
    LiftsIs(t, sep, level);
    LiftsIs(u, sep, level);
    AbsorbsIs(t, p, sep);
    AbsorbsIs(u, p, sep);
    var n := t.nodes[p];
    if |n.entries| >= 2 {
      var next := n.entries[FindSplitPoint(n.entries)].key;
      if level < t.nodes[t.root].level {
        LiftsKept(t, u, next, level + 1);
      } else {
        LiftsIs(t, next, level + 1);
        LiftsIs(u, next, level + 1);
      }
    }
  }

  /** After a split, the insert that caused it goes through just when the separator does. */
  lemma SplitLifts(t: Tree, u: Tree, p: Pid, q: Pid, e: Entry)
    requires TreeOk(t) && TreeOk(u) && p in t.nodes && |t.nodes[p].entries| >= 2 && Fresh(t, q) && Grown(t, u)
    requires u == SplitPut(t, p, FindSplitPoint(t.nodes[p].entries), q, e)
    requires |e.key| + EntryHeader(t.nodes[p].level) <= t.nodes[p].heap && !Fits(t.nodes[p], e.key)
    ensures p == t.root ==> Absorbs(t, p, e.key)
    ensures p != t.root && t.nodes[p].level < t.nodes[t.root].level ==>
              q in u.low && q in u.nodes && Absorbs(t, p, e.key) == Lifts(u, u.low[q], u.nodes[q].level + 1)
  {
    hide Rank, TreeOk, Descend, FindSplitPoint, Fits, Absorbs, Lifts, InsertEntry, CmpFull;
    var n := t.nodes[p];
    var sp := FindSplitPoint(n.entries);
    SplitSentinel(n, sp, q, e);
    AbsorbsIs(t, p, e.key);
    Order.SplitLevels(n, sp, q, e);
    RootLow(t);
    if p != t.root && n.level < t.nodes[t.root].level {
      assert SameFrom(t, u, n.level + 1);
      LiftsKept(t, u, n.entries[sp].key, n.level + 1);
    }
  }

  /** The index after a split, before the separator has gone anywhere. */
  lemma SplitFollows(t: Tree, u: Tree, stack: seq<Pid>, p: Pid, q: Pid, e: Entry, space: iset<Bytes>, maxLen: nat)
    requires IndexOk(t, q, space, maxLen) && q < PAGE_LIMIT && p in t.nodes && p in t.low
    requires PathOk(t, stack, p) && Admissible(t, p, e)
    requires !HasSpace(t.nodes[p], e.key) && |t.nodes[p].entries| >= 2
    requires MIN_SEPARATOR <= |e.key| <= maxLen && (t.nodes[p].level == 0 ==> e.key in space && e.child == 0)
    requires if t.nodes[p].level == 0 then Settled(t) else Unsettled(t, e.child)
    requires u == SplitPut(t, p, FindSplitPoint(t.nodes[p].entries), q, e)
    ensures IndexOk(u, q + 1, space, maxLen) && Unsettled(u, q)
    ensures TreeStep(t, u, Gain(t, p, e)) && u.root == t.root && p in u.nodes && u.nodes[p].level == t.nodes[p].level
    ensures ChildAt(u, t.nodes[p].level, u.low[q], q) && MIN_SEPARATOR <= |u.low[q]| <= maxLen
    ensures Less(t.low[p], u.low[q])
    ensures Contents(u) == if t.nodes[p].level == 0 then Contents(t) + iset{e.key} else Contents(t)
  {
    hide Rank, TreeOk, LeavesIn, PageOk, PagesOk, Contents, Referenced, Settled, Unsettled, Takes, InsertEntry, SplitPut,
      HasSpace, Fits, Admissible, CmpFull, FindSplitPoint, PathOk;
    InvParts(t, q, space, maxLen);
    SplitIndexOk(t, p, q, e, space, maxLen);
    GainOld(t, p, e);
    SplitUnsettles(t, u, q, Gain(t, p, e));
  }

  lemma GainOld(t: Tree, p: Pid, e: Entry)
    requires p in t.nodes && p in t.low && Admissible(t, p, e)
    ensures Gain(t, p, e) <= t.nodes.Keys
  {
  }

  /** Where the separator goes, and whether it goes through there. */
  lemma SplitGoesUp(t: Tree, u: Tree, stack: seq<Pid>, p: Pid, q: Pid, e: Entry, space: iset<Bytes>, maxLen: nat)
    requires IndexOk(t, q, space, maxLen) && q < PAGE_LIMIT && p in t.nodes && p in t.low
    requires PathOk(t, stack, p) && Admissible(t, p, e)
    requires !HasSpace(t.nodes[p], e.key) && |t.nodes[p].entries| >= 2
    requires MIN_SEPARATOR <= |e.key| <= maxLen && (t.nodes[p].level == 0 ==> e.key in space && e.child == 0)
    requires if t.nodes[p].level == 0 then Settled(t) else Unsettled(t, e.child)
    requires u == SplitPut(t, p, FindSplitPoint(t.nodes[p].entries), q, e)
    ensures TreeOk(u) && q in u.nodes && p in u.nodes && q in u.low && u.root in u.nodes && t.root in t.nodes
    ensures u.nodes[q].level == u.nodes[p].level && u.nodes[u.root].level == t.nodes[t.root].level
    ensures stack != [] ==> StackFor(u, stack, q, u.low[q])
    ensures p == t.root ==> Absorbs(t, p, e.key) && stack == []
    ensures p != t.root ==>
              && t.nodes[p].level < t.nodes[t.root].level
              && Absorbs(t, p, e.key) == Lifts(u, u.low[q], u.nodes[q].level + 1)
  {
    hide Rank, TreeOk, LeavesIn, PageOk, PagesOk, Contents, Referenced, Settled, Unsettled, Takes, InsertEntry, SplitPut,
      HasSpace, Fits, Admissible, CmpFull, Absorbs, Lifts, FindSplitPoint, Shrunk, PathOk;
    InvParts(t, q, space, maxLen);
    SplitFollows(t, u, stack, p, q, e, space, maxLen);
    InvParts(u, q + 1, space, maxLen);
    AfterFollows(t, u, p, q);
    RejectedFits(t, p, q, e.key, space, maxLen);
    PathOfSplit(t, u, stack, p, q);
    SplitLifts(t, u, p, q, e);
    if stack == [] && p != t.root {
      RootAbove(u, p, q);
    }
  }

  lemma PathOfSplit(t: Tree, u: Tree, stack: seq<Pid>, p: Pid, q: Pid)
    requires TreeOk(t) && p in t.nodes && p in t.low && PathOk(t, stack, p) && Grown(t, u) && q in u.nodes && q in u.low
    requires u.nodes[q].level == t.nodes[p].level && Less(t.low[p], u.low[q]) && u.low[q] != []
    ensures stack != [] ==> StackFor(u, stack, q, u.low[q])
    ensures stack != [] ==> p != t.root && t.root in t.nodes && t.nodes[p].level < t.nodes[t.root].level
  {
    hide TreeOk, Rank, PathOk;
    if stack != [] {
      BelowStack(t, stack, p);
      PathTop(t, u, stack, p);
    }
  }

  lemma AfterFollows(t: Tree, u: Tree, p: Pid, q: Pid)
    requires TreeOk(t) && TreeOk(u) && Grown(t, u) && p in t.nodes && p in t.low && q in u.low && u.root == t.root
    requires ChildAt(u, t.nodes[p].level, u.low[q], q) && Less(t.low[p], u.low[q])
    ensures q in u.nodes && p in u.nodes && u.root in u.nodes && t.root in t.nodes && p != q && u.low[q] != []
    ensures u.nodes[q].level == u.nodes[p].level == t.nodes[p].level
    ensures u.nodes[u.root].level == t.nodes[t.root].level
  {
    hide TreeOk, Rank;
    TreeKeys(t);
    TreeKeys(u);
    assert u.low[p] == t.low[p];
  }

  lemma PathTop(t: Tree, u: Tree, stack: seq<Pid>, p: Pid)
    requires PathOk(t, stack, p) && stack != [] && Grown(t, u) && p in t.low
    ensures var top := stack[|stack| - 1];
            && PathOk(u, stack[..|stack| - 1], top)
            && u.nodes[top].level == t.nodes[p].level + 1 && Leq(u.low[top], t.low[p])
  {
    hide Rank;
    PathKeeps(t, u, stack, p);
    PopPath(u, stack, p);
  }

  lemma RejectedFits(t: Tree, p: Pid, q: Pid, key: Bytes, space: iset<Bytes>, maxLen: nat)
    requires IndexOk(t, q, space, maxLen) && p in t.nodes && !HasSpace(t.nodes[p], key)
    requires MIN_SEPARATOR <= |key| <= maxLen
    ensures |key| + EntryHeader(t.nodes[p].level) <= t.nodes[p].heap && !Fits(t.nodes[p], key)
  {
    hide TreeOk, LeavesIn, HasSpace, Fits, PageOk;
    PageLens(t, p, q, space, maxLen);
    RejectedDoesNotWrap(t.nodes[p], key);
    HasSpaceExact(t.nodes[p], key);
  }

  // ---- walks and reads on a settled tree ----

  lemma StackRight(t: Tree, stack: seq<Pid>, cur: Pid, k: Bytes, next: Pid)
    requires TreeOk(t) && WalkOk(t, stack, cur, k) && HasSplit(t.nodes[cur], k) && t.nodes[cur].rlink == Some(next)
    ensures next in t.nodes && WalkOk(t, stack, next, k) && t.nodes[next].level == t.nodes[cur].level
    ensures Leq(t.low[cur], t.low[next]) && RightOf(t, next) < RightOf(t, cur)
  {
    hide TreeOk;
    TreeKeys(t);
    WalkRight(t, stack, cur, k);
    RightStep(t, cur, k);
  }

  /** The walk that goes right first and then descends ends where Descend ends. */
  lemma DescendCovers(t: Tree, leaf: Pid, k: Bytes)
    requires TreeOk(t) && leaf in t.nodes && t.nodes[leaf].level == 0 && Covers(t, leaf, k)
    ensures t.root in t.nodes && Leq(t.low[t.root], k) && Descend(t, t.root, k, 0) == leaf
  {
    SameLeaf(t, Descend(t, t.root, k, 0), leaf, k);
  }

  /** A walk that does not go on to the right has come to the page the key belongs to. */
  lemma WalkCovers(t: Tree, stack: seq<Pid>, leaf: Pid, k: Bytes)
    requires TreeOk(t) && WalkOk(t, stack, leaf, k) && t.nodes[leaf].level == 0 && !HasSplit(t.nodes[leaf], k)
    ensures t.root in t.nodes && Leq(t.low[t.root], k) && Descend(t, t.root, k, 0) == leaf
  {
    hide TreeOk;
    assert Covers(t, leaf, k);
    DescendCovers(t, leaf, k);
  }

  /** A reader's list after the page p: in order, and exactly the keys of q up to p's high fence. */
  ghost predicate ReadSoFar(t: Tree, q: Bytes, found: seq<Bytes>, bound: Bytes) {
    && Ascending(found) && Order.AllLess(found, bound)
    && (forall x | x in found :: SamePrefix(q, x) && x in Contents(t))
    && (forall x | SamePrefix(q, x) && x in Contents(t) && Less(x, bound) :: x in found)
  }

  ghost predicate ReadAll(t: Tree, q: Bytes, found: seq<Bytes>) {
    Ascending(found) && forall x :: x in found <==> SamePrefix(q, x) && x in Contents(t)
  }

  lemma ReadStart(t: Tree, q: Bytes, low: Bytes)
    requires IsSearchKey(q) && Leq(low, q)
    ensures ReadSoFar(t, q, [], low)
  {
    forall x | SamePrefix(q, x) ensures !Less(x, low) {
      SearchKeyIsFirst(q, x);
    }
  }

  lemma ReadPage(t: Tree, p: Pid, q: Bytes, found: seq<Bytes>, space: iset<Bytes>)
    requires TreeOk(t) && LeavesIn(t, space) && PrefixFree(space) && q in space && IsSearchKey(q)
    requires p in t.nodes && p in t.low && t.nodes[p].level == 0 && ReadSoFar(t, q, found, t.low[p])
    ensures var more := found + PageMatches(t.nodes[p], q);
            && Ascending(more)
            && (forall x | x in more :: SamePrefix(q, x) && x in Contents(t))
            && (t.nodes[p].high.Some? ==> ReadSoFar(t, q, more, t.nodes[p].high.value))
            && (forall x | SamePrefix(q, x) && x in Contents(t) && Under(x, t.nodes[p].high) :: x in more)
  {
    hide Rank, TreeOk, PageMatches, SamePrefix, MemCmp, Ascending, Contents;
    var n := t.nodes[p];
    NodeFacts(t, p);
    assert KeysIn(n, space);
    PageMatchesExact(n, q, space);
    Order.AppendPage(t, p, q, found, space);
    forall x | x in PageMatches(n, q) ensures x in Contents(t) {
      var e :| e in n.entries && e.key == x;
      LeafHolds(t, p, e);
    }
    forall x | SamePrefix(q, x) && x in Contents(t) && Under(x, n.high) ensures x in found + PageMatches(n, q) {
      if !Less(x, t.low[p]) {
        StoredInCover(t, p, x);
      }
    }
  }

  lemma LeafHolds(t: Tree, p: Pid, e: Entry)
    requires p in t.nodes && t.nodes[p].level == 0 && e in t.nodes[p].entries
    ensures e.key in Contents(t)
  {
  }

  lemma ReadEnds(t: Tree, p: Pid, q: Bytes, more: seq<Bytes>, space: iset<Bytes>)
    requires TreeOk(t) && LeavesIn(t, space) && PrefixFree(space) && q in space && IsSearchKey(q)
    requires p in t.nodes && t.nodes[p].level == 0
    requires Ascending(more) && forall x | x in more :: SamePrefix(q, x) && x in Contents(t)
    requires forall x | SamePrefix(q, x) && x in Contents(t) && Under(x, t.nodes[p].high) :: x in more
    requires !HasSplit(t.nodes[p], q) && !HighPrefixCmp(t.nodes[p], q)
    ensures ReadAll(t, q, more)
  {
    hide Rank, TreeOk, SamePrefix, MemCmp, CmpPrefix, Ascending, Contents, HasSplit, HighPrefixCmp;
    assert KeysIn(t.nodes[p], space);
    ContentsIn(t, space);
    forall x | SamePrefix(q, x) && x in Contents(t) ensures x in more {
      if t.nodes[p].high.Some? {
        FenceTellsAll(t.nodes[p], q, x, space);
      }
    }
  }

  /** The next page after a fence with the columns of q: q itself is not beyond that page. */
  lemma ReadNext(t: Tree, p: Pid, q: Bytes)
    requires TreeOk(t) && p in t.nodes && t.nodes[p].level == 0 && t.nodes[p].high.Some? && !HasSplit(t.nodes[p], q)
    ensures var r := t.nodes[p].rlink;
            && r.Some? && r.value in t.nodes && r.value in t.low && t.nodes[r.value].level == 0
            && t.low[r.value] == t.nodes[p].high.value && !HasSplit(t.nodes[r.value], q)
            && RightOf(t, r.value) < RightOf(t, p)
  {
    hide Rank, RangeOk, ChildrenOk;
    NodeFacts(t, p);
    TreeKeys(t);
    var r := t.nodes[p].rlink.value;
    PageRange(t, p);
    PageRange(t, r);
    assert r in RightOf(t, p) && r !in RightOf(t, r);
  }

  lemma PageRange(t: Tree, p: Pid)
    requires TreeOk(t) && p in t.nodes
    ensures p in t.low && Under(t.low[p], t.nodes[p].high)
  {
    NodeFacts(t, p);
  }

  /** The page stands for the node. */
  ghost predicate Holds(page: Pages.SlottedPage, n: Node)
    reads page, page.data
  {
    page.Valid() && Abs(page.Raw()) == n
  }

  lemma HoldsNow(page: Pages.SlottedPage, n: Node)
    requires page.Valid() && Abs(page.Raw()) == n
    ensures Holds(page, n)
  {
  }

  lemma HoldsThen(page: Pages.SlottedPage, n: Node)
    requires Holds(page, n)
    ensures page.Valid() && Abs(page.Raw()) == n
  {
  }

  class BTreeIndex {
    var pages: map<Pid, Pages.SlottedPage>
    var rootId: Pid
    var nextPid: Pid
    var stack: seq<Pid>
    // the pages and their bytes as objects; what they stand for, and their lower fences
    ghost var repr: set<object>
    ghost var nodes: map<Pid, Node>
    ghost var low: map<Pid, Bytes>
    ghost const space: iset<Bytes>
    const maxLen: nat

    /** Every page is an object of its own with bytes of its own, and stands for its node. */
    ghost predicate Stored()
      reads this`pages, this`nodes, this`repr, repr
    {
      && this !in repr && pages.Keys == nodes.Keys
      && (forall p | p in pages :: pages[p] in repr && pages[p].data in repr && Holds(pages[p], nodes[p]))
      && forall p, q | p in pages && q in pages && p != q :: pages[p] != pages[q] && pages[p].data != pages[q].data
    }

    ghost function View(): Tree
      reads this`nodes, this`low, this`rootId
    {
      Tree(nodes, low, rootId)
    }

    ghost predicate Valid()
      reads this`pages, this`nodes, this`low, this`rootId, this`nextPid, this`repr, repr
    {
      Stored() && IndexOk(View(), nextPid, space, maxLen) && Settled(View()) && PrefixFree(space)
    }

    ghost function Keys(): iset<Bytes>
      reads this`nodes, this`low, this`rootId
    {
      Contents(View())
    }

    /** Page numbers are left for a split on every level and a new root. */
    ghost predicate Roomy()
      reads this`nodes, this`rootId, this`nextPid
    {
      rootId in nodes && nextPid + nodes[rootId].level + 2 <= PAGE_LIMIT
    }

    constructor (ghost space: iset<Bytes>, maxLen: nat)
      requires PrefixFree(space) && maxLen < MAX_ROW_SIZE
      ensures Valid() && Keys() == iset{} && fresh(repr)
      ensures this.space == space && this.maxLen == maxLen
    {
      hide Pages.SlottedPage.Valid, Abs;
      this.space, this.maxLen := space, maxLen;
      var root := new Pages.SlottedPage(0);
      pages, rootId, nextPid, stack := map[1 := root], 1, 2, [];
      nodes, low, repr := map[1 := EmptyLeaf()], map[1 := []], {root, root.data};
      new;

      assert forall k :: !Has(View(), k);
    }

    // ---- one page ----

    lemma ThisApart()
      requires Stored()
      ensures this !in repr
    {
    }

    lemma PageHeader(pid: Pid)
      requires Stored() && pid in nodes
      ensures pid in pages && pages[pid].level == nodes[pid].level && pages[pid].rlink == nodes[pid].rlink
      ensures pages[pid].count == |nodes[pid].entries| && pages[pid].heap == nodes[pid].heap
    {
      hide Pages.SlottedPage.Valid, Abs;
      pages[pid].EntriesSized();
    }

    method TestSplit(pid: Pid, key: Bytes) returns (split: bool)
      requires Stored() && pid in nodes && pid in pages
      ensures split == HasSplit(nodes[pid], key)
    {
      hide Pages.SlottedPage.Valid, Abs;
      split := pages[pid].HasSplit(key);
    }

    method TestSpace(pid: Pid, key: Bytes) returns (space: bool)
      requires Stored() && pid in nodes && pid in pages
      ensures space == HasSpace(nodes[pid], key)
    {
      hide Pages.SlottedPage.Valid, Abs;
      space := pages[pid].HasSpace(key);
    }

    method ChildOf(pid: Pid, key: Bytes) returns (child: Pid)
      requires Stored() && pid in nodes && pid in pages && Sorted(nodes[pid].entries)
      requires nodes[pid].entries != [] && Leq(nodes[pid].entries[0].key, key)
      ensures UpperBound(nodes[pid].entries, key) > 0 && child == ChildFor(nodes[pid], key)
    {
      hide Pages.SlottedPage.Valid, Abs;
      child := pages[pid].GetChild(key);
    }

    method ReadLeaf(pid: Pid, q: Bytes) returns (found: seq<Bytes>, proceed: bool)
      requires Stored() && pid in nodes && pid in pages && Sorted(nodes[pid].entries)
      ensures found == PageMatches(nodes[pid], q) && proceed == HighPrefixCmp(nodes[pid], q)
    {
      hide Pages.SlottedPage.Valid, Abs;
      found := pages[pid].Get(q);
      proceed := pages[pid].HighPrefixCmp(q);
    }

    method InsertEntryAt(pid: Pid, e: Entry)
      requires Stored() && pid in nodes && pid in pages && Sorted(nodes[pid].entries)
      requires Storable(nodes[pid].level, e) && Fits(nodes[pid], e.key)
      modifies `nodes, pages[pid], pages[pid].data
      ensures Stored() && nodes == old(nodes)[pid := InsertEntry(old(nodes[pid]), e)]
    {
      hide Pages.SlottedPage.Valid, Abs, Storable, Fits, InsertEntry, Sorted;
      ghost var n := nodes[pid];
      PageHeader(pid);
      pages[pid].Insert(e);
      nodes := nodes[pid := InsertEntry(n, e)];
    }

    method DeleteEntryAt(pid: Pid, key: Bytes) returns (ghost i: nat)
      requires Stored() && pid in nodes && pid in pages && Sorted(nodes[pid].entries) && HasKey(nodes[pid].entries, key)
      modifies `nodes, pages[pid], pages[pid].data
      ensures i < |old(nodes[pid]).entries| && old(nodes[pid]).entries[i].key == key
      ensures Stored() && nodes == old(nodes)[pid := DeleteAt(old(nodes[pid]), i)]
    {
      hide Pages.SlottedPage.Valid, Abs, DeleteAt, Sorted;
      ghost var n := nodes[pid];
      i := pages[pid].Delete(key);
      nodes := nodes[pid := DeleteAt(n, i)];
    }

    /** To the leaf level; the pages passed go on the stack. */
    method DropToLeaf(key: Bytes) returns (pid: Pid)
      requires Valid()
      modifies `stack
      ensures Stored() && pid in nodes && WalkOk(View(), stack, pid, key) && nodes[pid].level == 0
    {
      hide Stored, Holds, Rank, TreeOk, PathOk, UpperBound, HasSplit, RangeOk, LinkOk, ChildrenOk, Settled, LeavesIn,
        PagesOk, Contents, Sorted;
      ghost var t := View();
      TreeKeys(t);
      ThisApart();
      RootWalk(t, key);
      stack := [];
      pid := rootId;
      while true
        invariant View() == t && Stored() && this !in repr && pid in nodes && WalkOk(t, stack, pid, key)
        decreases nodes[pid].level, RightOf(t, pid)
      {
        PageHeader(pid);
        if pages[pid].level <= 0 {
          return;
        }
        var split := TestSplit(pid, key);
        if split {
          WalkRight(t, stack, pid, key);
          StackRight(t, stack, pid, key, nodes[pid].rlink.value);
          pid := pages[pid].rlink.value;
        } else {
          WalkDown(t, stack, pid, key);
          FirstEntry(t, pid);
          WalkThere(t, stack, pid, key);
          WalkThere(t, stack + [pid], ChildFor(nodes[pid], key), key);
          stack := stack + [pid];
          assert Stored();
          pid := ChildOf(pid, key);
        }
      }
    }

    /** To a given level; the page reached goes on the stack as well. */
    method DropToLevel(key: Bytes, dropLevel: nat)
      requires Stored() && TreeOk(View()) && rootId in nodes && dropLevel <= nodes[rootId].level
      modifies `stack
      ensures Stored() && stack != []
      ensures var top := stack[|stack| - 1];
              WalkOk(View(), stack[..|stack| - 1], top, key) && nodes[top].level == dropLevel
    {
      hide Stored, Holds, Rank, TreeOk, PathOk, UpperBound, HasSplit, RangeOk, LinkOk, ChildrenOk, Settled, LeavesIn,
        PagesOk, Contents, Sorted;
      ghost var t := View();
      TreeKeys(t);
      ThisApart();
      RootWalk(t, key);
      stack := [];
      var pid := rootId;
      while true
        invariant View() == t && Stored() && this !in repr && pid in nodes && WalkOk(t, stack, pid, key)
        invariant dropLevel <= nodes[pid].level
        decreases nodes[pid].level, RightOf(t, pid)
      {
        PageHeader(pid);
        if pages[pid].level <= dropLevel {
          ghost var path := stack;
          stack := stack + [pid];
          assert stack[..|stack| - 1] == path;
          return;
        }
        var split := TestSplit(pid, key);
        if split {
          WalkRight(t, stack, pid, key);
          StackRight(t, stack, pid, key, nodes[pid].rlink.value);
          pid := pages[pid].rlink.value;
        } else {
          WalkDown(t, stack, pid, key);
          FirstEntry(t, pid);
          WalkThere(t, stack, pid, key);
          WalkThere(t, stack + [pid], ChildFor(nodes[pid], key), key);
          stack := stack + [pid];
          assert Stored();
          pid := ChildOf(pid, key);
        }
      }
    }

    /** Right until the fence is above the key. */
    method GoRight(start: Pid, key: Bytes, ghost path: seq<Pid>) returns (pid: Pid)
      requires Stored() && TreeOk(View()) && WalkOk(View(), path, start, key)
      ensures pid in nodes && WalkOk(View(), path, pid, key) && !HasSplit(nodes[pid], key)
      ensures nodes[pid].level == nodes[start].level
    {
      hide Stored, Holds;
      ghost var t := View();
      TreeKeys(t);
      pid := start;
      while true
        invariant Stored() && pid in nodes && WalkOk(t, path, pid, key) && nodes[pid].level == nodes[start].level
        decreases RightOf(t, pid)
      {
        PageHeader(pid);
        var split := TestSplit(pid, key);
        if !split {
          return;
        }
        NodeFacts(t, pid);
        StackRight(t, path, pid, key, nodes[pid].rlink.value);
        pid := pages[pid].rlink.value;
      }
    }

    /** A page that is not among the others joins them. */
    method Join(id: Pid, page: Pages.SlottedPage, ghost n: Node)
      requires Stored() && id !in nodes && Holds(page, n) && page !in repr && page.data !in repr
      modifies `pages, `nodes, `repr
      ensures Stored() && nodes == old(nodes)[id := n] && pages == old(pages)[id := page]
      ensures repr == old(repr) + {page, page.data}
    {
      hide Holds;
      pages, repr := pages[id := page], repr + {page, page.data};
      nodes := nodes[id := n];
    }

    /** A page of its own for a new root. */
    method AddRoot(id: Pid, level: nat, key: Bytes, pid: Pid, newPid: Pid)
      requires Stored() && id !in nodes && |key| < MAX_ROW_SIZE && pid < PAGE_LIMIT && newPid < PAGE_LIMIT
      modifies `pages, `nodes, `repr
      ensures Stored() && nodes == old(nodes)[id := RootNode(level + 1, key, pid, newPid)]
      ensures fresh(repr - old(repr))
    {
      hide Pages.SlottedPage.Valid, Abs, RootNode, Holds, Stored;
      var root := new Pages.SlottedPage(level + 1);
      root.CreateRoot(key, pid, newPid);
      HoldsNow(root, RootNode(level + 1, key, pid, newPid));
      Join(id, root, RootNode(level + 1, key, pid, newPid));
    }

    method CreateNewRoot(level: nat, key: Bytes, pid: Pid, newPid: Pid)
      requires Stored() && IndexOk(View(), nextPid, space, maxLen) && pid == rootId && nextPid < PAGE_LIMIT
      requires rootId in nodes && nodes[rootId].level == level
      requires ChildAt(View(), level, key, newPid) && Unsettled(View(), newPid) && MIN_SEPARATOR <= |key| <= maxLen
      modifies `pages, `nodes, `repr, `low, `rootId, `nextPid
      ensures Stored() && IndexOk(View(), nextPid, space, maxLen) && Settled(View()) && Keys() == old(Keys())
      ensures View() == NewRoot(old(View()), old(nextPid), key, newPid) && nextPid == old(nextPid) + 1
      ensures fresh(repr - old(repr))
    {
      hide Rank, IndexOk, TreeOk, Settled, Unsettled, Contents, RootNode, Stored;
      ghost var t := View();
      ThisApart();
      RootIndexOk(t, nextPid, key, newPid, space, maxLen);
      PidBelow(t, nextPid, space, maxLen, pid);
      PidBelow(t, nextPid, space, maxLen, newPid);
      var id := nextPid;
      nextPid := nextPid + 1;
      AddRoot(id, level, key, pid, newPid);
      low := low[id := []];
      rootId := id;
      assert View() == NewRoot(t, id, key, newPid);
    }

    /** The page is split with a new page to its right, in bytes. */
    method SplitPage(pid: Pid, newPid: Pid, e: Entry) returns (sep: Bytes)
      requires Stored() && pid in nodes && pid in pages && newPid !in nodes && Sorted(nodes[pid].entries)
      requires |nodes[pid].entries| >= 2 && Storable(nodes[pid].level, e) && HalfFits(nodes[pid], newPid, e)
      modifies `pages, `nodes, `repr, pages[pid], pages[pid].data
      ensures Stored() && fresh(repr - old(repr))
      ensures var n := old(nodes[pid]);
        var s := SplitAt(n, FindSplitPoint(n.entries), newPid, e);
        nodes == old(nodes)[pid := s.left][newPid := s.right] && sep == s.sentinel
    {
      hide Pages.SlottedPage.Valid, Abs, SplitAt, FindSplitPoint, Sorted, Storable, Fits, Halves, CmpFull, Holds;
      ghost var n, was := nodes[pid], repr;
      PageHeader(pid);
      HoldsThen(pages[pid], n);
      var right := new Pages.SlottedPage(pages[pid].level);
      sep := pages[pid].Split(right, newPid, e);
      ghost var s := SplitAt(n, FindSplitPoint(n.entries), newPid, e);
      HoldsNow(pages[pid], s.left);
      HoldsNow(right, s.right);
      nodes := nodes[pid := s.left];
      assert Stored() by {
        forall p | p in pages ensures pages[p] in repr && pages[p].data in repr && Holds(pages[p], nodes[p]) {
        }
      }
      assert repr == was;
      Join(newPid, right, s.right);
    }

    /** SplitLeaf and SplitInter: the right half goes to a fresh page, the entry into the half it belongs to. */
    method SplitNode(pid: Pid, e: Entry) returns (sep: Bytes, newPid: Pid)
      requires Stored() && IndexOk(View(), nextPid, space, maxLen) && pid in nodes && |nodes[pid].entries| >= 2
      requires Admissible(View(), pid, e) && !HasSpace(nodes[pid], e.key) && nextPid < PAGE_LIMIT
      requires MIN_SEPARATOR <= |e.key| <= maxLen && (nodes[pid].level == 0 ==> e.key in space && e.child == 0)
      modifies `pages, `nodes, `repr, `low, `nextPid, repr
      ensures Stored() && fresh(repr - old(repr))
      ensures newPid == old(nextPid) && nextPid == newPid + 1 && rootId == old(rootId)
      ensures View() == SplitPut(old(View()), pid, FindSplitPoint(old(nodes[pid].entries)), newPid, e)
      ensures newPid in low && sep == low[newPid]
    {
      hide Rank, IndexOk, TreeOk, Contents, SplitAt, HasSpace, Admissible, FindSplitPoint, Stored, HalfFits, Storable,
        Sorted;
      ghost var t := View();
      ThisApart();
      PageLens(t, pid, nextPid, space, maxLen);
      SplitReady(t, pid, e, nextPid, space, maxLen);
      PageHeader(pid);
      newPid := nextPid;
      nextPid := nextPid + 1;
      InObjects(pid);
      sep := SplitPage(pid, newPid, e);
      low := low[newPid := sep];
      assert View() == SplitPut(t, pid, FindSplitPoint(t.nodes[pid].entries), newPid, e);
    }

    lemma InObjects(pid: Pid)
      requires Stored() && pid in pages
      ensures pages[pid] in repr && pages[pid].data in repr
    {
    }

    /** Splits a page and finds the place of the separator: the page above on the stack, or the one the level above has
        for it; nowhere if the page is the root. */
    method SplitAndClimb(pid: Pid, e: Entry) returns (sep: Bytes, newPid: Pid)
      requires Stored() && IndexOk(View(), nextPid, space, maxLen) && pid in nodes && pid in low && nextPid < PAGE_LIMIT
      requires PathOk(View(), stack, pid) && Admissible(View(), pid, e)
      requires |nodes[pid].entries| >= 2 && !HasSpace(nodes[pid], e.key)
      requires MIN_SEPARATOR <= |e.key| <= maxLen && (nodes[pid].level == 0 ==> e.key in space && e.child == 0)
      requires if nodes[pid].level == 0 then Settled(View()) else Unsettled(View(), e.child)
      modifies this, repr
      ensures Stored() && fresh(repr - old(repr)) && rootId == old(rootId) && nextPid == old(nextPid) + 1
      ensures IndexOk(View(), nextPid, space, maxLen) && Unsettled(View(), newPid)
      ensures newPid in nodes && rootId in nodes && old(rootId in nodes) && nodes[newPid].level == old(nodes[pid].level)
      ensures nodes[rootId].level == old(nodes[rootId].level)
      ensures ChildAt(View(), old(nodes[pid].level), sep, newPid) && MIN_SEPARATOR <= |sep| <= maxLen
      ensures Keys() == if old(nodes[pid].level) == 0 then old(Keys()) + iset{e.key} else old(Keys())
      ensures pid == rootId ==> stack == [] && old(Absorbs(View(), pid, e.key))
      ensures pid != rootId ==>
        && StackFor(View(), stack, newPid, sep) && nodes[newPid].level < nodes[rootId].level
        && old(Absorbs(View(), pid, e.key)) == Lifts(View(), sep, nodes[newPid].level + 1)
    {
      hide Rank, TreeOk, LeavesIn, PageOk, PagesOk, Contents, Referenced, Settled, Unsettled, InsertEntry, SplitPut,
        HasSpace, Fits, Admissible, CmpFull, Absorbs, Lifts, TreeStep, Grown, SpaceOk, Stored, Holds, PathOk,
        FindSplitPoint;
      ghost var t := View();
      ThisApart();
      InvParts(t, nextPid, space, maxLen);
      PageHeader(pid);
      var level := pages[pid].level;
      sep, newPid := SplitNode(pid, e);
      SplitFollows(t, View(), stack, pid, newPid, e, space, maxLen);
      SplitGoesUp(t, View(), stack, pid, newPid, e, space, maxLen);
      if stack == [] && pid != rootId {
        DropToLevel(sep, level + 1);
      }
    }

    /** The separator into a page above whose space test said yes, unless the test wrapped. */
    method PutAbove(pid: Pid, e: Entry) returns (wraps: bool)
      requires Stored() && IndexOk(View(), nextPid, space, maxLen) && PrefixFree(space) && Unsettled(View(), e.child)
      requires pid in nodes && pid in low && nodes[pid].level > 0 && Admissible(View(), pid, e)
      requires HasSpace(nodes[pid], e.key) && MIN_SEPARATOR <= |e.key| <= maxLen
      modifies `nodes, repr
      ensures !wraps ==> Valid() && Keys() == old(Keys()) && old(Absorbs(View(), pid, e.key))
      ensures wraps ==> nodes == old(nodes) && maxLen > SHORT_KEY && !old(Absorbs(View(), pid, e.key))
    {
      hide Rank, TreeOk, LeavesIn, PageOk, PagesOk, Contents, Referenced, Settled, InsertEntry, HasSpace, Fits, Admissible,
        CmpFull, Absorbs, Lifts, TreeStep, Grown, SpaceOk, Stored, Holds, Storable, Sorted;
      ghost var t := View();
      ThisApart();
      PageLens(t, pid, nextPid, space, maxLen);
      PageHeader(pid);
      AbsorbsOrWraps(t, pid, e.key);
      if |e.key| + EntryHeader(pages[pid].level) > pages[pid].heap {
        WrapMeansLong(nodes[pid], e.key, maxLen);
        return true;
      }
      HasSpaceExact(nodes[pid], e.key);
      PutIndexOk(t, pid, e, nextPid, space, maxLen);
      PutReady(t, pid, e, nextPid, space, maxLen);
      InObjects(pid);
      InsertEntryAt(pid, e);
      assert View() == Put(t, pid, e);
      PutSettles(t, View(), e.child);
      return false;
    }

    /** The next page above takes the separator, or is split and gives another one. */
    method PropagateOnce(key: Bytes, value: Pid) returns (stop: Option<Outcome>, newKey: Bytes, newPid: Pid)
      requires Stored() && IndexOk(View(), nextPid, space, maxLen) && PrefixFree(space) && Unsettled(View(), value)
      requires StackFor(View(), stack, value, key) && MIN_SEPARATOR <= |key| <= maxLen
      modifies this, repr
      ensures fresh(repr - old(repr)) && old(rootId in nodes)
      ensures stop == Option.Some(Done) ==>
        Valid() && Keys() == old(Keys()) && old(Lifts(View(), key, nodes[value].level + 1))
      ensures stop.Some? && !stop.value.Done? && !stop.value.NoPages? ==>
        stop.value.HeapWraps? && !old(Lifts(View(), key, nodes[value].level + 1))
      ensures stop == Option.Some(NoPages) ==>
        old(nextPid) + old(nodes[rootId].level) - old(nodes[value].level) >= PAGE_LIMIT
      ensures stop.Some? && stop.value.HeapWraps? ==>
        maxLen > SHORT_KEY && stop.value.pid in nodes && nodes[stop.value.pid].level > 0
      ensures stop.None? ==>
        && rootId in nodes && Stored() && IndexOk(View(), nextPid, space, maxLen) && Unsettled(View(), newPid)
        && Keys() == old(Keys())
        && StackFor(View(), stack, newPid, newKey) && MIN_SEPARATOR <= |newKey| <= maxLen
        && nextPid == old(nextPid) + 1 && nodes[newPid].level == old(nodes[value].level) + 1 < nodes[rootId].level
        && nodes[rootId].level == old(nodes[rootId].level)
        && old(Lifts(View(), key, nodes[value].level + 1)) == Lifts(View(), newKey, nodes[newPid].level + 1)
    {
      hide Rank, TreeOk, LeavesIn, PageOk, PagesOk, Contents, Referenced, Settled, Takes, InsertEntry, SplitPut, NewRoot,
        HasSplit, HasSpace, Fits, Admissible, CmpFull, Absorbs, Lifts, TreeStep, Grown, SpaceOk, PathOk, Stored, Holds,
        Storable, Sorted, FindSplitPoint, RootNode;
      stop, newKey, newPid := None, key, value;
      ThisApart();
      InvParts(View(), nextPid, space, maxLen);
      StackBelow(View(), stack, value, key);
      var pid := stack[|stack| - 1];
      stack := stack[..|stack| - 1];
      pid := GoRight(pid, key, stack);
      ghost var t := View();
      LiftsAt(t, stack, pid, key);
      assert t == old(View()) && Lifts(t, key, t.nodes[value].level + 1) == Absorbs(t, pid, key);
      PageLens(t, pid, nextPid, space, maxLen);
      PageHeader(pid);
      var level := pages[pid].level;
      var e := Entry(key, value);
      StackAdmits(t, stack, pid, key, value);
      var room := TestSpace(pid, key);
      if room {
        var wraps := PutAbove(pid, e);
        stop := Option.Some(if wraps then HeapWraps(pid) else Done);
        return;
      }
      InnerSplits(nodes[pid], key, maxLen);
      if nextPid >= PAGE_LIMIT {
        stop := Option.Some(NoPages);
        return;
      }
      newKey, newPid := SplitAndClimb(pid, e);
      if rootId == pid {
        if nextPid >= PAGE_LIMIT {
          stop := Option.Some(NoPages);
          return;
        }
        CreateNewRoot(level, newKey, pid, newPid);
        stop := Option.Some(Done);
      }
    }

    /** Carries a separator up, page by page, until some page takes it or a new root is made. */
    method PropagateInsert(sep: Bytes, child: Pid) returns (res: Outcome)
      requires Stored() && IndexOk(View(), nextPid, space, maxLen) && PrefixFree(space) && Unsettled(View(), child)
      requires StackFor(View(), stack, child, sep) && MIN_SEPARATOR <= |sep| <= maxLen
      modifies this, repr
      ensures fresh(repr - old(repr))
      ensures res.Done? ==> Valid() && Keys() == old(Keys())
      ensures res.Done? ==> old(Lifts(View(), sep, nodes[child].level + 1))
      ensures old(Lifts(View(), sep, nodes[child].level + 1)) ==> res.Done? || res.NoPages?
      ensures res.NoPages? ==> old(nextPid) + old(nodes[rootId].level) - old(nodes[child].level) >= PAGE_LIMIT
      ensures !res.TooFewEntries?
      ensures res.HeapWraps? ==> maxLen > SHORT_KEY && res.pid in nodes && nodes[res.pid].level > 0
    {
      hide Rank, TreeOk, LeavesIn, PagesOk, Contents, Referenced, Settled, Unsettled, Lifts, PathOk, Stored, IndexOk;
      var key, value := sep, child;
      InvParts(View(), nextPid, space, maxLen);
      StackBelow(View(), stack, child, sep);
      ghost var top := nodes[rootId].level;
      ghost var goes := Lifts(View(), sep, nodes[child].level + 1);
      ghost var sum := nextPid - nodes[child].level;
      res := Done;
      while stack != []
        invariant Stored() && fresh(repr - old(repr)) && rootId in nodes && TreeOk(View())
        invariant IndexOk(View(), nextPid, space, maxLen) && Unsettled(View(), value)
        invariant StackFor(View(), stack, value, key) && MIN_SEPARATOR <= |key| <= maxLen
        invariant Keys() == old(Keys()) && nodes[rootId].level == top
        invariant goes == Lifts(View(), key, nodes[value].level + 1)
        invariant nextPid - nodes[value].level == sum && nodes[value].level < top
        decreases top - nodes[value].level
      {
        var stop, newKey, newPid := PropagateOnce(key, value);
        if stop.Some? {
          return stop.value;
        }
        InvParts(View(), nextPid, space, maxLen);
        key, value := newKey, newPid;
      }
    }

    method InsertIntoLeaf(pid: Pid, key: Bytes) returns (res: Outcome)
      requires Valid() && pid in nodes && WalkOk(View(), stack, pid, key) && nodes[pid].level == 0
      requires !HasSplit(nodes[pid], key) && key in space && MIN_SEPARATOR <= |key| <= maxLen && key !in Keys()
      modifies this, repr
      ensures fresh(repr - old(repr))
      ensures res.Done? ==> Valid() && Keys() == old(Keys()) + iset{key}
      ensures res.Done? ==> old(Absorbs(View(), pid, key))
      ensures old(Absorbs(View(), pid, key)) ==> res.Done? || res.NoPages?
      ensures res.NoPages? ==> !old(Roomy())
      ensures !old(Takes(nodes[pid], key)) ==> !res.Done?
      ensures old(Takes(nodes[pid], key)) && !res.Done? && !res.NoPages? ==>
        maxLen > SHORT_KEY && res.HeapWraps? && res.pid in nodes && nodes[res.pid].level > 0
    {
      hide Rank, TreeOk, LeavesIn, PageOk, PagesOk, Contents, Referenced, Settled, Unsettled, InsertEntry, SplitPut,
        NewRoot, HasSpace, Fits, Admissible, CmpFull, Absorbs, Lifts, Stored, Holds, Storable, Sorted, SpaceOk,
        TreeStep, Grown, FindSplitPoint;
      ghost var t := View();
      ghost var n := nodes[pid];
      var e := Entry(key, 0);
      ThisApart();
      AbsorbsOrWraps(t, pid, key);
      PageLens(t, pid, nextPid, space, maxLen);
      PageHeader(pid);
      NotStored(t, pid, key);
      HasSpaceExact(n, key);
      var room := TestSpace(pid, key);
      if room {
        if |key| + EntryHeader(0) > pages[pid].heap {
          return HeapWraps(pid);
        }
        PutIndexOk(t, pid, e, nextPid, space, maxLen);
        PutReady(t, pid, e, nextPid, space, maxLen);
        InObjects(pid);
        InsertEntryAt(pid, e);
        assert View() == Put(t, pid, e);
        PutLeafSettles(t, View());
        return Done;
      }
      if pages[pid].count < 2 {
        return TooFewEntries(pid);
      }
      RejectedDoesNotWrap(n, key);
      if nextPid >= PAGE_LIMIT {
        return NoPages;
      }
      var sep, newPid := SplitAndClimb(pid, e);
      if rootId == pid {
        if nextPid >= PAGE_LIMIT {
          return NoPages;
        }
        CreateNewRoot(0, sep, pid, newPid);
        return Done;
      }
      res := PropagateInsert(sep, newPid);
    }

    /** Adds the key exactly when its leaf and, as far up as pages split, the pages above it absorb it, as long as page
        numbers are left; else it stops. With keys of at most 128 bytes only the leaf matters: no wrap in the space
        test, and room or at least two entries to split. */
    method Insert(key: Bytes) returns (res: Outcome)
      requires Valid() && key in space && MIN_SEPARATOR <= |key| <= maxLen && key !in Keys()
      modifies this, repr
      ensures fresh(repr - old(repr))
      ensures res.Done? ==> Valid() && Keys() == old(Keys()) + iset{key}
      ensures res.Done? ==> old(Absorbs(View(), LeafFor(key), key))
      ensures old(Absorbs(View(), LeafFor(key), key)) ==> res.Done? || res.NoPages?
      ensures res.NoPages? ==> !old(Roomy())
      ensures var leaf := old(LeafFor(key));
              && (old(!Takes(nodes[leaf], key)) ==> !res.Done?)
              && (old(Takes(nodes[leaf], key)) && !res.Done? && !res.NoPages? ==>
                maxLen > SHORT_KEY && res.HeapWraps? && res.pid in nodes && nodes[res.pid].level > 0)
    {
      hide Rank, TreeOk, LeavesIn, PagesOk, Contents, Settled, Stored, Holds, Absorbs, Takes, IndexOk, PathOk;
      ghost var t := View();
      InvParts(t, nextPid, space, maxLen);
      var pid := DropToLeaf(key);
      pid := GoRight(pid, key, stack);
      DescendCovers(t, pid, key);
      res := InsertIntoLeaf(pid, key);
    }

    ghost function LeafFor(key: Bytes): (leaf: Pid)
      requires TreeOk(View())
      reads this`nodes, this`low, this`rootId
      ensures leaf in nodes && nodes[leaf].level == 0
    {
      TreeKeys(View());
      Descend(View(), rootId, key, 0)
    }

    /** Removes a key that is stored. */
    method Delete(key: Bytes)
      requires Valid() && key in Keys()
      modifies this, repr
      ensures Valid() && Keys() == old(Keys()) - iset{key} && repr == old(repr)
    {
      hide Rank, TreeOk, LeavesIn, PagesOk, Contents, Referenced, Settled, DeleteAt, CmpFull, Stored, Holds;
      ghost var t := View();
      var pid := DropToLeaf(key);
      pid := GoRight(pid, key, stack);
      StoredInCover(t, pid, key);
      NodeFacts(t, pid);
      PageHeader(pid);
      InObjects(pid);
      ghost var i := DeleteEntryAt(pid, key);
      RemoveIndexOk(t, pid, i, nextPid, space, maxLen);
      assert View() == Remove(t, pid, i);
    }

    /** All stored keys with the columns of q, across any number of leaves, each once and in order. */
    method Get(q: Bytes) returns (found: seq<Bytes>)
      requires Valid() && q in space && IsSearchKey(q)
      modifies `stack
      ensures Ascending(found) && forall x :: x in found <==> SamePrefix(q, x) && x in Keys()
    {
      hide Stored, Holds, Rank, TreeOk, LeavesIn, PagesOk, Contents, Settled, RangeOk, ChildrenOk, HasSplit,
        PageMatches, ReadSoFar, SamePrefix, Ascending, CmpPrefix, MemCmp;
      ghost var t := View();
      InvParts(t, nextPid, space, maxLen);
      var pid := DropToLeaf(q);
      found := [];
      ReadStart(t, q, low[pid]);
      while true
        invariant View() == t && Stored() && pid in nodes && pid in low && nodes[pid].level == 0
        invariant ReadSoFar(t, q, found, low[pid])
        decreases RightOf(t, pid)
      {
        ghost var n := nodes[pid];
        PageHeader(pid);
        var split := TestSplit(pid, q);
        if split {
          RightStep(t, pid, q);
          NodeFacts(t, pid);
          NothingBetween(t, q, found, low[pid], n.high.value);
          pid := pages[pid].rlink.value;
        } else {
          ReadPage(t, pid, q, found, space);
          NodeFacts(t, pid);
          var matches, proceed := ReadLeaf(pid, q);
          found := found + matches;
          if !proceed {
            ReadEnds(t, pid, q, found, space);
            return;
          }
          ReadNext(t, pid, q);
          pid := pages[pid].rlink.value;
        }
      }
    }

    /** Inserts a key unless some stored key with the same columns is in conflict. The walk looks at every
        such key on every page that may hold one, and the page it inserts into covers the new key. */
    method InsertUnique(q: Bytes, key: Bytes, conflict: Bytes -> bool) returns (res: UniqueOutcome)
      requires Valid() && q in space && IsSearchKey(q) && SamePrefix(q, key)
      requires key in space && MIN_SEPARATOR <= |key| <= maxLen && key !in Keys()
      modifies this, repr
      ensures fresh(repr - old(repr))
      ensures res.Conflict? <==> exists x :: x in old(Keys()) && SamePrefix(q, x) && conflict(x)
      ensures res.Conflict? ==> Valid() && Keys() == old(Keys())
      ensures res.Tried? && res.res.Done? ==> Valid() && Keys() == old(Keys()) + iset{key}
      ensures res.Tried? ==>
        && (res.res.Done? ==> old(Absorbs(View(), LeafFor(key), key)))
        && (old(Absorbs(View(), LeafFor(key), key)) ==> res.res.Done? || res.res.NoPages?)
        && (res.res.NoPages? ==> !old(Roomy()))
      ensures var leaf := old(LeafFor(key));
              && (old(!Takes(nodes[leaf], key)) ==> res.Conflict? || !res.res.Done?)
              && (old(Takes(nodes[leaf], key)) && res.Tried? && !res.res.Done? && !res.res.NoPages? ==>
                    maxLen > SHORT_KEY && res.res.HeapWraps? && res.res.pid in nodes && nodes[res.res.pid].level > 0)
    {
      hide Rank, TreeOk, LeavesIn, PagesOk, PageOk, Settled, Contents, RangeOk, MemCmp, CmpPrefix, SamePrefix, Takes,
        Stored, Holds, Absorbs, IndexOk, CmpFull, Before, CleanBelow, KeysIn, Sorted, HighPrefixCmp, PathOk, PrefixFree,
        IsSearchKey, HasSplit, RightOf;
      ghost var t := View();
      InvParts(t, nextPid, space, maxLen);
      var pid := DropToLeaf(q);
      pid := GoRight(pid, q, stack);
      SearchKeyIsFirst(q, key);
      CleanStart(t, q, conflict, low[pid]);
      var insertPage: Option<Pid> := None;
      var visited := [];
      var first := true;
      while true
        invariant View() == t && Stored() && pid in nodes && pid in low && nodes[pid].level == 0
        invariant !HasSplit(nodes[pid], q)
        invariant WalkOk(t, stack, pid, key) || insertPage.Some?
        invariant insertPage.Some? ==>
                    insertPage.value in nodes && WalkOk(t, stack, insertPage.value, key)
                    && nodes[insertPage.value].level == 0 && !HasSplit(nodes[insertPage.value], key)
        invariant first <==> visited == []
        invariant !first ==> SamePrefix(q, low[pid]) && low[pid] in space
        invariant CleanBelow(t, q, conflict, Some(low[pid]))
        decreases RightOf(t, pid)
        modifies {}
      {
        ghost var n := nodes[pid];
        PageHeader(pid);
        visited := visited + [pid];
        PageFacts(t, pid, space);
        if !first {
          NoneBefore(n, low[pid], q, key, space);
        }
        var fail := CheckPage(pid, key, first, conflict);
        if fail {
          FoundConflict(t, pid, q, key, conflict);
          return Conflict;
        }
        PageClean(t, pid, q, key, conflict);
        PrefixAgrees(n, q, key, space);
        var split := TestSplit(pid, key);
        if insertPage.None? && !split {
          insertPage := Some(pid);
        }
        var proceed := TestHighPrefix(pid, key);
        if !proceed {
          UniqueEnds(t, pid, q, key, conflict, space);
          break;
        }
        UniqueNext(t, pid, q, key, conflict, space);
        if insertPage.None? {
          WalkRight(t, stack, pid, key);
        }
        pid := pages[pid].rlink.value;
        first := false;
      }
      WalkCovers(t, stack, insertPage.value, key);
      var r := InsertIntoLeaf(insertPage.value, key);
      res := Tried(r);
    }

    method CheckPage(pid: Pid, key: Bytes, first: bool, conflict: Bytes -> bool) returns (fail: bool)
      requires Stored() && pid in nodes && pid in pages && Sorted(nodes[pid].entries) && KeysIn(nodes[pid], space)
      requires PrefixFree(space) && key in space
      requires !first ==>
        forall e | e in nodes[pid].entries :: IsKey(e.key) && IsKey(key) && !Before(Columns(e.key), Columns(key))
      ensures fail <==> exists e :: e in nodes[pid].entries && SamePrefix(key, e.key) && conflict(e.key)
    {
      hide Pages.SlottedPage.Valid, Abs, Sorted, SamePrefix, KeysIn, PrefixFree;
      fail := CheckUnique(pages[pid], nodes[pid], key, first, conflict, space);
    }

    method TestHighPrefix(pid: Pid, key: Bytes) returns (same: bool)
      requires Stored() && pid in nodes && pid in pages
      ensures same == HighPrefixCmp(nodes[pid], key)
    {
      hide Pages.SlottedPage.Valid, Abs;
      same := pages[pid].HighPrefixCmp(key);
    }
  }

  lemma RootWalk(t: Tree, k: Bytes)
    requires TreeOk(t)
    ensures t.root in t.nodes && WalkOk(t, [], t.root, k)
  {
  }

  lemma WalkThere(t: Tree, stack: seq<Pid>, p: Pid, k: Bytes)
    requires WalkOk(t, stack, p, k)
    ensures p in t.nodes && p in t.low && Leq(t.low[p], k)
  {
  }

  lemma FirstEntry(t: Tree, p: Pid)
    requires TreeOk(t) && p in t.nodes && t.nodes[p].level > 0
    ensures p in t.low && t.nodes[p].entries != [] && t.nodes[p].entries[0].key == t.low[p] && Sorted(t.nodes[p].entries)
  {
    NodeFacts(t, p);
  }

  lemma PidBelow(t: Tree, nextPid: Pid, space: iset<Bytes>, maxLen: nat, p: Pid)
    requires IndexOk(t, nextPid, space, maxLen) && p in t.nodes
    ensures p < nextPid && nextPid !in t.nodes && maxLen < MAX_ROW_SIZE
  {
    hide TreeOk, LeavesIn, PagesOk;
  }

  /** The pending entry has room in its half. */
  ghost predicate HalfFits(n: Node, q: Pid, e: Entry)
    requires |n.entries| >= 2
  {
    var h := Halves(n, FindSplitPoint(n.entries), q);
    if CmpFull(h.sentinel, e.key) <= 0 then Fits(h.right, e.key) else Fits(h.left, e.key)
  }

  lemma RejectedHalfFits(n: Node, q: Pid, e: Entry, maxLen: nat)
    requires PageOk(n, maxLen) && |n.entries| >= 2 && MIN_SEPARATOR <= |e.key| <= maxLen < MAX_ROW_SIZE
    requires !HasSpace(n, e.key)
    ensures HalfFits(n, q, e)
  {
    hide FindSplitPoint, HasSpace, CmpFull, Used, Footprint;
    if n.level == 0 {
      LeafHalvesFit(n, q, e.key);
    } else {
      InnerHalvesFit(n, q, e.key);
    }
  }

  lemma PutReady(t: Tree, p: Pid, e: Entry, nextPid: Pid, space: iset<Bytes>, maxLen: nat)
    requires IndexOk(t, nextPid, space, maxLen) && p in t.nodes && p in t.low && Admissible(t, p, e)
    requires |e.key| <= maxLen
    ensures Sorted(t.nodes[p].entries) && Storable(t.nodes[p].level, e)
  {
    hide TreeOk, LeavesIn, PagesOk, Sorted;
    NodeFacts(t, p);
    if t.nodes[p].level > 0 {
      PidBelow(t, nextPid, space, maxLen, e.child);
    }
  }

  lemma SplitReady(t: Tree, p: Pid, e: Entry, nextPid: Pid, space: iset<Bytes>, maxLen: nat)
    requires IndexOk(t, nextPid, space, maxLen) && p in t.nodes && p in t.low && Admissible(t, p, e)
    requires |t.nodes[p].entries| >= 2 && !HasSpace(t.nodes[p], e.key) && MIN_SEPARATOR <= |e.key| <= maxLen
    ensures Sorted(t.nodes[p].entries) && Storable(t.nodes[p].level, e) && HalfFits(t.nodes[p], nextPid, e)
    ensures nextPid !in t.nodes
  {
    hide TreeOk, LeavesIn, Sorted, HasSpace, HalfFits, Admissible, PageOk, Storable;
    PutReady(t, p, e, nextPid, space, maxLen);
    PidBelow(t, nextPid, space, maxLen, p);
    PageLens(t, p, nextPid, space, maxLen);
    RejectedHalfFits(t.nodes[p], nextPid, e, maxLen);
  }

  lemma NothingBetween(t: Tree, q: Bytes, found: seq<Bytes>, low: Bytes, high: Bytes)
    requires ReadSoFar(t, q, found, low) && IsSearchKey(q) && Leq(high, q) && Leq(low, high)
    ensures ReadSoFar(t, q, found, high)
  {
    hide Contents;
    forall x | SamePrefix(q, x) ensures !Less(x, high) {
      SearchKeyIsFirst(q, x);
    }
  }

  lemma NotStored(t: Tree, p: Pid, key: Bytes)
    requires TreeOk(t) && p in t.nodes && p in t.low && t.nodes[p].level == 0 && key !in Contents(t)
    requires Leq(t.low[p], key) && !HasSplit(t.nodes[p], key)
    ensures Admissible(t, p, Entry(key, 0))
  {
    if HasKey(t.nodes[p].entries, key) {
      var e :| e in t.nodes[p].entries && e.key == key;
      LeafHolds(t, p, e);
    }
  }

  lemma StackAdmits(t: Tree, stack: seq<Pid>, p: Pid, sep: Bytes, child: Pid)
    requires TreeOk(t) && WalkOk(t, stack, p, sep) && !HasSplit(t.nodes[p], sep) && !Referenced(t, child)
    requires child in t.nodes && child in t.low && t.low[child] == sep && t.nodes[p].level == t.nodes[child].level + 1
    ensures Admissible(t, p, Entry(sep, child))
    ensures Less(t.nodes[p].entries[0].key, sep)
  {
    NodeFacts(t, p);
    AdmissibleIsNew(t, p, Entry(sep, child));
  }

  lemma PageLens(t: Tree, p: Pid, nextPid: Pid, space: iset<Bytes>, maxLen: nat)
    requires IndexOk(t, nextPid, space, maxLen) && p in t.nodes
    ensures PageOk(t.nodes[p], maxLen) && SpaceOk(t.nodes[p]) && maxLen < MAX_ROW_SIZE
    ensures p in t.low && t.root in t.nodes && t.nodes[p].level <= t.nodes[t.root].level
  {
    hide SpaceOk, LeavesIn, NodeOk, Apart;
  }

  lemma WrapMeansLong(n: Node, key: Bytes, maxLen: nat)
    requires PageOk(n, maxLen) && n.level > 0 && |key| <= maxLen && |key| + EntryHeader(n.level) > n.heap
    ensures maxLen > SHORT_KEY
  {
    if maxLen <= SHORT_KEY {
      ShortSeparatorsDoNotWrap(n, key, maxLen);
    }
  }

  lemma StackBelow(t: Tree, stack: seq<Pid>, child: Pid, sep: Bytes)
    requires TreeOk(t) && StackFor(t, stack, child, sep)
    ensures t.root in t.nodes && t.nodes[child].level < t.nodes[t.root].level
  {
    hide NodeOk, Apart, Rank;
  }

  lemma BelowStack(t: Tree, stack: seq<Pid>, p: Pid)
    requires TreeOk(t) && PathOk(t, stack, p) && stack != []
    ensures p != t.root && t.root in t.nodes && t.nodes[p].level < t.nodes[t.root].level
  {
    hide NodeOk, Apart, Rank;
    assert t.nodes[stack[0]].level > t.nodes[p].level;
  }

  lemma AbsorbsOrWraps(t: Tree, p: Pid, key: Bytes)
    requires TreeOk(t) && p in t.nodes
    ensures |key| + EntryHeader(t.nodes[p].level) > t.nodes[p].heap ==> !Absorbs(t, p, key)
    ensures |key| + EntryHeader(t.nodes[p].level) <= t.nodes[p].heap && Fits(t.nodes[p], key) ==> Absorbs(t, p, key)
    ensures !Fits(t.nodes[p], key) && |t.nodes[p].entries| < 2 ==> !Absorbs(t, p, key)
  {
  }

  lemma PutLeafSettles(t: Tree, u: Tree)
    requires TreeStep(t, u, {}) && Settled(t) && u.nodes.Keys == t.nodes.Keys && u.root == t.root
    ensures Settled(u)
  {
    hide TreeOk, Referenced;
  }

  /** A page that is not the root and has a parent lies below the root. */
  lemma RootAbove(t: Tree, p: Pid, q: Pid)
    requires TreeOk(t) && Unsettled(t, q) && p in t.nodes && p != t.root && p != q
    ensures t.root in t.nodes && t.nodes[p].level < t.nodes[t.root].level
  {
    var y, e :| y in t.nodes && t.nodes[y].level > 0 && e in t.nodes[y].entries && e.child == p;
    NodeFacts(t, y);
    assert ChildOk(t, t.nodes[y].level, e);
  }

  // ---- the unique check ----

  ghost predicate ColumnsBefore(a: Bytes, b: Bytes) {
    |a| >= TID_SIZE && |b| >= TID_SIZE && Before(Columns(a), Columns(b))
  }

  /** FindStartPosition: the first entry whose columns are not below the key's. */
  method FindStartPosition(page: Pages.SlottedPage, ghost entries: seq<Entry>, key: Bytes, ghost space: iset<Bytes>)
    returns (lo: nat)
    requires page.Valid() && Abs(page.Raw()).entries == entries
    requires Sorted(entries) && PrefixFree(space) && key in space && forall e | e in entries :: e.key in space
    ensures lo <= |entries|
    ensures forall j | 0 <= j < lo :: ColumnsBefore(entries[j].key, key)
    ensures forall j | lo <= j < |entries| :: !ColumnsBefore(entries[j].key, key)
  {
    hide Rank, MemCmp, CmpPrefix, Pages.SlottedPage.Valid, Abs;
    page.EntriesSized();
    var hi := page.count;
    lo := 0;
    while lo < hi
      invariant 0 <= lo <= hi <= |entries|
      invariant forall j | 0 <= j < lo :: Before(Columns(entries[j].key), Columns(key))
      invariant forall j | hi <= j < |entries| :: !Before(Columns(entries[j].key), Columns(key))
    {
      var mid := lo + (hi - lo) / 2;
      assert entries[mid] in entries && Comparable(entries[mid].key, key);
      PrefixOrderRefined(entries[mid].key, key);
      ColumnsMonotone(entries, key, mid, space);
      var cur := page.KeyAt(mid);
      if CmpPrefix(cur, key) < 0 {
        lo := mid + 1;
      } else {
        hi := mid;
      }
    }
  }

  lemma ColumnsMonotone(entries: seq<Entry>, key: Bytes, mid: nat, space: iset<Bytes>)
    requires Sorted(entries) && PrefixFree(space) && key in space && mid < |entries|
    requires forall e | e in entries :: e.key in space
    ensures forall j | 0 <= j <= mid :: IsKey(entries[j].key) && IsKey(key)
    ensures Before(Columns(entries[mid].key), Columns(key)) ==>
              forall j | 0 <= j <= mid :: Before(Columns(entries[j].key), Columns(key))
    ensures forall j | 0 <= j < |entries| :: IsKey(entries[j].key)
    ensures !Before(Columns(entries[mid].key), Columns(key)) ==>
              forall j | mid <= j < |entries| :: !Before(Columns(entries[j].key), Columns(key))
  {
    hide Rank, MemCmp, CmpPrefix, Before;
    forall j | 0 <= j < |entries| ensures IsKey(entries[j].key) && IsKey(key)
      ensures j <= mid && Before(Columns(entries[mid].key), Columns(key)) ==> Before(Columns(entries[j].key), Columns(key))
      ensures j >= mid && !Before(Columns(entries[mid].key), Columns(key)) ==> !Before(Columns(entries[j].key), Columns(key))
    {
      assert entries[j] in entries && entries[mid] in entries;
      assert Comparable(entries[j].key, key);
      if j <= mid {
        assert Leq(entries[j].key, entries[mid].key);
        ColumnsOrder(entries[j].key, entries[mid].key, key, space);
      } else {
        ColumnsOrder(entries[mid].key, entries[j].key, key, space);
      }
    }
  }

  /** Smaller keys have columns that are not larger. */
  lemma ColumnsOrder(a: Bytes, b: Bytes, key: Bytes, space: iset<Bytes>)
    requires PrefixFree(space) && a in space && b in space && key in space && Leq(a, b)
    ensures IsKey(a) && IsKey(b) && IsKey(key)
    ensures Before(Columns(b), Columns(key)) ==> Before(Columns(a), Columns(key))
  {
    hide Rank, MemCmp, CmpPrefix;
    assert Comparable(a, b) && Comparable(a, key) && Comparable(b, key) && Comparable(key, a) && Comparable(key, b);
    PrefixOrderRefined(b, key);
    PrefixOrderRefined(a, key);
    PrefixOrderRefined(key, a);
    if Before(Columns(b), Columns(key)) && !Before(Columns(a), Columns(key)) {
      if SamePrefix(a, key) {
        SamePrefixConvex(key, a, b, key);
        PrefixDecided(b, key);
      }
    }
  }

  /** True when some entry with the key's columns is in conflict. On the first page the scan starts where
      the search says, on later pages at the first entry. */
  method CheckUnique(page: Pages.SlottedPage, ghost n: Node, key: Bytes, first: bool, conflict: Bytes -> bool,
      ghost space: iset<Bytes>) returns (fail: bool)
    requires page.Valid() && Abs(page.Raw()) == n
    requires Sorted(n.entries) && KeysIn(n, space) && PrefixFree(space) && key in space
    requires !first ==> forall e | e in n.entries :: !Before(Columns(e.key), Columns(key))
    ensures fail <==> exists e :: e in n.entries && SamePrefix(key, e.key) && conflict(e.key)
  {
    hide Rank, MemCmp, CmpPrefix, Before, Pages.SlottedPage.Valid, Abs;
    page.EntriesSized();
    var i := 0;
    AreKeys(n, key, space);
    if first {
      i := FindStartPosition(page, n.entries, key, space);
    }
    BeforeStart(n, key, i, space);
    while i < page.count
      invariant 0 <= i <= |n.entries|
      invariant forall j | i <= j < |n.entries| :: !Before(Columns(n.entries[j].key), Columns(key))
      invariant forall j | 0 <= j < i :: SamePrefix(key, n.entries[j].key) ==> !conflict(n.entries[j].key)
    {
      var cur := page.KeyAt(i);
      assert n.entries[i] in n.entries && Comparable(cur, key);
      PrefixOrderRefined(cur, key);
      if CmpPrefix(cur, key) != 0 {
        NoneAfter(n, key, i, space);
        return false;
      }
      if conflict(cur) {
        return true;
      }
      i := i + 1;
    }
    return false;
  }

  lemma AreKeys(n: Node, key: Bytes, space: iset<Bytes>)
    requires KeysIn(n, space) && PrefixFree(space) && key in space
    ensures IsKey(key) && forall j | 0 <= j < |n.entries| :: IsKey(n.entries[j].key)
  {
    forall j | 0 <= j < |n.entries| ensures IsKey(n.entries[j].key) {
      assert n.entries[j] in n.entries && Comparable(n.entries[j].key, key);
    }
    assert Comparable(key, key);
  }

  lemma BeforeStart(n: Node, key: Bytes, i: nat, space: iset<Bytes>)
    requires KeysIn(n, space) && PrefixFree(space) && key in space && i <= |n.entries|
    requires forall j | 0 <= j < i ::
      n.entries[j] in n.entries && IsKey(n.entries[j].key) && Before(Columns(n.entries[j].key), Columns(key))
    ensures forall j | 0 <= j < i :: !SamePrefix(key, n.entries[j].key)
  {
    forall j | 0 <= j < i ensures !SamePrefix(key, n.entries[j].key) {
      PrefixDecided(n.entries[j].key, key);
    }
  }

  lemma NoneAfter(n: Node, key: Bytes, i: nat, space: iset<Bytes>)
    requires Sorted(n.entries) && KeysIn(n, space) && PrefixFree(space) && key in space && i < |n.entries|
    requires IsKey(n.entries[i].key) && !Before(Columns(n.entries[i].key), Columns(key))
      && CmpPrefix(n.entries[i].key, key) != 0
    ensures forall j | i <= j < |n.entries| :: !SamePrefix(key, n.entries[j].key)
  {
    hide Rank, MemCmp, CmpPrefix, Before;
    var a := n.entries[i].key;
    assert n.entries[i] in n.entries && Comparable(a, key);
    PrefixOrderRefined(a, key);
    forall j | i <= j < |n.entries| ensures !SamePrefix(key, n.entries[j].key) {
      var b := n.entries[j].key;
      assert n.entries[j] in n.entries && Leq(a, b);
      assert Comparable(key, a) && Comparable(a, b) && Comparable(key, b);
      if SamePrefix(key, b) {
        SamePrefixConvex(key, key, a, b);
      }
    }
  }

  lemma InvParts(t: Tree, nextPid: Pid, space: iset<Bytes>, maxLen: nat)
    requires IndexOk(t, nextPid, space, maxLen)
    ensures TreeOk(t) && LeavesIn(t, space) && t.nodes.Keys == t.low.Keys
  {
    hide LeavesIn, NodeOk, Apart, PagesOk;
  }

  lemma PageFacts(t: Tree, p: Pid, space: iset<Bytes>)
    requires TreeOk(t) && LeavesIn(t, space) && p in t.nodes && t.nodes[p].level == 0
    ensures p in t.low && RangeOk(t.nodes[p], t.low[p]) && Sorted(t.nodes[p].entries) && KeysIn(t.nodes[p], space)
  {
    NodeFacts(t, p);
  }

  /** No stored key with the columns of q below the bound is in conflict. */
  ghost predicate CleanBelow(t: Tree, q: Bytes, conflict: Bytes -> bool, bound: Option<Bytes>) {
    forall x | x in Contents(t) && SamePrefix(q, x) && Under(x, bound) :: !conflict(x)
  }

  lemma CleanStart(t: Tree, q: Bytes, conflict: Bytes -> bool, low: Bytes)
    requires IsSearchKey(q) && Leq(low, q)
    ensures CleanBelow(t, q, conflict, Some(low))
  {
    forall x | SamePrefix(q, x) ensures !Less(x, low) {
      SearchKeyIsFirst(q, x);
    }
  }

  lemma NoneBefore(n: Node, low: Bytes, q: Bytes, key: Bytes, space: iset<Bytes>)
    requires RangeOk(n, low) && KeysIn(n, space) && PrefixFree(space) && low in space && key in space
    requires SamePrefix(q, low) && SamePrefix(q, key)
    ensures forall e | e in n.entries :: IsKey(e.key) && IsKey(key) && !Before(Columns(e.key), Columns(key))
  {
    hide Rank, MemCmp, CmpPrefix, Before;
    forall e | e in n.entries ensures IsKey(e.key) && IsKey(key) && !Before(Columns(e.key), Columns(key)) {
      assert Comparable(e.key, low) && Comparable(low, key);
      if Before(Columns(e.key), Columns(key)) {
        PrefixDecided(e.key, low);
      }
    }
  }

  lemma FoundConflict(t: Tree, p: Pid, q: Bytes, key: Bytes, conflict: Bytes -> bool)
    requires p in t.nodes && t.nodes[p].level == 0 && SamePrefix(q, key)
    requires exists e :: e in t.nodes[p].entries && SamePrefix(key, e.key) && conflict(e.key)
    ensures exists x :: x in Contents(t) && SamePrefix(q, x) && conflict(x)
  {
    hide Contents;
    var e :| e in t.nodes[p].entries && SamePrefix(key, e.key) && conflict(e.key);
    LeafHolds(t, p, e);
  }

  lemma PageClean(t: Tree, p: Pid, q: Bytes, key: Bytes, conflict: Bytes -> bool)
    requires TreeOk(t) && p in t.nodes && p in t.low && t.nodes[p].level == 0 && SamePrefix(q, key)
    requires CleanBelow(t, q, conflict, Some(t.low[p]))
    requires !exists e :: e in t.nodes[p].entries && SamePrefix(key, e.key) && conflict(e.key)
    ensures CleanBelow(t, q, conflict, t.nodes[p].high)
  {
    hide Contents, Rank, TreeOk;
    forall x | x in Contents(t) && SamePrefix(q, x) && Under(x, t.nodes[p].high) ensures !conflict(x) {
      if !Less(x, t.low[p]) {
        StoredInCover(t, p, x);
      }
    }
  }

  /** The fence test reads the same for the search key and for the key itself. */
  lemma PrefixAgrees(n: Node, q: Bytes, key: Bytes, space: iset<Bytes>)
    requires KeysIn(n, space) && PrefixFree(space) && q in space && key in space && SamePrefix(q, key)
    ensures HighPrefixCmp(n, q) == HighPrefixCmp(n, key)
    ensures HighPrefixCmp(n, q) ==> SamePrefix(q, n.high.value) && n.high.value in space
  {
    hide Rank, MemCmp, CmpPrefix, Before;
    if n.high.Some? {
      var f := n.high.value;
      assert Comparable(f, q) && Comparable(f, key);
      PrefixOrderRefined(f, q);
      PrefixOrderRefined(f, key);
    }
  }

  lemma UniqueEnds(t: Tree, p: Pid, q: Bytes, key: Bytes, conflict: Bytes -> bool, space: iset<Bytes>)
    requires TreeOk(t) && LeavesIn(t, space) && PrefixFree(space) && q in space && key in space && IsSearchKey(q)
    requires p in t.nodes && t.nodes[p].level == 0 && SamePrefix(q, key)
    requires CleanBelow(t, q, conflict, t.nodes[p].high) && !HasSplit(t.nodes[p], q) && !HighPrefixCmp(t.nodes[p], key)
    ensures forall x | x in Contents(t) && SamePrefix(q, x) :: !conflict(x)
    ensures !HasSplit(t.nodes[p], key)
  {
    hide Contents, Rank, TreeOk, MemCmp, CmpPrefix, HighPrefixCmp, SamePrefix;
    var n := t.nodes[p];
    assert KeysIn(n, space);
    PrefixAgrees(n, q, key, space);
    ContentsIn(t, space);
    if n.high.Some? {
      FenceTellsAll(n, q, key, space);
      forall x | x in Contents(t) && SamePrefix(q, x) ensures !conflict(x) {
        FenceTellsAll(n, q, x, space);
      }
    }
  }

  lemma UniqueNext(t: Tree, p: Pid, q: Bytes, key: Bytes, conflict: Bytes -> bool, space: iset<Bytes>)
    requires TreeOk(t) && LeavesIn(t, space) && PrefixFree(space) && q in space && key in space
    requires p in t.nodes && t.nodes[p].level == 0 && SamePrefix(q, key)
    requires CleanBelow(t, q, conflict, t.nodes[p].high) && !HasSplit(t.nodes[p], q) && HighPrefixCmp(t.nodes[p], key)
    ensures var r := t.nodes[p].rlink;
            && r.Some? && r.value in t.nodes && r.value in t.low && t.nodes[r.value].level == 0
            && !HasSplit(t.nodes[r.value], q) && RightOf(t, r.value) < RightOf(t, p)
            && SamePrefix(q, t.low[r.value]) && t.low[r.value] in space
            && CleanBelow(t, q, conflict, Some(t.low[r.value]))
  {
    hide Contents, Rank, TreeOk, MemCmp, CmpPrefix, SamePrefix;
    assert KeysIn(t.nodes[p], space);
    PrefixAgrees(t.nodes[p], q, key, space);
    ReadNext(t, p, q);
    assert t.nodes[p].high == Some(t.low[t.nodes[p].rlink.value]);
  }
}
