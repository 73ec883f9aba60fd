/** An index page as a value: sorted entries, high fence, right link and heap offset.
    Level 0 is a leaf, whose entries carry no child. */
module PageLayout {
  import opened ByteOrder

  datatype Option<+T> = None | Some(value: T)

  type Pid = nat

  datatype Entry = Entry(key: Bytes, child: Pid)

  datatype Node = Node(level: nat, entries: seq<Entry>, high: Option<Bytes>, rlink: Option<Pid>, heap: int)

  datatype SplitResult = SplitResult(left: Node, right: Node, sentinel: Bytes)

  const PAGE_SIZE := 8192
  const HEADER_SIZE := 20
  const SLOT_SIZE := 2

  /** Bytes in front of an entry's key, and the entry's alignment. */
  function EntryHeader(level: nat): nat { if level == 0 then 2 else 8 }

  function EntryAlign(level: nat): nat { if level == 0 then 2 else 4 }

  function AlignDown(v: int, a: nat): int
    requires a > 0
  {
    v - v % a
  }

  /** The new heap offset in 16-bit arithmetic: it wraps when the entry is longer than what is below prev. */
  function CalcHeap(level: nat, prev: int, len: nat): (r: int)
    ensures 0 <= r < 0x1_0000
  {
    AlignDown((prev - len - EntryHeader(level)) % 0x1_0000, EntryAlign(level))
  }

  predicate HasSpace(n: Node, key: Bytes) {
    CalcHeap(n.level, n.heap, |key|) >= (SLOT_SIZE * (|n.entries| + 1)) % 0x1_0000 + HEADER_SIZE
  }

  /** Bytes an entry takes from the heap. */
  function Footprint(level: nat, len: nat): (r: nat)
    ensures len + EntryHeader(level) <= r < len + EntryHeader(level) + EntryAlign(level)
    ensures r % EntryAlign(level) == 0
  {
    (len + EntryHeader(level) + EntryAlign(level) - 1) / EntryAlign(level) * EntryAlign(level)
  }

  function Used(level: nat, entries: seq<Entry>): nat {
    if entries == [] then 0 else Footprint(level, |entries[0].key|) + Used(level, entries[1..])
  }

  function FenceUsed(level: nat, high: Option<Bytes>): nat {
    if high.None? then 0 else Footprint(level, |high.value|)
  }

  /** Slots stay below the heap, live entries and the fence fit in the heap.
      The heap may also hold entries that were deleted. */
  ghost predicate SpaceOk(n: Node) {
    && n.heap % EntryAlign(n.level) == 0
    && HEADER_SIZE + SLOT_SIZE * |n.entries| <= n.heap
    && n.heap + Used(n.level, n.entries) + FenceUsed(n.level, n.high) <= PAGE_SIZE
  }

  /** The entry and its slot really fit between the slots and the heap. */
  ghost predicate Fits(n: Node, key: Bytes) {
    HEADER_SIZE + SLOT_SIZE * (|n.entries| + 1) + Footprint(n.level, |key|) <= n.heap
  }

  /** Position of the first entry not below k: what the insert searches return on a sorted page. */
  function LowerBound(entries: seq<Entry>, k: Bytes): (r: nat)
    ensures r <= |entries|
    ensures forall j | 0 <= j < r :: Less(entries[j].key, k)
    ensures r < |entries| ==> Leq(k, entries[r].key)
  {
    if entries == [] || CmpFull(entries[0].key, k) >= 0 then 0 else 1 + LowerBound(entries[1..], k)
  }

  /** Position of the first entry above k: what the child search returns on a sorted page. */
  function UpperBound(entries: seq<Entry>, k: Bytes): (r: nat)
    ensures r <= |entries|
    ensures forall j | 0 <= j < r :: Leq(entries[j].key, k)
    ensures r < |entries| ==> Less(k, entries[r].key)
  {
    if entries == [] || CmpFull(entries[0].key, k) > 0 then 0 else 1 + UpperBound(entries[1..], k)
  }

  ghost predicate Sorted(entries: seq<Entry>) {
    forall i, j | 0 <= i < j < |entries| :: Less(entries[i].key, entries[j].key)
  }

  ghost predicate HasKey(entries: seq<Entry>, k: Bytes) {
    exists e :: e in entries && e.key == k
  }

  function InsertSeq(entries: seq<Entry>, e: Entry): (r: seq<Entry>)
    ensures |r| == |entries| + 1
  {
    var i := LowerBound(entries, e.key);
    entries[..i] + [e] + entries[i..]
  }

  function InsertEntry(n: Node, e: Entry): Node {
    n.(entries := InsertSeq(n.entries, e), heap := CalcHeap(n.level, n.heap, |e.key|))
  }

  /** Deleting drops the slot only; the entry's bytes stay in the heap. */
  function DeleteAt(n: Node, i: nat): Node
    requires i < |n.entries|
  {
    n.(entries := n.entries[..i] + n.entries[i + 1..])
  }

  function LenSum(entries: seq<Entry>): nat {
    if entries == [] then 0 else |entries[0].key| + LenSum(entries[1..])
  }

  /** First position, counted from `from`, at which the accumulated key bytes reach target. */
  function SplitScan(entries: seq<Entry>, from: nat, acc: nat, target: nat): (r: nat)
    requires 0 < |entries|
    requires from <= |entries|
    ensures from < |entries| ==> from < r + 1
    ensures r <= |entries| - 1
    decreases |entries| - from
  {
    if from == |entries| then |entries| - 1
    else if acc + |entries[from].key| >= target then Min(from + 1, |entries| - 1)
    else SplitScan(entries, from + 1, acc + |entries[from].key|, target)
  }

  /** Balances key bytes, not heap bytes. */
  function FindSplitPoint(entries: seq<Entry>): (r: nat)
    requires |entries| >= 2
    ensures 1 <= r < |entries|
  {
    SplitScan(entries, 0, 0, LenSum(entries) / 2)
  }

  /** Both halves repacked, before the pending entry goes in. The first right key is the sentinel. */
  function Halves(n: Node, sp: nat, newPid: Pid): SplitResult
    requires 1 <= sp < |n.entries|
  {
    var sentinel := n.entries[sp].key;
    SplitResult(
      Node(n.level, n.entries[..sp], Some(sentinel), Some(newPid),
           PAGE_SIZE - Used(n.level, n.entries[..sp]) - Footprint(n.level, |sentinel|)),
      Node(n.level, n.entries[sp..], n.high, n.rlink,
           PAGE_SIZE - Used(n.level, n.entries[sp..]) - FenceUsed(n.level, n.high)),
      sentinel)
  }

  function SplitAt(n: Node, sp: nat, newPid: Pid, e: Entry): SplitResult
    requires 1 <= sp < |n.entries|
  {
    var h := Halves(n, sp, newPid);
    if CmpFull(h.sentinel, e.key) <= 0
    then h.(right := InsertEntry(h.right, e))
    else h.(left := InsertEntry(h.left, e))
  }

  function EmptyLeaf(): Node {
    Node(0, [], None, None, PAGE_SIZE)
  }

  /** A new root: the empty key leads to the old root, the separator to the page split off. */
  function RootNode(level: nat, key: Bytes, pid: Pid, newPid: Pid): Node {
    var h := CalcHeap(level, PAGE_SIZE, 0);
    Node(level, [Entry([], pid), Entry(key, newPid)], None, None, CalcHeap(level, h, |key|))
  }

  predicate HasSplit(n: Node, key: Bytes) {
    n.high.Some? && CmpFull(n.high.value, key) <= 0
  }

  predicate HighPrefixCmp(n: Node, key: Bytes) {
    n.high.Some? && CmpPrefix(n.high.value, key) == 0
  }

  // ---- entries ----

  lemma InsertSeqMembers(entries: seq<Entry>, e: Entry)
    ensures forall x :: x in InsertSeq(entries, e) <==> x == e || x in entries
    ensures multiset(InsertSeq(entries, e)) == multiset(entries) + multiset{e}
  {
    var i := LowerBound(entries, e.key);
    assert entries == entries[..i] + entries[i..];
    forall x ensures x in InsertSeq(entries, e) <==> x == e || x in entries {
      assert x in entries <==> x in entries[..i] || x in entries[i..];
    }
  }

  lemma InsertSeqSorted(entries: seq<Entry>, e: Entry)
    requires Sorted(entries) && !HasKey(entries, e.key)
    ensures Sorted(InsertSeq(entries, e))
  {
    var i := LowerBound(entries, e.key);
    var r := InsertSeq(entries, e);
    if i < |entries| {
      assert entries[i] in entries && entries[i].key != e.key;
      assert CmpFull(entries[i].key, e.key) != 0;
    }
    forall x, y | 0 <= x < y < |r| ensures Less(r[x].key, r[y].key) {
      assert r[x] == if x < i then entries[x] else if x == i then e else entries[x - 1];
      assert r[y] == if y < i then entries[y] else if y == i then e else entries[y - 1];
    }
  }

  lemma SortedUnique(entries: seq<Entry>, a: Entry, b: Entry)
    requires Sorted(entries) && a in entries && b in entries && a.key == b.key
    ensures a == b
  {
  }

  /** The search for a child ends at the last entry not above k, when there is one. */
  lemma UpperBoundPositive(entries: seq<Entry>, k: Bytes)
    requires entries != [] && Leq(entries[0].key, k)
    ensures UpperBound(entries, k) > 0
  {
  }

  lemma LowerBoundUnique(entries: seq<Entry>, k: Bytes, i: nat)
    requires Sorted(entries) && i <= |entries|
    requires forall j | 0 <= j < i :: Less(entries[j].key, k)
    requires i < |entries| ==> Leq(k, entries[i].key)
    ensures i == LowerBound(entries, k)
  {
  }

  lemma UpperBoundUnique(entries: seq<Entry>, k: Bytes, i: nat)
    requires Sorted(entries) && i <= |entries|
    requires forall j | 0 <= j < i :: Leq(entries[j].key, k)
    requires i < |entries| ==> Less(k, entries[i].key)
    ensures i == UpperBound(entries, k)
  {
  }

  // ---- space ----

  lemma CalcHeapExact(level: nat, prev: int, len: nat)
    requires prev % EntryAlign(level) == 0 && len + EntryHeader(level) <= prev < 0x1_0000
    ensures CalcHeap(level, prev, len) == prev - Footprint(level, len)
  {
    var x := prev - len - EntryHeader(level);
    SmallMod(x, 0x1_0000);
    if level == 0 {
      AlignTwo(prev, x);
    } else {
      AlignFour(prev, x);
    }
  }

  lemma SmallMod(x: nat, n: nat)
    requires x < n
    ensures x % n == x
  {
  }

  lemma AlignTwo(prev: nat, x: nat)
    requires prev % 2 == 0 && x <= prev
    ensures x - x % 2 == prev - (prev - x + 1) / 2 * 2
  {
  }

  lemma AlignFour(prev: nat, x: nat)
    requires prev % 4 == 0 && x <= prev
    ensures x - x % 4 == prev - (prev - x + 3) / 4 * 4
  {
  }

  /** The space test is right exactly when the subtraction does not wrap. */
  lemma HasSpaceExact(n: Node, key: Bytes)
    requires SpaceOk(n) && IsKey(key)
    ensures (HasSpace(n, key) <==> Fits(n, key)) <==> |key| + EntryHeader(n.level) <= n.heap
  {
    if |key| + EntryHeader(n.level) <= n.heap {
      CalcHeapExact(n.level, n.heap, |key|);
    }
  }

  /** A leaf emptied by deletes whose heap is nearly used up: the test accepts a key that does not fit. */
  lemma WrappedTestAccepts(key: Bytes)
    requires |key| == 40
    ensures var n := Node(0, [], None, None, 30); SpaceOk(n) && HasSpace(n, key) && !Fits(n, key)
  {
    assert CalcHeap(0, 30, 40) == 65524;
    assert Footprint(0, 40) == 42;
  }

  lemma {:induction false} UsedConcat(level: nat, a: seq<Entry>, b: seq<Entry>)
    ensures Used(level, a + b) == Used(level, a) + Used(level, b)
  {
    if a == [] {
      assert a + b == b;
    } else {
      assert (a + b)[1..] == a[1..] + b;
      UsedConcat(level, a[1..], b);
    }
  }

  lemma UsedInsert(level: nat, entries: seq<Entry>, e: Entry)
    ensures Used(level, InsertSeq(entries, e)) == Used(level, entries) + Footprint(level, |e.key|)
  {
    var i := LowerBound(entries, e.key);
    assert entries == entries[..i] + entries[i..];
    UsedConcat(level, entries[..i], entries[i..]);
    UsedConcat(level, entries[..i] + [e], entries[i..]);
    UsedConcat(level, entries[..i], [e]);
  }

  lemma InsertKeepsSpace(n: Node, e: Entry)
    requires SpaceOk(n) && Fits(n, e.key)
    ensures SpaceOk(InsertEntry(n, e))
    ensures InsertEntry(n, e).heap == n.heap - Footprint(n.level, |e.key|)
  {
    CalcHeapExact(n.level, n.heap, |e.key|);
    UsedInsert(n.level, n.entries, e);
    AlignedDifference(n.level, n.heap, Footprint(n.level, |e.key|));
  }

  lemma AlignedDifference(level: nat, a: int, b: int)
    requires a % EntryAlign(level) == 0 && b % EntryAlign(level) == 0
    ensures (a - b) % EntryAlign(level) == 0
  {
    if level == 0 {
      assert (a - b) % 2 == 0;
    } else {
      assert (a - b) % 4 == 0;
    }
  }

  lemma DeleteKeepsSpace(n: Node, i: nat)
    requires SpaceOk(n) && i < |n.entries|
    ensures SpaceOk(DeleteAt(n, i))
  {
    assert n.entries == n.entries[..i] + ([n.entries[i]] + n.entries[i + 1..]);
    UsedConcat(n.level, n.entries[..i], [n.entries[i]] + n.entries[i + 1..]);
    UsedConcat(n.level, [n.entries[i]], n.entries[i + 1..]);
    UsedConcat(n.level, n.entries[..i], n.entries[i + 1..]);
  }
}
