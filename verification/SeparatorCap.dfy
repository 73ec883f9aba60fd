/** What the length limit would have to be if the space test of inner pages did not wrap. */
module SeparatorCap {
  import opened ByteOrder
  import opened PageLayout
  import opened SplitSpace

  const EXACT_CAP := 788

  /** The half the pending separator belongs to has room, on every inner page without room for it. */
  ghost predicate SplitAlwaysFits(cap: nat) {
    forall n, q, key | InnerPage(n, cap) && Sorted(n.entries) && MIN_SEPARATOR <= |key| <= cap && !Fits(n, key) ::
      PendingFits(n, q, key)
  }

  ghost predicate PendingFits(n: Node, q: Pid, key: Bytes)
    requires |n.entries| >= 2
  {
    var h := Halves(n, FindSplitPoint(n.entries), q);
    if Leq(h.sentinel, key) then Fits(h.right, key) else Fits(h.left, key)
  }

  lemma {:induction false} UsedAligned(level: nat, entries: seq<Entry>)
    requires level > 0
    ensures Used(level, entries) % 4 == 0
  {
    if entries != [] {
      UsedAligned(level, entries[1..]);
    }
  }

  lemma CapSuffices(n: Node, q: Pid, key: Bytes)
    requires InnerPage(n, EXACT_CAP) && |key| <= EXACT_CAP
    ensures var h := Halves(n, FindSplitPoint(n.entries), q); Fits(h.left, key) && Fits(h.right, key)
  {
    hide FindSplitPoint, Used, LenSum, Footprint, CutAt, Halves, Fits;
    HalvesRoom(n, q, key);
    CutPlace(n.entries);
    var c := CutAt(n.entries);
    CutSums(n.level, n.entries);
    CutBalance(n.entries);
    CutLens(n.entries, MIN_SEPARATOR, EXACT_CAP);
    BeforeCost(n.level, n.entries);
    UsedAligned(n.level, c.before);
    InnerCost(n.level, c.rest);
    NoEntry(n.level);
    FootprintCap(n.level, |key|);
    FootprintCap(n.level, |c.middle.key|);
    FootprintCap(n.level, |c.sentinel.key|);
  }

  lemma FootprintCap(level: nat, len: nat)
    requires level > 0 && len <= EXACT_CAP
    ensures Footprint(level, len) <= 796
  {
  }

  // ---- one byte more is too many ----

  /** Keys of any length, ordered by i. */
  function Numbered(i: nat, len: nat): (k: Bytes)
    requires i < 0x1_0000 && len >= 2
    ensures |k| == len
  {
    [i / 256, i % 256] + Zeros(len - 2)
  }

  lemma NumberedOrder(i: nat, m: nat, j: nat, n: nat)
    requires i < j < 0x1_0000 && m >= 2 && n >= 2
    ensures Less(Numbered(i, m), Numbered(j, n))
  {
    var a, b: Bytes := [i / 256, i % 256], [j / 256, j % 256];
    var d: nat := if a[0] == b[0] then 1 else 0;
    assert a[..d] == b[..d] && a[d] < b[d];
    BeforeDecides(a, b, Zeros(m - 2), Zeros(n - 2));
  }

  function Small(n: nat): (s: seq<Entry>)
    requires n < 0x1_0000
    ensures |s| == n
    ensures forall i | 0 <= i < n :: s[i] == Entry(Numbered(i + 1, 9), 1)
  {
    if n == 0 then [] else Small(n - 1) + [Entry(Numbered(n, 9), 1)]
  }

  lemma {:induction false} SmallSums(n: nat)
    requires n < 0x1_0000
    ensures LenSum(Small(n)) == 9 * n && Used(1, Small(n)) == 20 * n
  {
    if n > 0 {
      SmallSums(n - 1);
      LenSumConcat(Small(n - 1), [Entry(Numbered(n, 9), 1)]);
      UsedConcat(1, Small(n - 1), [Entry(Numbered(n, 9), 1)]);
    }
  }

  /** 262 short separators, then three long ones: the page is exactly full. */
  function Before(): (s: seq<Entry>)
    ensures |s| == 263
  {
    [Entry([], 1)] + Small(262)
  }

  function Tail(): seq<Entry> {
    [Entry(Numbered(263, 788), 1), Entry(Numbered(265, 789), 1), Entry(Numbered(266, 788), 1)]
  }

  function FullPage(): Node {
    Node(1, Before() + Tail(), None, None, 552)
  }

  function NumberAt(i: nat): nat
    requires i < 266
  {
    if i <= 263 then i else i + 1
  }

  lemma FullPageKeys(i: nat)
    requires i < 266
    ensures |FullPage().entries| == 266
    ensures i == 0 ==> FullPage().entries[i].key == []
    ensures i > 0 ==> FullPage().entries[i].key == Numbered(NumberAt(i), if i <= 262 then 9 else if i
      == 264 then 789 else 788)
  {
    hide Numbered, Small;
    if 0 < i < 263 {
      assert FullPage().entries[i] == Small(262)[i - 1];
    }
  }

  lemma FullPageSorted()
    ensures Sorted(FullPage().entries)
  {
    hide Numbered, FullPage;
    FullPageKeys(0);
    forall i, j | 0 <= i < j < |FullPage().entries| ensures Less(FullPage().entries[i].key, FullPage().entries[j].key) {
      FullPageKeys(i);
      FullPageKeys(j);
      if i > 0 {
        NumberedOrder(NumberAt(i), |FullPage().entries[i].key|, NumberAt(j), |FullPage().entries[j].key|);
      }
    }
  }

  lemma FullPageSums()
    ensures LenSum(Before()) == 2358 && Used(1, Before()) == 5248
    ensures LenSum(FullPage().entries) == 4723 && Used(1, FullPage().entries) == 7640
    ensures LenSum(FullPage().entries[..264]) == 3146
  {
    hide Numbered, Small, LenSum, Used, Tail, Before, FullPage;
    BeforeSums();
    TailSums();
    BeforePrefix();
    LenSumConcat(Before(), Tail());
    UsedConcat(1, Before(), Tail());
    FullPageKeys(263);
    PrefixStep(FullPage().entries, 263);
  }

  lemma BeforeSums()
    ensures LenSum(Before()) == 2358 && Used(1, Before()) == 5248
  {
    hide Numbered, Small, LenSum, Used;
    SmallSums(262);
    LenSumConcat([Entry([], 1)], Small(262));
    UsedConcat(1, [Entry([], 1)], Small(262));
    OneEntry(1, Entry([], 1));
  }

  lemma TailSums()
    ensures LenSum(Tail()) == 2365 && Used(1, Tail()) == 796 + 800 + 796
  {
    hide Numbered;
    var t := Tail();
    assert t == [t[0]] + ([t[1]] + [t[2]]);
    LenSumConcat([t[0]], [t[1]] + [t[2]]);
    LenSumConcat([t[1]], [t[2]]);
    UsedConcat(1, [t[0]], [t[1]] + [t[2]]);
    UsedConcat(1, [t[1]], [t[2]]);
    OneEntry(1, t[0]);
    OneEntry(1, t[1]);
    OneEntry(1, t[2]);
  }

  lemma {:induction false} PrefixMonotone(entries: seq<Entry>, i: nat, j: nat)
    requires i <= j <= |entries|
    ensures LenSum(entries[..i]) <= LenSum(entries[..j])
    decreases j
  {
    if i < j {
      PrefixMonotone(entries, i, j - 1);
      PrefixStep(entries, j - 1);
    }
  }

  lemma FullPageSplitPoint()
    ensures FindSplitPoint(FullPage().entries) == 264
  {
    hide Numbered, Small, LenSum, Used, FullPage;
    var es := FullPage().entries;
    FullPageKeys(0);
    FullPageSums();
    NoEntry(1);
    assert es[..0] == [];
    ScanBalance(es, 0, LenSum(es) / 2);
    var sp := FindSplitPoint(es);
    if sp > 264 {
      PrefixMonotone(es, 264, sp - 1);
    }
    if sp < 264 {
      BeforePrefix();
      PrefixMonotone(es, sp, 263);
    }
  }

  lemma BeforePrefix()
    ensures FullPage().entries == Before() + Tail() && FullPage().entries[..263] == Before()
  {
  }

  lemma FullPageIsInner()
    ensures InnerPage(FullPage(), 789)
  {
    hide Numbered, Small, LenSum, Used, FullPage;
    FullPageKeys(0);
    FullPageSums();
    FullPageRest();
    forall e | e in FullPage().entries[1..] ensures MIN_SEPARATOR <= |e.key| <= 789 {
      var i :| 0 <= i < 265 && FullPage().entries[1..][i] == e;
      FullPageKeys(i + 1);
      assert e == FullPage().entries[i + 1];
    }
  }

  lemma FullPageRest()
    ensures FullPage().level == 1 && FullPage().heap == 552 && FullPage().high.None?
  {
  }

  lemma FullPageOverflows(q: Pid)
    ensures !Fits(FullPage(), Numbered(264, 789)) && !PendingFits(FullPage(), q, Numbered(264, 789))
  {
    hide Numbered, Small, LenSum, Used, FullPage, FindSplitPoint, Tail, Before, Rank, MemCmp;
    var n := FullPage();
    FullPageSums();
    FullPageSplitPoint();
    FullPageRest();
    FullPageKeys(264);
    FullPageKeys(263);
    BeforePrefix();
    var key := Numbered(264, 789);
    NumberedOrder(264, 789, 265, 789);
    assert n.entries[..264] == Before() + [n.entries[263]];
    UsedConcat(1, Before(), [n.entries[263]]);
    OneEntry(1, n.entries[263]);
  }

  /** With an exact space test, splits of inner pages always leave room for the pending separator
      exactly when no separator is longer than 788 bytes. */
  lemma ExactCap(cap: nat)
    ensures SplitAlwaysFits(cap) <==> cap <= EXACT_CAP
  {
    hide FindSplitPoint, Used, LenSum, Footprint, FullPage, Numbered, Sorted;
    if cap <= EXACT_CAP {
      forall n, q, key | InnerPage(n, cap) && Sorted(n.entries) && MIN_SEPARATOR <= |key| <= cap && !Fits(n, key)
        ensures PendingFits(n, q, key)
      {
        CapSuffices(n, q, key);
      }
    } else {
      FullPageIsInner();
      FullPageSorted();
      FullPageOverflows(0);
      var key := Numbered(264, 789);
      assert InnerPage(FullPage(), cap) && !Fits(FullPage(), key) && !PendingFits(FullPage(), 0, key);
    }
  }
}
