/** After a split the pending key has room. The split point balances key bytes only, yet the heap bytes,
    entry headers, padding, slots and the new fence fit as well. */
module SplitSpace {
  import opened ByteOrder
  import opened PageLayout

  const MIN_SEPARATOR := 9

  ghost predicate LensIn(entries: seq<Entry>, lo: nat, hi: nat) {
    forall e | e in entries :: lo <= |e.key| <= hi
  }

  ghost predicate FenceLen(high: Option<Bytes>, hi: nat) {
    high.Some? ==> |high.value| <= hi
  }

  // ---- sums ----

  lemma {:induction false} LenSumConcat(a: seq<Entry>, b: seq<Entry>)
    ensures LenSum(a + b) == LenSum(a) + LenSum(b)
  {
    if a == [] {
      assert a + b == b;
    } else {
      assert (a + b)[1..] == a[1..] + b;
      LenSumConcat(a[1..], b);
    }
  }

  lemma {:induction false} LeafCost(entries: seq<Entry>)
    requires LensIn(entries, 8, MAX_ROW_SIZE)
    ensures 9 * (Used(0, entries) + 2 * |entries|) <= 14 * LenSum(entries)
    ensures Used(0, entries) >= LenSum(entries) + 2 * |entries|
  {
    if entries != [] {
      assert entries[0] in entries;
      LeafCost(entries[1..]);
    }
  }

  lemma {:induction false} InnerCost(level: nat, entries: seq<Entry>)
    requires level > 0 && LensIn(entries, MIN_SEPARATOR, MAX_ROW_SIZE)
    ensures 9 * Used(level, entries) <= 20 * LenSum(entries)
    ensures 9 * |entries| <= LenSum(entries)
    ensures Used(level, entries) >= LenSum(entries) + 8 * |entries|
  {
    if entries != [] {
      assert entries[0] in entries;
      InnerCost(level, entries[1..]);
    }
  }

  // ---- the split point ----

  lemma {:induction false} ScanBalance(entries: seq<Entry>, from: nat, target: nat)
    requires 2 <= |entries| && from < |entries| && LenSum(entries[..from]) <= target && target <= LenSum(entries)
    ensures var r := SplitScan(entries, from, LenSum(entries[..from]), target);
            && 1 <= r < |entries|
            && LenSum(entries[..r - 1]) <= target
            && (LenSum(entries[..r]) >= target || r == |entries| - 1)
    decreases |entries| - from
  {
    var acc := LenSum(entries[..from]);
    PrefixStep(entries, from);
    if from == |entries| - 1 {
      assert entries[..from + 1] == entries;
      PrefixStep(entries, from - 1);
    } else if acc + |entries[from].key| < target {
      ScanBalance(entries, from + 1, target);
    }
  }

  lemma PrefixStep(entries: seq<Entry>, i: nat)
    requires i < |entries|
    ensures LenSum(entries[..i + 1]) == LenSum(entries[..i]) + |entries[i].key|
  {
    assert entries[..i + 1] == entries[..i] + [entries[i]];
    LenSumConcat(entries[..i], [entries[i]]);
  }

  /** The page cut in four: what precedes the middle entry, the middle entry (the last one left),
      the sentinel (the first one right) and the rest. */
  datatype Cut = Cut(before: seq<Entry>, middle: Entry, sentinel: Entry, rest: seq<Entry>)

  function CutAt(entries: seq<Entry>): Cut
    requires |entries| >= 2
  {
    var sp := FindSplitPoint(entries);
    Cut(entries[..sp - 1], entries[sp - 1], entries[sp], entries[sp + 1..])
  }

  lemma CutSums(level: nat, entries: seq<Entry>)
    requires |entries| >= 2
    ensures var c := CutAt(entries);
            && |entries| == |c.before| + 2 + |c.rest|
            && LenSum(entries) == LenSum(c.before) + |c.middle.key| + |c.sentinel.key| + LenSum(c.rest)
            && Used(level, entries) == Used(level, c.before) + Footprint(level, |c.middle.key|)
                                       + Footprint(level, |c.sentinel.key|) + Used(level, c.rest)
    ensures var sp := FindSplitPoint(entries);
            var c := CutAt(entries);
            && |c.before| == sp - 1
            && Used(level, entries[..sp]) == Used(level, c.before) + Footprint(level, |c.middle.key|)
            && Used(level, entries[sp..]) == Footprint(level, |c.sentinel.key|) + Used(level, c.rest)
  {
    var sp := FindSplitPoint(entries);
    var c := CutAt(entries);
    var left, right := c.before + [c.middle], [c.sentinel] + c.rest;
    assert entries[..sp] == left && entries[sp..] == right && entries == left + right;
    LenSumConcat(left, right);
    LenSumConcat(c.before, [c.middle]);
    LenSumConcat([c.sentinel], c.rest);
    UsedConcat(level, left, right);
    UsedConcat(level, c.before, [c.middle]);
    UsedConcat(level, [c.sentinel], c.rest);
  }

  /** Neither half is much heavier than the other, counted in key bytes and without the middle entry. */
  lemma CutBalance(entries: seq<Entry>)
    requires |entries| >= 2
    ensures var c := CutAt(entries);
            && LenSum(c.before) <= |c.middle.key| + |c.sentinel.key| + LenSum(c.rest)
            && (|c.sentinel.key| + LenSum(c.rest) <= LenSum(c.before) + |c.middle.key| + 1 || c.rest == [])
  {
    var target := LenSum(entries) / 2;
    assert entries[..0] == [];
    ScanBalance(entries, 0, target);
    var sp := FindSplitPoint(entries);
    CutSums(0, entries);
    PrefixStep(entries, sp - 1);
  }

  // ---- leaves: every length the binder lets through ----

  /** A leaf with keys of any length up to the limit: both halves take the pending key. */
  lemma LeafHalvesFit(n: Node, q: Pid, key: Bytes)
    requires n.level == 0 && |n.entries| >= 2 && SpaceOk(n)
    requires LensIn(n.entries, 8, MAX_ROW_SIZE - 1) && FenceLen(n.high, MAX_ROW_SIZE - 1) && IsKey(key)
    ensures var h := Halves(n, FindSplitPoint(n.entries), q); Fits(h.left, key) && Fits(h.right, key)
  {
    hide FindSplitPoint, Used, LenSum, Footprint, CutAt, Halves, Fits, SpaceOk, WeighOf, LensIn;
    var c := CutAt(n.entries);
    HalvesRoom(n, q, key);
    CutWeights(n);
    LeafWeights(n);
    LeafRoom(WeighOf(0, c.before), |c.middle.key|, Footprint(0, |c.middle.key|),
      |c.sentinel.key|, Footprint(0, |c.sentinel.key|), WeighOf(0, c.rest), FenceUsed(0, n.high), n.heap, Footprint(0,
        |key|));
  }

  /** What it means for the key to fit in either half. */
  lemma HalvesRoom(n: Node, q: Pid, key: Bytes)
    requires |n.entries| >= 2
    ensures var sp := FindSplitPoint(n.entries);
      var h, pending := Halves(n, sp, q), Footprint(n.level, |key|);
      && (Fits(h.left, key) <==>
            HEADER_SIZE + 2 * (sp + 1) + pending <= PAGE_SIZE - Used(n.level, n.entries[..sp]) - Footprint(n.level,
              |n.entries[sp].key|))
      && (Fits(h.right, key) <==>
            HEADER_SIZE + 2 * (|n.entries| - sp + 1) + pending <= PAGE_SIZE - Used(n.level,
              n.entries[sp..]) - FenceUsed(n.level, n.high))
  {
    hide Used, Footprint, FindSplitPoint;
  }

  /** Some entries: how many, their key bytes, their heap bytes. */
  datatype Weight = Weight(n: nat, len: nat, used: nat)

  ghost function WeighOf(level: nat, entries: seq<Entry>): Weight {
    Weight(|entries|, LenSum(entries), Used(level, entries))
  }

  /** The cut of a page in weights, and what the split point says about them. */
  lemma CutWeights(n: Node)
    requires |n.entries| >= 2 && SpaceOk(n)
    ensures var c, sp := CutAt(n.entries), FindSplitPoint(n.entries);
      var b, r := WeighOf(n.level, c.before), WeighOf(n.level, c.rest);
      var m, s, fm, fs := |c.middle.key|, |c.sentinel.key|, Footprint(n.level, |c.middle.key|), Footprint(n.level,
        |c.sentinel.key|);
      && b.n == sp - 1 && r.n == |n.entries| - sp - 1 && n.entries[sp] == c.sentinel
      && Used(n.level, n.entries[..sp]) == b.used + fm && Used(n.level, n.entries[sp..]) == fs + r.used
      && HEADER_SIZE + 2 * (b.n + 2 + r.n) <= n.heap
      && n.heap + b.used + fm + fs + r.used + FenceUsed(n.level, n.high) <= PAGE_SIZE
      && b.len <= m + s + r.len && (s + r.len <= b.len + m + 1 || r == Weight(0, 0, 0))
  {
    hide FindSplitPoint, Used, LenSum, Footprint, CutAt;
    CutSums(n.level, n.entries);
    CutBalance(n.entries);
    CutPlace(n.entries);
    NoEntry(n.level);
  }

  lemma LeafWeights(n: Node)
    requires n.level == 0 && |n.entries| >= 2 && LensIn(n.entries, 8, MAX_ROW_SIZE - 1)
    ensures var c := CutAt(n.entries);
      var b, r, s, fs := WeighOf(0, c.before), WeighOf(0, c.rest), |c.sentinel.key|, Footprint(0, |c.sentinel.key|);
      && |c.middle.key| < MAX_ROW_SIZE && s < MAX_ROW_SIZE
      && 9 * (b.used + 2 * b.n) <= 14 * b.len && b.used >= b.len + 2 * b.n
      && 9 * (fs + r.used + 2 * (r.n + 1)) <= 14 * (s + r.len) && fs + r.used >= s + r.len + 2 * (r.n + 1)
  {
    hide FindSplitPoint, Used, LenSum, Footprint;
    var c := CutAt(n.entries);
    CutLens(n.entries, 8, MAX_ROW_SIZE - 1);
    LeafCost(c.before);
    LeafCost([c.sentinel] + c.rest);
    LenSumConcat([c.sentinel], c.rest);
    OneEntry(0, c.sentinel);
    UsedConcat(0, [c.sentinel], c.rest);
  }

  lemma CutPlace(entries: seq<Entry>)
    requires |entries| >= 2
    ensures |CutAt(entries).before| == FindSplitPoint(entries) - 1
    ensures |CutAt(entries).rest| == |entries| - FindSplitPoint(entries) - 1
    ensures CutAt(entries).sentinel == entries[FindSplitPoint(entries)]
  {
  }

  lemma LeafRoom(b: Weight, m: nat, fm: nat, s: nat, fs: nat, r: Weight, fence: nat, heap: nat, pending: nat)
    requires HEADER_SIZE + 2 * (b.n + 2 + r.n) <= heap && heap + b.used + fm + fs + r.used + fence <= PAGE_SIZE
    requires b.len <= m + s + r.len && (s + r.len <= b.len + m + 1 || r == Weight(0, 0, 0))
    requires 9 * (b.used + 2 * b.n) <= 14 * b.len && b.used >= b.len + 2 * b.n
    requires 9 * (fs + r.used + 2 * (r.n + 1)) <= 14 * (s + r.len) && fs + r.used >= s + r.len + 2 * (r.n + 1)
    requires m < MAX_ROW_SIZE && s < MAX_ROW_SIZE && m + 2 <= fm < m + 4 && s + 2 <= fs < s + 4
    requires fence < MAX_ROW_SIZE + 3 && pending < MAX_ROW_SIZE + 3
    ensures HEADER_SIZE + 2 * (b.n + 2) + pending <= PAGE_SIZE - b.used - fm - fs
    ensures HEADER_SIZE + 2 * (r.n + 2) + pending <= PAGE_SIZE - fs - r.used - fence
  {
  }

  lemma NoEntry(level: nat)
    ensures LenSum([]) == 0 && Used(level, []) == 0
  {
  }

  lemma OneEntry(level: nat, e: Entry)
    ensures LenSum([e]) == |e.key| && Used(level, [e]) == Footprint(level, |e.key|)
  {
  }

  lemma CutLens(entries: seq<Entry>, lo: nat, hi: nat)
    requires |entries| >= 2 && LensIn(entries[1..], lo, hi) && |entries[0].key| <= hi
    ensures var c := CutAt(entries);
            && |c.middle.key| <= hi && lo <= |c.sentinel.key| <= hi && LensIn(c.rest, lo, hi)
            && (c.before != [] ==> lo <= |c.middle.key| && |c.before[0].key| <= hi && LensIn(c.before[1..], lo, hi))
            && (lo <= |entries[0].key| ==> LensIn(c.before, lo, hi) && lo <= |c.middle.key|)
  {
    var sp := FindSplitPoint(entries);
    assert forall i | 0 < i < |entries| :: entries[i] == entries[1..][i - 1];
    assert entries[sp] in entries[1..];
    if sp > 1 {
      assert entries[sp - 1] in entries[1..];
    }
    var c := CutAt(entries);
    forall e | e in c.rest ensures e in entries[1..] {
      var i :| 0 <= i < |c.rest| && c.rest[i] == e;
      assert e == entries[sp + 1 + i];
    }
    forall i | 0 < i < |c.before| ensures c.before[i] in entries[1..] {
      assert c.before[i] == entries[i];
    }
  }

  // ---- inner pages ----

  /** Separators are keys of at least nine bytes; only the leftmost one may be empty. */
  ghost predicate InnerPage(n: Node, cap: nat) {
    && n.level > 0 && |n.entries| >= 2 && SpaceOk(n)
    && LensIn(n.entries[1..], MIN_SEPARATOR, cap) && |n.entries[0].key| <= cap && FenceLen(n.high, cap)
    && (|n.entries[0].key| >= MIN_SEPARATOR || n.entries[0].key == [])
  }

  /** The first entry counted apart, because its key may be empty. */
  lemma FirstApart(level: nat, entries: seq<Entry>)
    requires level > 0 && entries != [] && LensIn(entries[1..], MIN_SEPARATOR, MAX_ROW_SIZE)
    requires |entries[0].key| >= MIN_SEPARATOR || entries[0].key == []
    requires |entries[0].key| <= MAX_ROW_SIZE
    ensures 9 * Used(level, entries) <= 20 * LenSum(entries) + 72
    ensures 9 * |entries| <= LenSum(entries) + 9
    ensures Used(level, entries) >= LenSum(entries) + 8 * |entries|
  {
    hide Used, LenSum;
    var rest := entries[1..];
    assert entries == [entries[0]] + rest;
    LenSumConcat([entries[0]], rest);
    UsedConcat(level, [entries[0]], rest);
    OneEntry(level, entries[0]);
    InnerCost(level, rest);
    FirstFootprint(level, |entries[0].key|);
  }

  lemma FirstFootprint(level: nat, len: nat)
    requires level > 0 && (len >= MIN_SEPARATOR || len == 0)
    ensures 9 * Footprint(level, len) <= 20 * len + 72
  {
  }

  /** The space test said no, so the subtraction did not wrap and the entry would end inside the heap. */
  lemma RejectedDoesNotWrap(n: Node, key: Bytes)
    requires SpaceOk(n) && |key| < MAX_ROW_SIZE && !HasSpace(n, key)
    ensures |key| + EntryHeader(n.level) <= n.heap
  {
  }

  /** Whenever the code splits an inner page, both halves take the pending separator, up to the length limit. */
  lemma InnerHalvesFit(n: Node, q: Pid, key: Bytes)
    requires |n.entries| >= 2 && SpaceOk(n) && InnerPage(n, MAX_ROW_SIZE - 1) && |key| < MAX_ROW_SIZE && !HasSpace(n, key)
    ensures var h := Halves(n, FindSplitPoint(n.entries), q); Fits(h.left, key) && Fits(h.right, key)
  {
    hide FindSplitPoint, Used, LenSum, HasSpace, Footprint, CutAt, Halves, Fits, SpaceOk, WeighOf, InnerPage;
    var level, c := n.level, CutAt(n.entries);
    HalvesRoom(n, q, key);
    CutWeights(n);
    InnerWeights(n, key);
    InnerRoom(WeighOf(level, c.before), |c.middle.key|, Footprint(level, |c.middle.key|), |c.sentinel.key|,
      Footprint(level, |c.sentinel.key|), WeighOf(level, c.rest), FenceUsed(level, n.high), n.heap, |key|,
        Footprint(level, |key|));
  }

  lemma InnerWeights(n: Node, key: Bytes)
    requires InnerPage(n, MAX_ROW_SIZE - 1) && |key| < MAX_ROW_SIZE && !HasSpace(n, key)
    ensures n.level > 0 && FenceUsed(n.level, n.high) < MAX_ROW_SIZE + 11 && |key| + 8 <= n.heap
    ensures var c := CutAt(n.entries);
      var b, r := WeighOf(n.level, c.before), WeighOf(n.level, c.rest);
      && |c.middle.key| < MAX_ROW_SIZE && |c.sentinel.key| < MAX_ROW_SIZE
      && 9 * b.used <= 20 * b.len + 72 && 9 * b.n <= b.len + 9 && b.used >= b.len + 8 * b.n
      && 9 * r.used <= 20 * r.len && 9 * r.n <= r.len && r.used >= r.len + 8 * r.n
  {
    hide FindSplitPoint, Used, LenSum, HasSpace, Footprint;
    RejectedDoesNotWrap(n, key);
    CutLens(n.entries, MIN_SEPARATOR, MAX_ROW_SIZE - 1);
    BeforeCost(n.level, n.entries);
    InnerCost(n.level, CutAt(n.entries).rest);
  }

  lemma InnerRoom(b: Weight, m: nat, fm: nat, s: nat, fs: nat, r: Weight, fence: nat, heap: nat, key: nat, pending: nat)
    requires HEADER_SIZE + 2 * (b.n + 2 + r.n) <= heap && heap + b.used + fm + fs + r.used + fence <= PAGE_SIZE
    requires key + 8 <= heap && key < MAX_ROW_SIZE && key + 8 <= pending < key + 12
    requires b.len <= m + s + r.len && (s + r.len <= b.len + m + 1 || r == Weight(0, 0, 0))
    requires 9 * b.used <= 20 * b.len + 72 && 9 * b.n <= b.len + 9 && b.used >= b.len + 8 * b.n
    requires 9 * r.used <= 20 * r.len && 9 * r.n <= r.len && r.used >= r.len + 8 * r.n
    requires m < MAX_ROW_SIZE && s < MAX_ROW_SIZE && m + 8 <= fm < m + 12 && s + 8 <= fs < s + 12
    requires fence < MAX_ROW_SIZE + 11
    ensures HEADER_SIZE + 2 * (b.n + 2) + pending <= PAGE_SIZE - b.used - fm - fs
    ensures HEADER_SIZE + 2 * (r.n + 2) + pending <= PAGE_SIZE - fs - r.used - fence
  {
  }

  lemma BeforeCost(level: nat, entries: seq<Entry>)
    requires level > 0 && |entries| >= 2 && LensIn(entries[1..], MIN_SEPARATOR, MAX_ROW_SIZE - 1)
    requires |entries[0].key| < MAX_ROW_SIZE && (|entries[0].key| >= MIN_SEPARATOR || entries[0].key == [])
    ensures var a := CutAt(entries).before;
            && 9 * Used(level, a) <= 20 * LenSum(a) + 72
            && 9 * |a| <= LenSum(a) + 9
            && Used(level, a) >= LenSum(a) + 8 * |a|
  {
    hide FindSplitPoint;
    CutLens(entries, MIN_SEPARATOR, MAX_ROW_SIZE - 1);
    CutSums(level, entries);
    var a := CutAt(entries).before;
    if a != [] {
      assert a[0] == entries[0];
      FirstApart(level, a);
    }
  }
}
