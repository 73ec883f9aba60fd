/** Repacking the heap of a page in place, from the highest entry down. */
module Compaction {
  import opened ByteOrder
  import opened PageLayout
  import opened PageBytes

  /** Heap bytes of the picked entries. */
  ghost function UsedBy(level: nat, es: seq<Entry>, order: seq<nat>): nat
    requires forall i | 0 <= i < |order| :: order[i] < |es|
  {
    if order == [] then 0 else Footprint(level, |es[order[0]].key|) + UsedBy(level, es, order[1..])
  }

  lemma {:induction false} UsedBySplit(level: nat, es: seq<Entry>, a: seq<nat>, b: seq<nat>)
    requires forall i | 0 <= i < |a| :: a[i] < |es|
    requires forall i | 0 <= i < |b| :: b[i] < |es|
    ensures (forall i | 0 <= i < |a + b| :: (a + b)[i] < |es|)
      && UsedBy(level, es, a + b) == UsedBy(level, es, a) + UsedBy(level, es, b)
  {
    if a == [] {
      assert a + b == b;
    } else {
      assert (a + b)[1..] == a[1..] + b;
      UsedBySplit(level, es, a[1..], b);
    }
  }

  /** The numbers below n, each once. */
  ghost predicate Orders(order: seq<nat>, n: nat) {
    && (forall i | 0 <= i < |order| :: order[i] < n)
    && (forall x | 0 <= x < n :: x in order)
    && (forall i, j | 0 <= i < j < |order| :: order[i] != order[j])
  }

  ghost predicate Descending(offs: seq<nat>, order: seq<nat>) {
    && (forall i | 0 <= i < |order| :: order[i] < |offs|)
    && (forall i, j | 0 <= i < j < |order| :: offs[order[i]] >= offs[order[j]])
  }

  /** Where an offset goes among those in order. */
  method Place(offs: seq<nat>, off: nat, order: seq<nat>) returns (p: nat)
    requires Descending(offs, order)
    ensures p <= |order| && (forall a | 0 <= a < p :: offs[order[a]] >= off) && (p < |order| ==> offs[order[p]] < off)
  {
    p := 0;
    while p < |order| && offs[order[p]] >= off
      invariant p <= |order| && forall a | 0 <= a < p :: offs[order[a]] >= off
    {
      p := p + 1;
    }
  }

  /** The slots in descending order of offset. */
  method SortedDescending(offs: seq<nat>, ghost level: nat, ghost es: seq<Entry>) returns (order: seq<nat>)
    requires |es| == |offs|
    ensures Orders(order, |offs|) && UsedBy(level, es, order) == Used(level, es)
    ensures Descending(offs, order) && |order| == |offs|
  {
    hide UsedBy, Used, Orders, Descending;
    order := [];
    UsedByNone(level, es);
    NoOrder(offs);
    for i := 0 to |offs|
      invariant |order| == i && Orders(order, i) && forall a | 0 <= a < |order| :: order[a] < i
      invariant UsedBy(level, es, order) == Used(level, es[..i])
      invariant Descending(offs[..i], order)
    {
      var p := Place(offs[..i], offs[i], order);
      OrderInserted(offs[..i], offs[i], order, p);
      UsedInserted(level, es, order, p, i);
      order := order[..p] + [i] + order[p..];
      OrderBelow(order, i + 1);
      assert offs[..i + 1] == offs[..i] + [offs[i]];
    }
    assert es[..|offs|] == es && offs[..|offs|] == offs;
  }

  lemma NoOrder(offs: seq<nat>)
    ensures Orders([], 0) && Descending(offs[..0], [])
  {
  }

  lemma OrderBelow(order: seq<nat>, n: nat)
    requires Orders(order, n)
    ensures forall a | 0 <= a < |order| :: order[a] < n
  {
  }

  lemma UsedByNone(level: nat, es: seq<Entry>)
    ensures UsedBy(level, es, []) == Used(level, es[..0])
  {
  }

  lemma UsedOne(level: nat, es: seq<Entry>, i: nat)
    requires i < |es|
    ensures UsedBy(level, es, [i]) == Used(level, [es[i]])
  {
  }

  lemma UsedInserted(level: nat, es: seq<Entry>, order: seq<nat>, p: nat, i: nat)
    requires p <= |order| && i < |es| && (forall a | 0 <= a < |order| :: order[a] < i)
    requires UsedBy(level, es, order) == Used(level, es[..i])
    ensures forall a | 0 <= a < |order| + 1 :: (order[..p] + [i] + order[p..])[a] < |es|
    ensures UsedBy(level, es, order[..p] + [i] + order[p..]) == Used(level, es[..i + 1])
  {
    hide UsedBy, Used, Footprint;
    UsedOne(level, es, i);
    assert order == order[..p] + order[p..];
    UsedBySplit(level, es, order[..p], order[p..]);
    UsedBySplit(level, es, order[..p], [i]);
    UsedBySplit(level, es, order[..p] + [i], order[p..]);
    assert es[..i + 1] == es[..i] + [es[i]];
    UsedConcat(level, es[..i], [es[i]]);
  }

  /** Number |offs| put at place p of an order of the numbers below. */
  lemma OrderInserted(offs: seq<nat>, off: nat, order: seq<nat>, p: nat)
    requires Orders(order, |offs|) && p <= |order| && Descending(offs, order)
    requires forall a | 0 <= a < p :: offs[order[a]] >= off
    requires p < |order| ==> offs[order[p]] < off
    ensures var u, more := order[..p] + [|offs|] + order[p..], offs + [off];
      Orders(u, |offs| + 1) && Descending(more, u)
  {
    hide Descending;
    var u := order[..p] + [|offs|] + order[p..];
    PlacedOrders(order, |offs|, p);
    assert Descending(offs + [off], u) by { PlacedDescends(offs, off, order, p); }
  }

  lemma PlacedOrders(order: seq<nat>, n: nat, p: nat)
    requires Orders(order, n) && p <= |order|
    ensures Orders(order[..p] + [n] + order[p..], n + 1)
  {
    var u := order[..p] + [n] + order[p..];
    forall x | 0 <= x < n + 1 ensures x in u {
      if x < n {
        assert x in order;
        var i :| 0 <= i < |order| && order[i] == x;
        assert u[if i < p then i else i + 1] == x;
      } else {
        assert u[p] == x;
      }
    }
  }

  lemma PlacedDescends(offs: seq<nat>, off: nat, order: seq<nat>, p: nat)
    requires Descending(offs, order) && p <= |order|
    requires forall a | 0 <= a < p :: offs[order[a]] >= off
    requires p < |order| ==> offs[order[p]] < off
    ensures Descending(offs + [off], order[..p] + [|offs|] + order[p..])
  {
    var u, more := order[..p] + [|offs|] + order[p..], offs + [off];
    forall a, b | 0 <= a < b < |u| ensures u[a] < |more| && u[b] < |more| && more[u[a]] >= more[u[b]] {
      assert u[a] == if a < p then order[a] else if a == p then |offs| else order[a - 1];
      assert u[b] == if b < p then order[b] else if b == p then |offs| else order[b - 1];
    }
  }

  /** The compaction after k moves: was are the offsets at the start, h the heap offset. */
  ghost predicate Packing(level: nat, m: Bytes, lo: nat, offs: seq<nat>, was: seq<nat>, es: seq<Entry>, order: seq<nat>,
      k: nat, h: nat) {
    && |was| == |offs| == |es| == |order| && k <= |order| && Orders(order, |offs|)
    && Good(level, m, lo, offs) && EntriesAt(level, m, lo, offs) == es
    && (forall i | k <= i < |order| :: offs[order[i]] == was[order[i]])
    && (forall i, j | 0 <= i < j < |order| :: was[order[i]] > was[order[j]])
    && (forall i | 0 <= i < k :: h <= offs[order[i]])
    && (forall i | k <= i < |order| :: offs[order[i]] + Size(level, m, offs[order[i]]) <= h)
    && h + UsedBy(level, es, order[..k]) == PAGE_SIZE && h % EntryAlign(level) == 0
  }

  /** Moving the next entry to right below h: it does not go down, and nothing else is written over. */
  lemma MoveOk(level: nat, m: Bytes, lo: nat, offs: seq<nat>, was: seq<nat>, es: seq<Entry>, order: seq<nat>, k: nat, h: nat)
    requires Packing(level, m, lo, offs, was, es, order, k, h) && k < |order|
    ensures var o := offs[order[k]];
      && lo <= o && o + EntryHeader(level) + LenAt(level, m, o) <= PAGE_SIZE && |m| == PAGE_SIZE
      && o + Size(level, m, o) <= h && h <= PAGE_SIZE
      && var d := h - Size(level, m, o);
         && d == CalcHeap(level, h, LenAt(level, m, o)) && d >= o
         && var n := Blit(m, d, m[o..o + EntryHeader(level) + LenAt(level, m, o)]);
            Packing(level, n, lo, offs[order[k] := d], was, es, order, k + 1, d)
  {
    hide Good, EntriesAt, Blit, LenAt, Size, OthersAre, CalcHeap, Footprint, UsedBy, EntryAt, EntryAlign;
    var x := order[k];
    var o := offs[x];
    MovePlace(level, m, lo, offs, was, es, order, k, h);
    var len := LenAt(level, m, o);
    var d := h - Size(level, m, o);
    var n, after := Blit(m, d, m[o..o + EntryHeader(level) + len]), offs[x := d];
    BlitThere(m, d, m[o..o + EntryHeader(level) + len]);
    MovedThere(level, m, n, o, d);
    OthersKept(level, m, lo, offs, was, es, order, k, h, n);
    MovedGood(level, m, lo, offs, es, n, x, d, order, k, h);
    UsedNext(level, es, order, k);
    Assembled(level, m, n, lo, offs, was, es, order, k, h, d);
  }

  lemma Assembled(level: nat, m: Bytes, n: Bytes, lo: nat, offs: seq<nat>, was: seq<nat>, es: seq<Entry>,
      order: seq<nat>, k: nat, h: nat, d: nat)
    requires Packing(level, m, lo, offs, was, es, order, k, h) && k < |order| && order[k] < |offs|
    requires OthersAre(level, m, n, lo, offs, es, order, k, h) && offs[order[k]] <= d <= h && d % EntryAlign(level) == 0
    requires Good(level, n, lo, offs[order[k] := d]) && EntriesAt(level, n, lo, offs[order[k] := d]) == es
    requires d + UsedBy(level, es, order[..k + 1]) == PAGE_SIZE
    ensures Packing(level, n, lo, offs[order[k] := d], was, es, order, k + 1, d)
  {
    hide Good, EntriesAt, LenAt, Size, UsedBy, EntryOk, EntryAt;
    var after := offs[order[k] := d];
    forall i | 0 <= i < |order| && i != k ensures after[order[i]] == offs[order[i]] {
    }
    assert after[order[k]] == d;
  }

  lemma UsedNext(level: nat, es: seq<Entry>, order: seq<nat>, k: nat)
    requires k < |order| && forall i | 0 <= i < |order| :: order[i] < |es|
    ensures UsedBy(level, es, order[..k + 1]) == UsedBy(level, es, order[..k]) + Footprint(level, |es[order[k]].key|)
  {
    assert order[..k + 1] == order[..k] + [order[k]];
    UsedBySplit(level, es, order[..k], [order[k]]);
  }

  lemma BlitThere(m: Bytes, d: nat, b: Bytes)
    requires d + |b| <= |m|
    ensures Blit(m, d, b)[d..d + |b|] == b
  {
  }

  lemma MovePlace(level: nat, m: Bytes, lo: nat, offs: seq<nat>, was: seq<nat>, es: seq<Entry>, order: seq<nat>, k: nat,
      h: nat)
    requires Packing(level, m, lo, offs, was, es, order, k, h) && k < |order|
    ensures order[k] < |offs| == |es|
    ensures var o := offs[order[k]];
      && EntryOk(level, m, lo, o) && o + Size(level, m, o) <= h <= PAGE_SIZE
      && es[order[k]] == EntryAt(level, m, o) && |es[order[k]].key| == LenAt(level, m, o)
      && var d := h - Size(level, m, o);
         d == CalcHeap(level, h, LenAt(level, m, o)) && d >= o && d % EntryAlign(level) == 0
         && Size(level, m, o) == Footprint(level, LenAt(level, m, o))
         && EntryHeader(level) + LenAt(level, m, o) <= Size(level, m, o)
  {
    var x := order[k];
    var o := offs[x];
    assert EntryOk(level, m, lo, o);
    var len := LenAt(level, m, o);
    assert es[x] == EntryAt(level, m, o);
    CalcHeapExact(level, h, len);
    AlignedDifference(level, h, Footprint(level, len));
  }

  /** m before and n after the entry order[k] was moved. */
  ghost predicate OthersAre(level: nat, m: Bytes, n: Bytes, lo: nat, offs: seq<nat>, es: seq<Entry>, order: seq<nat>,
      k: nat, h: nat)
  {
    && |es| == |offs| && |m| == |n| == PAGE_SIZE && k < |order| && order[k] < |offs|
    && forall i | 0 <= i < |order| && i != k ::
      && order[i] < |offs| && EntryOk(level, n, lo, offs[order[i]]) && EntryOk(level, m, lo, offs[order[i]])
      && Size(level, n, offs[order[i]]) == Size(level, m, offs[order[i]])
      && EntryAt(level, n, offs[order[i]]) == es[order[i]]
      && (i < k ==> h <= offs[order[i]])
      && (i > k ==> offs[order[i]] + Size(level, m, offs[order[i]]) <= offs[order[k]])
  }

  /** The entries not moved in this step: those above h, and those that end before the moved one. */
  lemma OthersKept(level: nat, m: Bytes, lo: nat, offs: seq<nat>, was: seq<nat>, es: seq<Entry>, order: seq<nat>,
      k: nat, h: nat, n: Bytes)
    requires Packing(level, m, lo, offs, was, es, order, k, h) && k < |order| && order[k] < |offs|
    requires EntryOk(level, m, lo, offs[order[k]]) && offs[order[k]] + Size(level, m, offs[order[k]]) <= h <= PAGE_SIZE
    requires var o := offs[order[k]];
      var d := h - Size(level, m, o); n == Blit(m, d, m[o..o + EntryHeader(level) + LenAt(level, m, o)])
    ensures OthersAre(level, m, n, lo, offs, es, order, k, h)
  {
    var x := order[k];
    var o := offs[x];
    forall i | 0 <= i < |order| && i != k
      ensures order[i] < |offs| && EntryOk(level, n, lo, offs[order[i]])
      ensures Size(level, n, offs[order[i]]) == Size(level, m, offs[order[i]])
      ensures EntryAt(level, n, offs[order[i]]) == es[order[i]]
      ensures (i < k ==> h <= offs[order[i]])
      ensures (i > k ==> offs[order[i]] + Size(level, m, offs[order[i]]) <= o)
    {
      var y := order[i];
      assert y in order && y != x;
      assert EntryOk(level, m, lo, offs[y]);
      if i > k {
        assert was[order[k]] > was[order[i]];
        assert if x < y then Apart(level, m, offs[x], offs[y]) else Apart(level, m, offs[y], offs[x]);
      }
      EntrySame(level, m, n, lo, offs[y]);
      assert es[y] == EntryAt(level, m, offs[y]);
    }
  }

  lemma MovedGood(level: nat, m: Bytes, lo: nat, offs: seq<nat>, es: seq<Entry>, n: Bytes, x: nat, d: nat,
      order: seq<nat>, k: nat, h: nat)
    requires Good(level, m, lo, offs) && EntriesAt(level, m, lo, offs) == es && |n| == |m| == PAGE_SIZE
    requires |order| == |offs| && Orders(order, |offs|) && k < |order| && x == order[k] < |offs|
    requires lo <= offs[x] <= d && d % EntryAlign(level) == 0 && d + Size(level, m, offs[x]) == h <= PAGE_SIZE
    requires d + EntryHeader(level) + LenAt(level, m, offs[x]) <= PAGE_SIZE
    requires LenAt(level, n, d) == LenAt(level, m, offs[x]) && EntryAt(level, n, d) == EntryAt(level, m, offs[x])
    requires OthersAre(level, m, n, lo, offs, es, order, k, h)
    ensures Good(level, n, lo, offs[x := d]) && EntriesAt(level, n, lo, offs[x := d]) == es
  {
    var after := offs[x := d];
    assert es[x] == EntryAt(level, m, offs[x]);
    forall y | 0 <= y < |after|
      ensures EntryOk(level, n, lo, after[y]) && EntryAt(level, n, after[y]) == es[y]
      ensures y != x ==>
        Size(level, n, after[y]) == Size(level, m, offs[y]) && (h <= after[y] || after[y] + Size(level, n, after[y]) <= d)
    {
      assert y in order;
      var i :| 0 <= i < |order| && order[i] == y;
      assert y != x ==> i != k;
    }
    forall i, j | 0 <= i < j < |after| ensures Apart(level, n, after[i], after[j]) {
      assert Apart(level, m, offs[i], offs[j]);
    }
  }

  /** Bytes below lo, where the slots are, do not matter. */
  lemma PackingSame(level: nat, m: Bytes, n: Bytes, lo: nat, offs: seq<nat>, was: seq<nat>, es: seq<Entry>,
      order: seq<nat>, k: nat, h: nat)
    requires Packing(level, m, lo, offs, was, es, order, k, h) && |m| == |n| == PAGE_SIZE && Agree(m, n, lo, PAGE_SIZE)
    ensures Packing(level, n, lo, offs, was, es, order, k, h)
  {
    GoodSame(level, m, n, lo, offs);
    forall i | 0 <= i < |order| ensures Size(level, n, offs[order[i]]) == Size(level, m, offs[order[i]]) {
      assert EntryOk(level, m, lo, offs[order[i]]);
      EntrySame(level, m, n, lo, offs[order[i]]);
    }
  }

  /** All moved: the heap is exactly used. */
  lemma PackedOk(level: nat, m: Bytes, lo: nat, offs: seq<nat>, was: seq<nat>, es: seq<Entry>, order: seq<nat>, h: nat)
    requires Packing(level, m, lo, offs, was, es, order, |order|, h) && UsedBy(level, es, order) == Used(level, es)
    ensures Good(level, m, h, offs) && EntriesAt(level, m, h, offs) == es && h + Used(level, es) == PAGE_SIZE
  {
    assert order[..|order|] == order;
    forall y | 0 <= y < |offs| ensures EntryOk(level, m, h, offs[y]) {
      assert y in order;
      assert EntryOk(level, m, lo, offs[y]);
    }
  }

  /** Nothing moved yet. */
  lemma StartPacking(level: nat, m: Bytes, lo: nat, offs: seq<nat>, es: seq<Entry>, order: seq<nat>)
    requires Good(level, m, lo, offs) && EntriesAt(level, m, lo, offs) == es && |order| == |offs| && Orders(order, |offs|)
    requires Descending(offs, order)
    ensures Packing(level, m, lo, offs, offs, es, order, 0, PAGE_SIZE)
  {
    forall i | 0 <= i < |order| ensures order[i] < |offs| && EntryOk(level, m, lo, offs[order[i]]) {
      assert order[i] in order;
    }
    forall i, j | 0 <= i < j < |order| ensures offs[order[i]] > offs[order[j]] {
      var a, b := order[i], order[j];
      assert if a < b then Apart(level, m, offs[a], offs[b]) else Apart(level, m, offs[b], offs[a]);
    }
    assert order[..0] == [];
  }
}
