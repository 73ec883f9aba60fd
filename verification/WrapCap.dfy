/** Up to which key length the 16-bit space test of an inner page cannot wrap. */
module WrapCap {
  import opened ByteOrder
  import opened PageLayout
  import opened SplitSpace
  import opened BTreeIndex
  import Cap = SeparatorCap

  /** On every inner page the index can hold, the key and its header are not longer than what lies below the heap. */
  ghost predicate NeverWraps(cap: nat) {
    forall n, key: Bytes | PageOk(n, cap) && n.level > 0 && Sorted(n.entries) && MIN_SEPARATOR <= |key| <= cap ::
      |key| + EntryHeader(n.level) <= n.heap
  }

  // ---- an inner page with 57 separators of 129 bytes and one of 68 ----

  function Wide(n: nat): (s: seq<Entry>)
    requires n < 0x100
    ensures |s| == n
    ensures forall i | 0 <= i < n :: s[i] == Entry(Cap.Numbered(i + 1, 129), 1)
  {
    if n == 0 then [] else Wide(n - 1) + [Entry(Cap.Numbered(n, 129), 1)]
  }

  lemma {:induction false} WideUsed(n: nat)
    requires n < 0x100
    ensures Used(1, Wide(n)) == 140 * n
  {
    hide Cap.Numbered;
    if n > 0 {
      WideUsed(n - 1);
      UsedConcat(1, Wide(n - 1), [Entry(Cap.Numbered(n, 129), 1)]);
      OneEntry(1, Entry(Cap.Numbered(n, 129), 1));
    }
  }

  function WidePage(): Node {
    Node(1, [Entry(Cap.Numbered(0, 68), 1)] + Wide(57), None, None, 136)
  }

  lemma WidePageKeys(i: nat)
    requires i < 58
    ensures |WidePage().entries| == 58
    ensures WidePage().entries[i].key == Cap.Numbered(i, if i == 0 then 68 else 129)
  {
    hide Cap.Numbered;
    assert i > 0 ==> WidePage().entries[i] == Wide(57)[i - 1];
  }

  lemma WidePageSorted()
    ensures Sorted(WidePage().entries)
  {
    hide Cap.Numbered, WidePage;
    WidePageKeys(0);
    forall i, j | 0 <= i < j < |WidePage().entries| ensures Less(WidePage().entries[i].key, WidePage().entries[j].key) {
      WidePageKeys(i);
      WidePageKeys(j);
      Cap.NumberedOrder(i, |WidePage().entries[i].key|, j, |WidePage().entries[j].key|);
    }
  }

  lemma WidePageOk(cap: nat)
    requires cap >= 129
    ensures PageOk(WidePage(), cap)
  {
    hide Cap.Numbered, Used, Wide;
    var n := WidePage();
    UsedConcat(1, [Entry(Cap.Numbered(0, 68), 1)], Wide(57));
    OneEntry(1, Entry(Cap.Numbered(0, 68), 1));
    WideUsed(57);
    WidePageKeys(0);
    forall e | e in n.entries[1..] ensures MIN_SEPARATOR <= |e.key| <= cap {
      var i :| 0 <= i < 57 && n.entries[1..][i] == e;
      assert e == n.entries[i + 1];
      WidePageKeys(i + 1);
    }
  }

  /** The test then accepts a separator of 129 bytes that the page has no room for. */
  lemma WidePageWraps(key: Bytes)
    requires |key| == 129
    ensures HasSpace(WidePage(), key) && !Fits(WidePage(), key)
    ensures |key| + EntryHeader(WidePage().level) > WidePage().heap
  {
    hide Cap.Numbered, Wide;
    WidePageKeys(0);
    assert CalcHeap(1, 136, 129) == 65532;
    assert Footprint(1, 129) == 140;
  }

  /** The space test of inner pages cannot wrap exactly when no key is longer than 128 bytes. */
  lemma NeverWrapsIff(cap: nat)
    ensures NeverWraps(cap) <==> cap <= SHORT_KEY
  {
    hide Cap.Numbered, WidePage, Sorted, HasSpace, Fits, PageOk;
    if cap <= SHORT_KEY {
      forall n, key: Bytes | PageOk(n, cap) && n.level > 0 && Sorted(n.entries) && MIN_SEPARATOR <= |key| <= cap
        ensures |key| + EntryHeader(n.level) <= n.heap
      {
        ShortSeparatorsDoNotWrap(n, key, cap);
      }
    } else {
      var key := Cap.Numbered(58, 129);
      WidePageOk(cap);
      WidePageSorted();
      WidePageWraps(key);
      WidePageLevel();
      assert PageOk(WidePage(), cap) && Sorted(WidePage().entries);
    }
  }

  lemma WidePageLevel()
    ensures WidePage().level == 1
  {
  }
}
