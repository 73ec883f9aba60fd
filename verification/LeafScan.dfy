/** Reading one leaf: the run of entries with the columns of a search key. */
module LeafScan {
  import opened ByteOrder
  import opened PageLayout

  /** The keys from position i on while the columns stay those of q. */
  function Run(entries: seq<Entry>, i: nat, q: Bytes): seq<Bytes>
    requires i <= |entries|
    decreases |entries| - i
  {
    if i == |entries| || CmpPrefix(entries[i].key, q) != 0 then []
    else [entries[i].key] + Run(entries, i + 1, q)
  }

  function PageMatches(n: Node, q: Bytes): seq<Bytes> {
    Run(n.entries, LowerBound(n.entries, q), q)
  }

  ghost predicate Ascending(ks: seq<Bytes>) {
    forall i, j | 0 <= i < j < |ks| :: Less(ks[i], ks[j])
  }

  /** Every key of the page and its fence are in the key space. */
  ghost predicate KeysIn(n: Node, space: iset<Bytes>) {
    && (forall e | e in n.entries :: e.key in space)
    && (n.high.Some? ==> n.high.value in space)
  }

  lemma {:induction false} RunOf(entries: seq<Entry>, i: nat, q: Bytes, space: iset<Bytes>)
    requires Sorted(entries) && PrefixFree(space) && q in space && IsSearchKey(q)
    requires forall e | e in entries :: e.key in space
    requires i <= |entries| && (forall j | 0 <= j < i :: Less(entries[j].key, q) || SamePrefix(q, entries[j].key))
    requires i < |entries| ==> Leq(q, entries[i].key)
    ensures Ascending(Run(entries, i, q))
    ensures forall x | x in Run(entries, i, q) :: SamePrefix(q, x)
    ensures forall x | x in Run(entries, i, q) :: exists j :: i <= j < |entries| && entries[j].key == x
    ensures forall j | i <= j < |entries| && SamePrefix(q, entries[j].key) :: entries[j].key in Run(entries, i, q)
    decreases |entries| - i
  {
    hide Rank, MemCmp, CmpPrefix;
    if i < |entries| {
      var k := entries[i].key;
      assert entries[i] in entries;
      assert Comparable(k, q);
      PrefixOrderRefined(k, q);
      if CmpPrefix(k, q) == 0 {
        RunOf(entries, i + 1, q, space);
        assert forall x | x in Run(entries, i + 1, q) :: Less(k, x);
      } else {
        forall j | i <= j < |entries| ensures !SamePrefix(q, entries[j].key) {
          assert entries[j] in entries && Leq(k, entries[j].key);
          assert Comparable(q, k) && Comparable(k, entries[j].key);
          if SamePrefix(q, entries[j].key) {
            SamePrefixConvex(q, q, k, entries[j].key);
          }
        }
      }
    }
  }

  /** One page read returns exactly the page's keys with the columns of q, in order. */
  lemma PageMatchesExact(n: Node, q: Bytes, space: iset<Bytes>)
    requires Sorted(n.entries) && KeysIn(n, space) && PrefixFree(space) && q in space && IsSearchKey(q)
    ensures Ascending(PageMatches(n, q))
    ensures forall x :: x in PageMatches(n, q) <==> HasKey(n.entries, x) && SamePrefix(q, x)
  {
    var i := LowerBound(n.entries, q);
    RunOf(n.entries, i, q, space);
    forall x | HasKey(n.entries, x) && SamePrefix(q, x) ensures x in PageMatches(n, q) {
      var j :| 0 <= j < |n.entries| && n.entries[j].key == x;
      SearchKeyIsFirst(q, x);
      assert j >= i;
    }
    forall x | x in PageMatches(n, q) ensures HasKey(n.entries, x) {
      var j :| i <= j < |n.entries| && n.entries[j].key == x;
      assert n.entries[j] in n.entries;
    }
  }

  /** When the fence test fails, every key with the columns of q that is not left of q's page lies inside
      the page. */
  lemma FenceTellsAll(n: Node, q: Bytes, x: Bytes, space: iset<Bytes>)
    requires KeysIn(n, space) && PrefixFree(space) && q in space && x in space
    requires SamePrefix(q, x) && IsSearchKey(q)
    requires n.high.Some? && !HasSplit(n, q) && !HighPrefixCmp(n, q)
    ensures Less(x, n.high.value)
  {
    hide Rank, MemCmp, CmpPrefix;
    var f := n.high.value;
    assert Comparable(f, q) && Comparable(q, f) && Comparable(f, x);
    PrefixOrderRefined(f, q);
    if Leq(f, x) {
      SamePrefixConvex(q, q, f, x);
    }
  }

  /** The fence test says exactly whether a later page may hold more. */
  lemma FenceExact(n: Node, q: Bytes, space: iset<Bytes>)
    requires KeysIn(n, space) && PrefixFree(space) && q in space && IsSearchKey(q)
    requires n.high.Some? && !HasSplit(n, q)
    ensures HighPrefixCmp(n, q) <==> exists x :: x in space && SamePrefix(q, x) && Leq(n.high.value, x)
  {
    hide Rank, MemCmp, CmpPrefix, SamePrefix, HasSplit, HighPrefixCmp;
    var f := n.high.value;
    FenceColumns(n, q, space);
    if HighPrefixCmp(n, q) {
      assert f in space && SamePrefix(q, f) && Leq(f, f);
    } else {
      forall x | x in space && SamePrefix(q, x) ensures !Leq(f, x) {
        FenceTellsAll(n, q, x, space);
      }
    }
  }

  lemma FenceColumns(n: Node, q: Bytes, space: iset<Bytes>)
    requires KeysIn(n, space) && PrefixFree(space) && q in space && n.high.Some?
    ensures HighPrefixCmp(n, q) <==> SamePrefix(q, n.high.value)
  {
    hide Rank, MemCmp, CmpPrefix;
    assert Comparable(n.high.value, q);
    PrefixOrderRefined(n.high.value, q);
  }
}
