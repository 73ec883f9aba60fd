/** An index page in its bytes: header fields, slots growing up, heap growing down. Level 0 is the leaf layout. */
module SlottedPage {
  import opened ByteOrder
  import opened PageLayout
  import opened LeafScan
  import opened PageBytes
  import opened PageImage
  import opened Compaction

  class SlottedPage {
    const level: nat
    const data: array<u8>
    var count: nat
    var heap: nat
    var max: nat
    var rlink: Option<Pid>

    constructor (level: nat)
      ensures fresh(data) && this.level == level && Valid() && Abs(Raw()) == Node(level, [], None, None, PAGE_SIZE)
    {
      this.level := level;
      data := new u8[PAGE_SIZE](i => 0);
      count, heap, max, rlink := 0, PAGE_SIZE, UNDEFINED_OFFSET, None;
    }

    ghost function Raw(): Image
      reads this, data
    {
      Image(level, data[..], count, heap, max, rlink)
    }

    ghost predicate Valid()
      reads this, data
    {
      data.Length == PAGE_SIZE && Laid(Raw()) && SpaceOk(Abs(Raw())) && level == Raw().level
    }

    // ---- memory ----

    method MemCpy(o: nat, b: Bytes)
      requires o + |b| <= data.Length
      modifies data
      ensures data[..] == Blit(old(data[..]), o, b)
    {
      for i := 0 to |b|
        invariant forall k | 0 <= k < data.Length :: data[k] == if o <= k < o + i then b[k - o] else old(data[k])
      {
        data[o + i] := b[i];
      }
    }

    /** Source and destination may overlap: copied from the end that is not overwritten. */
    method MemMove(d: nat, s: nat, n: nat)
      requires d + n <= data.Length && s + n <= data.Length
      modifies data
      ensures data[..] == Blit(old(data[..]), d, old(data[s..s + n]))
    {
      if d <= s {
        for i := 0 to n
          invariant forall k | 0 <= k < data.Length ::
            data[k] == if d <= k < d + i then old(data[s + (k - d)]) else old(data[k])
        {
          data[d + i] := data[s + i];
        }
      } else {
        for i := n downto 0
          invariant forall k | 0 <= k < data.Length ::
            data[k] == if d + i <= k < d + n then old(data[s + (k - d)]) else old(data[k])
        {
          data[d + i] := data[s + i];
        }
      }
    }

    // ---- slots and heap ----

    function Slot(i: nat): (off: nat)
      requires HEADER_SIZE + SLOT_SIZE * (i + 1) <= data.Length
      reads data
    {
      Get16(data[..], HEADER_SIZE + SLOT_SIZE * i)
    }

    lemma SlotEntry(i: nat)
      requires Valid() && i < count
      ensures EntryOk(level, data[..], heap, Slot(i)) && Abs(Raw()).entries[i] == EntryAt(level, data[..], Slot(i))
    {
      assert Offsets(Raw())[i] == Slot(i);
    }

    lemma LenOfSlot(i: nat)
      requires Valid() && i < count
      ensures Slot(i) + EntryHeader(level) <= PAGE_SIZE == data.Length && i < |Abs(Raw()).entries|
      ensures LenAt(level, data[..], Slot(i)) == |Abs(Raw()).entries[i].key|
    {
      SlotEntry(i);
    }

    lemma FenceEntry()
      requires Valid() && max != UNDEFINED_OFFSET
      ensures EntryOk(level, data[..], heap, max)
      ensures Abs(Raw()).high == Some(EntryAt(level, data[..], max).key)
    {
      assert Offsets(Raw())[count] == max;
    }

    method AppendHeap(e: Entry) returns (off: nat)
      requires Valid() && Storable(level, e) && HEADER_SIZE + SLOT_SIZE * count + Footprint(level, |e.key|) <= heap
      modifies data, this`heap
      ensures data.Length == PAGE_SIZE && Raw() == Append(old(Raw()), e) && off == heap
    {
      hide Good, Abs, SpaceOk, Packed, CalcHeap;
      CalcHeapExact(level, heap, |e.key|);
      off := CalcHeap(level, heap, |e.key|);
      MemCpy(off, Packed(level, e));
      heap := off;
    }

    /** First entry not below the key. */
    method FindInsertPosition(key: Bytes) returns (lo: nat)
      requires Valid() && Sorted(Abs(Raw()).entries)
      ensures lo == LowerBound(Abs(Raw()).entries, key)
    {
      hide Valid, Laid, Abs;
      EntriesSized();
      ghost var es := Abs(Raw()).entries;
      lo := 0;
      var hi := count;
      while lo < hi
        invariant lo <= hi <= count
        invariant forall j | 0 <= j < lo :: Less(es[j].key, key)
        invariant forall j | hi <= j < count :: Leq(key, es[j].key)
      {
        var mid := lo + (hi - lo) / 2;
        SlotEntry(mid);
        var res := CmpFull(EntryAt(level, data[..], Slot(mid)).key, key);
        if res < 0 {
          lo := mid + 1;
        } else {
          hi := mid;
        }
      }
      LowerBoundUnique(es, key, lo);
    }

    lemma EntriesSized()
      requires Valid()
      ensures |Abs(Raw()).entries| == count && HEADER_SIZE + SLOT_SIZE * count <= heap <= data.Length == PAGE_SIZE
      ensures Abs(Raw()).level == level && Abs(Raw()).heap == heap && Abs(Raw()).rlink == rlink
      ensures Abs(Raw()).high.None? <==> max == UNDEFINED_OFFSET
      ensures Laid(Raw()) && SpaceOk(Abs(Raw()))
    {
    }

    /** First entry above the key. */
    method FindChild(key: Bytes) returns (lo: nat)
      requires Valid() && Sorted(Abs(Raw()).entries)
      ensures lo == UpperBound(Abs(Raw()).entries, key)
    {
      hide Valid, Laid, Abs;
      EntriesSized();
      ghost var es := Abs(Raw()).entries;
      lo := 0;
      var hi := count;
      while lo < hi
        invariant lo <= hi <= count
        invariant forall j | 0 <= j < lo :: Leq(es[j].key, key)
        invariant forall j | hi <= j < count :: Less(key, es[j].key)
      {
        var mid := lo + (hi - lo) / 2;
        SlotEntry(mid);
        if CmpFull(EntryAt(level, data[..], Slot(mid)).key, key) <= 0 {
          lo := mid + 1;
        } else {
          hi := mid;
        }
      }
      UpperBoundUnique(es, key, lo);
    }

    /** The child whose range holds the key. */
    method GetChild(key: Bytes) returns (child: Pid)
      requires Valid() && Sorted(Abs(Raw()).entries)
      requires Abs(Raw()).entries != [] && Leq(Abs(Raw()).entries[0].key, key)
      ensures var es := Abs(Raw()).entries;
        UpperBound(es, key) > 0 && child == es[UpperBound(es, key) - 1].child
    {
      var idx := FindChild(key);
      UpperBoundPositive(Abs(Raw()).entries, key);
      SlotEntry(idx - 1);
      child := EntryAt(level, data[..], Slot(idx - 1)).child;
    }

    /** Makes room among the slots and puts the offset there. */
    method ShiftRightInsert(idx: nat, off: nat)
      requires data.Length == PAGE_SIZE && idx <= count && HEADER_SIZE + SLOT_SIZE * (count + 1) <= PAGE_SIZE
        && off < 0x1_0000
      modifies data, this`count
      ensures Raw() == InsertSlot(old(Raw()), idx, off)
    {
      var at := HEADER_SIZE + SLOT_SIZE * idx;
      MemMove(at + SLOT_SIZE, at, SLOT_SIZE * (count - idx));
      MemCpy(at, Le16(off));
      count := count + 1;
    }

    /** A new entry, in order. */
    method Insert(e: Entry)
      requires Valid() && Sorted(Abs(Raw()).entries) && Storable(level, e) && Fits(Abs(Raw()), e.key)
      modifies data, this`heap, this`count
      ensures Valid() && Abs(Raw()) == InsertEntry(old(Abs(Raw())), e)
    {
      hide Valid, Laid, Abs, Append, InsertSlot, Fits, SpaceOk;
      EntriesSized();
      ghost var r := Raw();
      FitsRoom(e);
      InsertOk(r, e);
      AppendOk(r, e);
      var off := AppendHeap(e);
      AppendSizes(r, e);
      AppendValid(r, e);
      // the search sees the slots that were there before
      var idx := FindInsertPosition(e.key);
      ShiftRightInsert(idx, off);
      ValidFrom();
    }

    lemma FitsRoom(e: Entry)
      requires Valid() && Fits(Abs(Raw()), e.key)
      ensures HEADER_SIZE + SLOT_SIZE * (count + 1) + Footprint(level, |e.key|) <= heap
    {
    }

    lemma AppendValid(r: Image, e: Entry)
      requires Laid(r) && SpaceOk(Abs(r)) && Storable(r.level, e) && r.level == level && data.Length == PAGE_SIZE
      requires HEADER_SIZE + SLOT_SIZE * r.count + Footprint(level, |e.key|) <= r.heap && Raw() == Append(r, e)
      ensures Valid()
    {
      hide Good;
      AppendOk(r, e);
      AlignedDifference(level, r.heap, Footprint(level, |e.key|));
    }

    lemma ValidFrom()
      requires data.Length == PAGE_SIZE && Laid(Raw()) && SpaceOk(Abs(Raw()))
      ensures Valid()
    {
    }

    // ---- delete ----

    method FindDeletePosition(key: Bytes) returns (lo: nat)
      requires Valid() && Sorted(Abs(Raw()).entries)
      ensures HasKey(Abs(Raw()).entries, key) ==> lo < count == |Abs(Raw()).entries| && Abs(Raw()).entries[lo].key == key
    {
      hide Valid, Laid, Abs;
      EntriesSized();
      ghost var es := Abs(Raw()).entries;
      lo := 0;
      var hi := count;
      while lo < hi
        invariant lo <= hi <= count
        invariant forall j | 0 <= j < lo :: Less(es[j].key, key)
        invariant forall j | hi <= j < count :: Less(key, es[j].key)
      {
        var mid := lo + (hi - lo) / 2;
        SlotEntry(mid);
        var res := CmpFull(EntryAt(level, data[..], Slot(mid)).key, key);
        if res == 0 {
          return mid;
        } else if res < 0 {
          lo := mid + 1;
        } else {
          hi := mid;
        }
      }
      assert forall j | 0 <= j < |es| :: es[j].key != key;
    }

    /** Drops the slot of the entry; its bytes stay in the heap. */
    method Delete(key: Bytes) returns (ghost i: nat)
      requires Valid() && Sorted(Abs(Raw()).entries) && HasKey(Abs(Raw()).entries, key)
      modifies data, this`count
      ensures i < |old(Abs(Raw()).entries)| && old(Abs(Raw())).entries[i].key == key
      ensures Valid() && Abs(Raw()) == DeleteAt(old(Abs(Raw())), i)
    {
      hide Laid, Abs, SpaceOk;
      EntriesSized();
      var idx := FindDeletePosition(key);
      i := idx;
      RemoveSlotOk(Raw(), idx);
      var at := HEADER_SIZE + SLOT_SIZE * idx;
      MemMove(at, at + SLOT_SIZE, SLOT_SIZE * (count - idx - 1));
      count := count - 1;
    }

    // ---- tests ----

    method HasSpace(key: Bytes) returns (ok: bool)
      requires Valid()
      ensures ok == PageLayout.HasSpace(Abs(Raw()), key)
    {
      EntriesSized();
      var slotSize := SLOT_SIZE * (count + 1) % 0x1_0000;
      ok := CalcHeap(level, heap, |key|) >= slotSize + HEADER_SIZE;
    }

    method HasSplit(key: Bytes) returns (split: bool)
      requires Valid()
      ensures split == PageLayout.HasSplit(Abs(Raw()), key)
    {
      EntriesSized();
      if max == UNDEFINED_OFFSET {
        return false;
      }
      FenceEntry();
      split := CmpFull(EntryAt(level, data[..], max).key, key) <= 0;
    }

    method HighPrefixCmp(key: Bytes) returns (same: bool)
      requires Valid()
      ensures same == PageLayout.HighPrefixCmp(Abs(Raw()), key)
    {
      EntriesSized();
      if max == UNDEFINED_OFFSET {
        return false;
      }
      FenceEntry();
      same := CmpPrefix(EntryAt(level, data[..], max).key, key) == 0;
    }

    // ---- reads ----

    method KeyAt(i: nat) returns (key: Bytes)
      requires Valid() && i < count
      ensures i < |Abs(Raw()).entries| && key == Abs(Raw()).entries[i].key
    {
      hide Valid, Laid, Abs;
      EntriesSized();
      SlotEntry(i);
      key := EntryAt(level, data[..], Slot(i)).key;
    }

    /** The keys with the columns of the search key: from its position on, while the columns are the same. */
    method Get(key: Bytes) returns (found: seq<Bytes>)
      requires Valid() && Sorted(Abs(Raw()).entries)
      ensures found == PageMatches(Abs(Raw()), key)
    {
      hide Valid, Laid, Abs;
      EntriesSized();
      ghost var es := Abs(Raw()).entries;
      var idx := FindInsertPosition(key);
      found := [];
      for i := idx to count
        invariant found + Run(es, i, key) == Run(es, idx, key)
      {
        var cur := KeyAt(i);
        if CmpPrefix(cur, key) != 0 {
          return;
        }
        found := found + [cur];
      }
    }

    // ---- split ----

    /** Where the accumulated key bytes reach half. */
    method FindSplitPoint() returns (sp: nat)
      requires Valid() && count >= 2
      ensures |Abs(Raw()).entries| == count && sp == PageLayout.FindSplitPoint(Abs(Raw()).entries)
    {
      hide Valid, Laid, Abs, EntryAt, EntryOk, SpaceOk;
      EntriesSized();
      ghost var es := Abs(Raw()).entries;
      var live: nat := 0;
      for i := 0 to count
        invariant live + LenSum(es[i..]) == LenSum(es)
      {
        LenOfSlot(i);
        live := live + LenAt(level, data[..], Slot(i));
        assert es[i..][1..] == es[i + 1..];
      }
      var target := live / 2;
      var accumulated: nat := 0;
      for i := 0 to count
        invariant SplitScan(es, 0, 0, target) == SplitScan(es, i, accumulated, target)
      {
        LenOfSlot(i);
        accumulated := accumulated + LenAt(level, data[..], Slot(i));
        if accumulated >= target {
          sp := Min(i + 1, count - 1);
          return;
        }
      }
      sp := count - 1;
    }

    /** Moves the entry of slot indexes[k] to right below the heap, and tells its slot. */
    method MoveHeap(n: nat, ghost lo: nat, ghost was: seq<nat>, ghost es: seq<Entry>, indexes: seq<nat>, k: nat)
      requires data.Length == PAGE_SIZE && HEADER_SIZE + SLOT_SIZE * n <= lo <= PAGE_SIZE && k < |indexes| == n
      requires Packing(level, data[..], lo, Slots(data[..], n), was, es, indexes, k, heap)
      modifies data, this`heap
      ensures lo <= heap <= PAGE_SIZE
      ensures Packing(level, data[..], lo, Slots(data[..], n), was, es, indexes, k + 1, heap)
    {
      hide Good, EntriesAt, Packing, Blit, LenAt, Size, UsedBy, Used;
      ghost var m, h := data[..], heap;
      MovePlace(level, m, lo, Slots(m, n), was, es, indexes, k, h);
      var idx := indexes[k];
      var off := Slot(idx);
      var len := LenAt(level, data[..], off);
      var to := CalcHeap(level, heap, len);
      MemMove(to, off, EntryHeader(level) + len);
      heap := to;
      ghost var moved := data[..];
      MemCpy(HEADER_SIZE + SLOT_SIZE * idx, Le16(to));
      CompactStep(level, m, moved, data[..], lo, n, was, es, indexes, k, h, to);
    }

    /** Repacks the entries of the first n slots against the top of the page, in place. */
    method CompactHeap(n: nat, ghost lo: nat, ghost es: seq<Entry>)
      requires data.Length == PAGE_SIZE && heap == PAGE_SIZE && HEADER_SIZE + SLOT_SIZE * n <= lo <= PAGE_SIZE
      requires Good(level, data[..], lo, Slots(data[..], n)) && EntriesAt(level, data[..], lo, Slots(data[..], n)) == es
      modifies data, this`heap
      ensures lo <= heap <= PAGE_SIZE && heap % EntryAlign(level) == 0 && heap + Used(level, es) == PAGE_SIZE
      ensures Good(level, data[..], heap, Slots(data[..], n)) && EntriesAt(level, data[..], heap, Slots(data[..], n)) == es
    {
      hide Good, EntriesAt, Packing, Blit, LenAt, Size, UsedBy, Used;
      var slots := seq(n, i requires 0 <= i < n && HEADER_SIZE + SLOT_SIZE * n <= data.Length reads data => Slot(i));
      ghost var was := Slots(data[..], n);
      assert slots == was;
      var indexes := SortedDescending(slots, level, es);
      StartPacking(level, data[..], lo, was, es, indexes);
      for k := 0 to n
        invariant lo <= heap <= PAGE_SIZE && |indexes| == n
        invariant Packing(level, data[..], lo, Slots(data[..], n), was, es, indexes, k, heap)
      {
        MoveHeap(n, lo, was, es, indexes, k);
      }
      PackedOk(level, data[..], lo, Slots(data[..], n), was, es, indexes, heap);
      PackedAligned(level, data[..], lo, Slots(data[..], n), was, es, indexes, heap);
    }

    /** The fence and the entries from split on, put in order into an empty page. */
    method CopyHalfRight(right: SlottedPage, split: nat)
      requires Valid() && right.Valid() && right != this && right.data != data && right.level == level
      requires Abs(right.Raw()) == Node(level, [], None, None, PAGE_SIZE) && split <= count
      modifies right, right.data
      ensures Valid() && right.Valid()
      ensures var n := old(Abs(Raw()));
        |n.entries| == count && Abs(right.Raw()) == Node(level, n.entries[split..], n.high, None,
          PAGE_SIZE - Used(level, n.entries[split..]) - FenceUsed(level, n.high))
    {
      hide Valid, Laid, Abs, Append, InsertSlot, LenAt, EntryOk, Storable;
      EntriesSized();
      right.EntriesSized();
      ghost var n := Abs(Raw());
      if max != UNDEFINED_OFFSET {
        FenceEntry();
        right.CopyFence(data[..], max, heap);
        right.EntriesSized();
      }
      for i := split to count
        invariant right.Valid() && Laid(right.Raw()) && right.count == i - split
        invariant Abs(right.Raw()) == Copied(n, split, i)
      {
        CopySlot(right, split, i);
      }
      assert n.entries[split..count] == n.entries[split..];
    }

    method CopySlot(right: SlottedPage, split: nat, i: nat)
      requires Valid() && right.Valid() && right != this && right.data != data && right.level == level
      requires split <= i < |Abs(Raw()).entries| == count && Abs(right.Raw()) == Copied(Abs(Raw()), split, i)
      modifies right, right.data
      ensures right.Valid() && Laid(right.Raw()) && right.count == old(right.count) + 1
      ensures Abs(right.Raw()) == Copied(old(Abs(Raw())), split, i + 1)
    {
      hide Valid, Laid, Abs, LenAt, EntryOk, SpaceOk, Fits;
      EntriesSized();
      right.EntriesSized();
      SlotEntry(i);
      ghost var n := Abs(Raw());
      RoomForNext(n, split, i);
      right.CopyLast(data[..], Slot(i), heap);
      right.EntriesSized();
      CopiedNext(n, split, i);
    }

    /** The entry at off of the page m becomes the last of this page. */
    method CopyLast(m: Bytes, off: nat, ghost bound: nat)
      requires Valid() && EntryOk(level, m, bound, off) && Fits(Abs(Raw()), EntryAt(level, m, off).key)
      modifies data, this`heap, this`count
      ensures Valid() && count == old(count) + 1
      ensures var n, e := old(Abs(Raw())), EntryAt(level, m, off);
        Abs(Raw()) == n.(entries := n.entries + [e], heap := n.heap - Footprint(level, |e.key|))
    {
      hide Valid, Laid, Abs, SpaceOk, Fits;
      EntriesSized();
      EntryStorable(level, m, off);
      Put(EntryAt(level, m, off));
      EntriesSized();
    }

    /** The entry at off of the page m becomes the fence of this page. */
    method CopyFence(m: Bytes, off: nat, ghost bound: nat)
      requires Valid() && max == UNDEFINED_OFFSET && EntryOk(level, m, bound, off)
      requires HEADER_SIZE + SLOT_SIZE * count + Footprint(level, |EntryAt(level, m, off).key|) <= heap
      modifies data, this`heap, this`max
      ensures Valid() && max != UNDEFINED_OFFSET
      ensures var n, e := old(Abs(Raw())), EntryAt(level, m, off);
        Abs(Raw()) == n.(high := Some(e.key), heap := n.heap - Footprint(level, |e.key|))
    {
      hide Valid, Laid, Abs, Append, SpaceOk;
      EntriesSized();
      var e := EntryAt(level, m, off);
      EntryStorable(level, m, off);
      FenceOk(Raw(), e);
      AppendSizes(Raw(), e);
      var at := AppendHeap(e);
      max := at;
      ValidFrom();
      EntriesSized();
    }

    /** Keeps the first sp entries, repacked, without a fence. */
    method KeepLeft(sp: nat)
      requires Valid() && sp <= count
      modifies this`heap, this`count, this`max, data
      ensures Valid() && max == UNDEFINED_OFFSET && sp <= |old(Abs(Raw()).entries)|
      ensures var n := old(Abs(Raw()));
        Abs(Raw()) == Node(level, n.entries[..sp], None, n.rlink, PAGE_SIZE - Used(level, n.entries[..sp]))
    {
      hide Good, EntriesAt, SpaceOk;
      EntriesSized();
      ghost var r, lo := Raw(), heap;
      FirstSlots(r, sp);
      heap := PAGE_SIZE;
      CompactHeap(sp, lo, Abs(r).entries[..sp]);
      count := sp;
      max := UNDEFINED_OFFSET;
      RepackedOk(Raw(), Abs(r).entries[..sp]);
    }

    method SetRLink(link: Option<Pid>)
      requires Valid()
      modifies this`rlink
      ensures Valid() && Abs(Raw()) == old(Abs(Raw())).(rlink := link)
    {
      assert Offsets(Raw()) == Offsets(Raw().(rlink := link));
      rlink := link;
    }

    /** The upper entries go to the right page, which takes over the fence and the link; this page keeps the
        lower ones and gets the first right key for a fence. Then the new entry goes to its half. */
    method Split(right: SlottedPage, newPid: Pid, e: Entry) returns (sentinel: Bytes)
      requires Valid() && right.Valid() && right != this && right.data != data && right.level == level
      requires Abs(right.Raw()) == Node(level, [], None, None, PAGE_SIZE)
      requires Abs(Raw()).entries != [] && count == |Abs(Raw()).entries| >= 2 && Sorted(Abs(Raw()).entries)
        && Storable(level, e)
      requires var h := Halves(Abs(Raw()), PageLayout.FindSplitPoint(Abs(Raw()).entries), newPid);
        if CmpFull(h.sentinel, e.key) <= 0 then Fits(h.right, e.key) else Fits(h.left, e.key)
      modifies this, data, right, right.data
      ensures Valid() && right.Valid()
      ensures var n := old(Abs(Raw()));
        var s := SplitAt(n, PageLayout.FindSplitPoint(n.entries), newPid, e);
        Abs(Raw()) == s.left && Abs(right.Raw()) == s.right && sentinel == s.sentinel
    {
      hide Valid, Laid, Abs, Fits, SpaceOk, Storable;
      EntriesSized();
      ghost var n := Abs(Raw());
      var split := FindSplitPoint();
      sentinel := SplitHalves(right, split, newPid);
      SortedSlice(n.entries, split);
      EntriesSized();
      right.EntriesSized();
      if CmpFull(sentinel, e.key) <= 0 {
        right.Insert(e);
      } else {
        Insert(e);
      }
    }

    method SplitHalves(right: SlottedPage, split: nat, newPid: Pid) returns (sentinel: Bytes)
      requires Valid() && right.Valid() && right != this && right.data != data && right.level == level
      requires Abs(right.Raw()) == Node(level, [], None, None, PAGE_SIZE)
      requires 1 <= split < count == |Abs(Raw()).entries|
      modifies this, data, right, right.data
      ensures Valid() && right.Valid()
      ensures var h := Halves(old(Abs(Raw())), split, newPid);
        Abs(Raw()) == h.left && Abs(right.Raw()) == h.right && sentinel == h.sentinel
    {
      hide Valid, Laid, Abs, Fits, SpaceOk, LenAt, Storable;
      EntriesSized();
      ghost var n := Abs(Raw());
      CopyHalfRight(right, split);
      right.EntriesSized();
      KeepLeft(split);
      EntriesSized();
      right.SlotEntry(0);
      var first := EntryAt(right.level, right.data[..], right.Slot(0));
      sentinel := first.key;
      assert first == n.entries[split];
      RoomForFence(n, split);
      CopyFence(right.data[..], right.Slot(0), right.heap);
      right.SetRLink(rlink);
      SetRLink(Some(newPid));
    }

    /** A new root: the empty key leads to the old root, the separator to the page split off. */
    method CreateRoot(key: Bytes, pid: Pid, newPid: Pid)
      requires Valid() && level > 0 && Abs(Raw()) == Node(level, [], None, None, PAGE_SIZE)
      requires |key| < MAX_ROW_SIZE && pid < 0x1_0000_0000 && newPid < 0x1_0000_0000
      modifies data, this`heap, this`count
      ensures Valid() && Abs(Raw()) == RootNode(level, key, pid, newPid)
    {
      hide Valid, Laid, Abs, Append, InsertSlot;
      EntriesSized();
      CalcHeapExact(level, PAGE_SIZE, 0);
      Put(Entry([], pid));
      EntriesSized();
      assert heap == PAGE_SIZE - 8;
      CalcHeapExact(level, heap, |key|);
      Put(Entry(key, newPid));
      EntriesSized();
      assert Abs(Raw()).entries == [Entry([], pid), Entry(key, newPid)];
    }

    /** An entry behind the others. */
    method Put(e: Entry)
      requires Valid() && Storable(level, e) && Fits(Abs(Raw()), e.key)
      modifies data, this`heap, this`count
      ensures Valid()
      ensures Abs(Raw()) == old(Abs(Raw())).(entries := old(Abs(Raw())).entries + [e],
        heap := old(heap) - Footprint(level, |e.key|))
    {
      hide Valid, Laid, Abs, Append, InsertSlot, SpaceOk;
      EntriesSized();
      FitsRoom(e);
      AppendLastOk(Raw(), e);
      AppendSizes(Raw(), e);
      var at := AppendHeap(e);
      ShiftRightInsert(count, at);
      ValidFrom();
    }
  }

  lemma FirstSlots(r: Image, n: nat)
    requires Laid(r) && n <= r.count
    ensures n <= |Abs(r).entries| && Good(r.level, r.m, r.heap, Slots(r.m, n))
    ensures EntriesAt(r.level, r.m, r.heap, Slots(r.m, n)) == Abs(r).entries[..n]
  {
    hide Good, EntriesAt;
    GoodTake(r.level, r.m, r.heap, Offsets(r), n);
    assert Slots(r.m, n) == Offsets(r)[..n];
  }

  lemma RoomForFence(n: Node, sp: nat)
    requires SpaceOk(n) && sp < |n.entries|
    ensures HEADER_SIZE + SLOT_SIZE * sp + Footprint(n.level, |n.entries[sp].key|) <= PAGE_SIZE - Used(n.level,
      n.entries[..sp])
  {
    assert n.entries[..sp + 1] == n.entries[..sp] + [n.entries[sp]];
    UsedConcat(n.level, n.entries[..sp], [n.entries[sp]]);
    UsedSlice(n.level, n.entries, 0, sp + 1);
    assert n.entries[0..sp + 1] == n.entries[..sp + 1];
  }

  lemma SortedSlice(entries: seq<Entry>, sp: nat)
    requires Sorted(entries) && sp <= |entries|
    ensures Sorted(entries[..sp]) && Sorted(entries[sp..])
  {
  }

  /** The right page when the entries up to i have been copied. */
  ghost function Copied(n: Node, split: nat, i: nat): Node
    requires split <= i <= |n.entries|
  {
    Node(n.level, n.entries[split..i], n.high, None, PAGE_SIZE - Used(n.level, n.entries[split..i]) - FenceUsed(n.level,
      n.high))
  }

  lemma CopiedNext(n: Node, split: nat, i: nat)
    requires split <= i < |n.entries|
    ensures Copied(n, split, i + 1) == Copied(n, split, i).(
      entries := Copied(n, split, i).entries + [n.entries[i]],
      heap := Copied(n, split, i).heap - Footprint(n.level, |n.entries[i].key|))
  {
    assert n.entries[split..i + 1] == n.entries[split..i] + [n.entries[i]];
    UsedConcat(n.level, n.entries[split..i], [n.entries[i]]);
  }

  lemma RoomForNext(n: Node, split: nat, i: nat)
    requires SpaceOk(n) && split <= i < |n.entries|
    ensures Fits(Copied(n, split, i), n.entries[i].key)
  {
    CopiedNext(n, split, i);
    UsedSlice(n.level, n.entries, split, i + 1);
  }

  /** One move and the write of its slot. */
  lemma CompactStep(level: nat, m: Bytes, moved: Bytes, after: Bytes, lo: nat, n: nat, was: seq<nat>, es: seq<Entry>,
      order: seq<nat>, k: nat, h: nat, to: nat)
    requires |m| == PAGE_SIZE && HEADER_SIZE + SLOT_SIZE * n <= lo <= PAGE_SIZE && k < |order| == n && order[k] < n
    requires Packing(level, m, lo, Slots(m, n), was, es, order, k, h)
    requires var off := Slots(m, n)[order[k]];
      && off + EntryHeader(level) + LenAt(level, m, off) <= PAGE_SIZE && to == CalcHeap(level, h, LenAt(level, m, off))
      && to + EntryHeader(level) + LenAt(level, m, off) <= PAGE_SIZE
      && moved == Blit(m, to, m[off..off + EntryHeader(level) + LenAt(level, m, off)])
    requires after == Blit(moved, HEADER_SIZE + SLOT_SIZE * order[k], Le16(to))
    ensures Packing(level, after, lo, Slots(after, n), was, es, order, k + 1, to) && lo <= to <= PAGE_SIZE
  {
    hide Packing, Blit, LenAt, Size, CalcHeap, Slots, Le16;
    var offs := Slots(m, n);
    MoveOk(level, m, lo, offs, was, es, order, k, h);
    SlotsSame(m, moved, n);
    SlotWritten(moved, n, order[k], to);
    SlotsBelow(moved, after, n, order[k], to, lo);
    PackingSame(level, moved, after, lo, offs[order[k] := to], was, es, order, k + 1, to);
  }

  lemma SlotsBelow(m: Bytes, after: Bytes, n: nat, i: nat, v: nat, lo: nat)
    requires |m| == PAGE_SIZE && i < n && HEADER_SIZE + SLOT_SIZE * n <= lo <= PAGE_SIZE && v < 0x1_0000
    requires after == Blit(m, HEADER_SIZE + SLOT_SIZE * i, Le16(v))
    ensures Agree(m, after, lo, PAGE_SIZE)
  {
  }

  lemma PackedAligned(level: nat, m: Bytes, lo: nat, offs: seq<nat>, was: seq<nat>, es: seq<Entry>, order: seq<nat>, h: nat)
    requires Packing(level, m, lo, offs, was, es, order, |order|, h)
    ensures h % EntryAlign(level) == 0
  {
  }
}
