/** A page's header fields and bytes as one value, what node it stands for, and what the edits do to it. */
module PageImage {
  import opened ByteOrder
  import opened PageLayout
  import opened PageBytes

  const UNDEFINED_OFFSET := 0xFFFF

  /** max: the offset of the high fence's entry. */
  datatype Image = Image(level: nat, m: Bytes, count: nat, heap: nat, max: nat, rlink: Option<Pid>)

  ghost predicate Sized(r: Image) {
    && |r.m| == PAGE_SIZE && HEADER_SIZE + SLOT_SIZE * r.count <= r.heap <= PAGE_SIZE
    && r.heap % EntryAlign(r.level) == 0
  }

  /** The slots' entries, then the fence's. */
  ghost function Offsets(r: Image): (offs: seq<nat>)
    requires Sized(r)
    ensures |offs| == r.count + if r.max == UNDEFINED_OFFSET then 0 else 1
  {
    Slots(r.m, r.count) + if r.max == UNDEFINED_OFFSET then [] else [r.max]
  }

  ghost predicate Laid(r: Image) {
    Sized(r) && Good(r.level, r.m, r.heap, Offsets(r))
  }

  ghost function EntriesOf(r: Image): (es: seq<Entry>)
    requires Laid(r)
    ensures |es| == |Offsets(r)|
  {
    EntriesAt(r.level, r.m, r.heap, Offsets(r))
  }

  /** The node the page stands for. */
  ghost function Abs(r: Image): Node
    requires Laid(r)
  {
    var es := EntriesOf(r);
    Node(r.level, es[..r.count], if r.max == UNDEFINED_OFFSET then None else Some(es[r.count].key), r.rlink, r.heap)
  }

  ghost predicate Storable(level: nat, e: Entry) {
    |e.key| < 0x1_0000 && e.child < 0x1_0000_0000 && (level == 0 ==> e.child == 0)
  }

  // ---- a new entry in the heap ----

  ghost function Append(r: Image, e: Entry): Image
    requires Sized(r) && Storable(r.level, e) && HEADER_SIZE + SLOT_SIZE * r.count + Footprint(r.level, |e.key|) <= r.heap
  {
    var o := r.heap - Footprint(r.level, |e.key|);
    r.(m := Blit(r.m, o, Packed(r.level, e)), heap := o)
  }

  lemma AppendOk(r: Image, e: Entry)
    requires Laid(r) && Storable(r.level, e)
    requires HEADER_SIZE + SLOT_SIZE * r.count + Footprint(r.level, |e.key|) <= r.heap
    ensures var u := Append(r, e);
      && u.heap == CalcHeap(r.level, r.heap, |e.key|)
      && Laid(u) && Offsets(u) == Offsets(r) && Abs(u) == Abs(r).(heap := u.heap)
      && Good(u.level, u.m, u.heap, Offsets(r) + [u.heap])
      && EntriesAt(u.level, u.m, u.heap, Offsets(r) + [u.heap]) == EntriesOf(r) + [e]
  {
    hide Good, EntriesAt, Slots, Packed, CalcHeap, Footprint, Append;
    var u, offs := Append(r, e), Offsets(r);
    AppendGood(r, e);
    GoodTake(u.level, u.m, u.heap, offs + [u.heap], |offs|);
    assert (offs + [u.heap])[..|offs|] == offs;
    assert (EntriesOf(r) + [e])[..|offs|] == EntriesOf(r);
  }

  lemma AppendGood(r: Image, e: Entry)
    requires Laid(r) && Storable(r.level, e)
    requires HEADER_SIZE + SLOT_SIZE * r.count + Footprint(r.level, |e.key|) <= r.heap
    ensures var u := Append(r, e);
      && u.heap == CalcHeap(r.level, r.heap, |e.key|) && u == r.(m := u.m, heap := u.heap) && Sized(u)
      && Offsets(u) == Offsets(r)
      && Good(u.level, u.m, u.heap, Offsets(r) + [u.heap])
      && EntriesAt(u.level, u.m, u.heap, Offsets(r) + [u.heap]) == EntriesOf(r) + [e]
  {
    hide Good, EntriesAt, Slots, Packed, CalcHeap, Footprint, Blit;
    var u := Append(r, e);
    GoodPush(r.level, r.m, r.heap, Offsets(r), e);
    SlotsSame(r.m, u.m, r.count);
    AlignedDifference(r.level, r.heap, Footprint(r.level, |e.key|));
  }

  lemma GoodTake(level: nat, m: Bytes, heap: nat, offs: seq<nat>, n: nat)
    requires Good(level, m, heap, offs) && n <= |offs|
    ensures Good(level, m, heap, offs[..n]) && EntriesAt(level, m, heap, offs[..n]) == EntriesAt(level, m, heap, offs)[..n]
  {
    GoodChoice(level, m, heap, offs, seq(n, i => i), offs[..n]);
  }

  // ---- a slot for an entry that is in the heap ----

  ghost function InsertSlot(r: Image, i: nat, off: nat): Image
    requires |r.m| == PAGE_SIZE && HEADER_SIZE + SLOT_SIZE * (r.count + 1) <= PAGE_SIZE && i <= r.count && off < 0x1_0000
  {
    var at := HEADER_SIZE + SLOT_SIZE * i;
    var moved := Blit(r.m, at + SLOT_SIZE, r.m[at..HEADER_SIZE + SLOT_SIZE * r.count]);
    r.(m := Blit(moved, at, Le16(off)), count := r.count + 1)
  }

  /** The entries once the entry at off has the slot i. */
  lemma InsertSlotOk(r: Image, i: nat, off: nat)
    requires Laid(r) && i <= r.count && HEADER_SIZE + SLOT_SIZE * (r.count + 1) <= r.heap
    requires Good(r.level, r.m, r.heap, Offsets(r) + [off])
    ensures off < PAGE_SIZE && Laid(InsertSlot(r, i, off))
    ensures var es, e := EntriesOf(r), EntriesAt(r.level, r.m, r.heap, Offsets(r) + [off])[|Offsets(r)|];
      Abs(InsertSlot(r, i, off)) == Abs(r).(entries := Abs(r).entries[..i] + [e] + Abs(r).entries[i..])
  {
    hide EntriesAt, Slots, Blit, Abs;
    var offs := Offsets(r) + [off];
    assert EntryOk(r.level, r.m, r.heap, offs[|offs| - 1]);
    hide Good;
    var u, n := InsertSlot(r, i, off), |Offsets(r)|;
    InsertedOffsets(r, i, off);
    HeapUntouched(r, i, off);
    var pick := InsertPick(n, i);
    Rearranged(r, offs, u, pick);
    GoodTake(r.level, r.m, r.heap, offs, n);
    assert offs[..n] == Offsets(r);
    InsertedEntries(r, u, EntriesAt(r.level, r.m, r.heap, offs), i, pick);
  }

  lemma InsertedOffsets(r: Image, i: nat, off: nat)
    requires Sized(r) && i <= r.count && HEADER_SIZE + SLOT_SIZE * (r.count + 1) <= r.heap && off < PAGE_SIZE
    ensures Sized(InsertSlot(r, i, off))
    ensures var u, offs := InsertSlot(r, i, off), Offsets(r) + [off];
      |Offsets(u)| == |offs| && forall j | 0 <= j < |offs| :: Offsets(u)[j] == offs[InsertPick(|offs| - 1, i)[j]]
  {
    hide Slots, Blit, InsertSlot;
    InsertSizes(r, i, off);
    SlotInserted(r.m, r.count, i, off);
    var u, a, n := InsertSlot(r, i, off), Slots(r.m, r.count), |Offsets(r)|;
    assert Slots(u.m, u.count) == a[..i] + [off] + a[i..];
    var fence := if r.max == UNDEFINED_OFFSET then [] else [r.max];
    assert Offsets(u) == a[..i] + [off] + a[i..] + fence && Offsets(r) == a + fence;
    forall j | 0 <= j < n + 1 ensures Offsets(u)[j] == (Offsets(r) + [off])[InsertPick(n, i)[j]] {
      if j <= i {
      } else if j <= r.count {
        assert Offsets(u)[j] == a[j - 1];
      } else {
        assert Offsets(u)[j] == fence[0];
      }
    }
  }

  lemma InsertSizes(r: Image, i: nat, off: nat)
    requires Sized(r) && i <= r.count && HEADER_SIZE + SLOT_SIZE * (r.count + 1) <= r.heap && off < PAGE_SIZE
    ensures var u, at := InsertSlot(r, i, off), HEADER_SIZE + SLOT_SIZE * i;
      && Sized(u) && u.count == r.count + 1 && u.max == r.max && u.level == r.level && u.heap == r.heap && u.rlink == r.rlink
      && u.m == Blit(Blit(r.m, at + SLOT_SIZE, r.m[at..HEADER_SIZE + SLOT_SIZE * r.count]), at, Le16(off))
  {
  }

  /** A page whose offsets are picked from those of another, with the same heap. */
  lemma Rearranged(r: Image, offs: seq<nat>, u: Image, pick: seq<nat>)
    requires Sized(u) && u.level == r.level && u.heap == r.heap && |r.m| == PAGE_SIZE && Agree(r.m, u.m, r.heap, PAGE_SIZE)
    requires Good(r.level, r.m, r.heap, offs) && |pick| == |Offsets(u)|
    requires forall j | 0 <= j < |pick| :: pick[j] < |offs| && Offsets(u)[j] == offs[pick[j]]
    requires forall i, j | 0 <= i < j < |pick| :: pick[i] != pick[j]
    ensures Laid(u)
    ensures forall j | 0 <= j < |pick| :: EntriesOf(u)[j] == EntriesAt(r.level, r.m, r.heap, offs)[pick[j]]
  {
    hide EntriesAt, Good;
    GoodChoice(r.level, r.m, r.heap, offs, pick, Offsets(u));
    GoodSame(r.level, r.m, u.m, r.heap, Offsets(u));
  }

  /** Where the offsets come from when the last of n + 1 goes to place i. */
  ghost function InsertPick(n: nat, i: nat): (pick: seq<nat>)
    ensures |pick| == n + 1
    ensures forall j | 0 <= j <= n :: pick[j] == if j < i then j else if j == i then n else j - 1
  {
    seq(n + 1, j => if j < i then j else if j == i then n else j - 1)
  }

  lemma InsertedEntries(r: Image, u: Image, es: seq<Entry>, i: nat, pick: seq<nat>)
    requires Laid(r) && Laid(u) && u.count == r.count + 1 && i <= r.count
    requires u.level == r.level && u.max == r.max && u.rlink == r.rlink && u.heap == r.heap
    requires |es| == |EntriesOf(r)| + 1 && es[..|EntriesOf(r)|] == EntriesOf(r)
    requires pick == InsertPick(|es| - 1, i)
    requires forall j | 0 <= j < |es| :: EntriesOf(u)[j] == es[pick[j]]
    ensures Abs(u) == Abs(r).(entries := Abs(r).entries[..i] + [es[|es| - 1]] + Abs(r).entries[i..])
  {
    hide EntriesOf;
    var old', new' := EntriesOf(r), EntriesOf(u);
    assert forall j | 0 <= j < |old'| :: old'[j] == es[j];
    assert new'[..u.count] == old'[..r.count][..i] + [es[|es| - 1]] + old'[..r.count][i..];
  }

  lemma HeapUntouched(r: Image, i: nat, off: nat)
    requires Sized(r) && i <= r.count && HEADER_SIZE + SLOT_SIZE * (r.count + 1) <= r.heap && off < 0x1_0000
    ensures Agree(r.m, InsertSlot(r, i, off).m, r.heap, PAGE_SIZE)
  {
  }

  /** An entry put in the heap, and its slot in order: a sorted insert of the node. */
  lemma InsertOk(r: Image, e: Entry)
    requires Laid(r) && SpaceOk(Abs(r)) && Storable(r.level, e) && Fits(Abs(r), e.key)
    ensures var i := LowerBound(Abs(r).entries, e.key);
      && i <= r.count
      && HEADER_SIZE + SLOT_SIZE * (r.count + 1) + Footprint(r.level, |e.key|) <= r.heap
      && var u := InsertSlot(Append(r, e), i, Append(r, e).heap);
      Laid(u) && Abs(u) == InsertEntry(Abs(r), e) && SpaceOk(Abs(u))
  {
    hide Good, Append, EntriesAt, InsertSlot;
    AppendOk(r, e);
    var a, i := Append(r, e), LowerBound(Abs(r).entries, e.key);
    AppendSizes(r, e);
    InsertSlotOk(a, i, a.heap);
    InsertKeepsSpace(Abs(r), e);
  }

  lemma AppendSizes(r: Image, e: Entry)
    requires Sized(r) && Storable(r.level, e) && HEADER_SIZE + SLOT_SIZE * r.count + Footprint(r.level, |e.key|) <= r.heap
    ensures var u := Append(r, e);
      && u.heap == r.heap - Footprint(r.level, |e.key|) && u.count == r.count && u.level == r.level
      && u.max == r.max && u.rlink == r.rlink && |u.m| == |r.m|
  {
  }

  /** An entry put in the heap, and its slot behind the others. */
  lemma AppendLastOk(r: Image, e: Entry)
    requires Laid(r) && SpaceOk(Abs(r)) && Storable(r.level, e) && Fits(Abs(r), e.key)
    ensures HEADER_SIZE + SLOT_SIZE * (r.count + 1) + Footprint(r.level, |e.key|) <= r.heap
    ensures var u := InsertSlot(Append(r, e), r.count, Append(r, e).heap);
      Laid(u) && SpaceOk(Abs(u))
      && Abs(u) == Abs(r).(entries := Abs(r).entries + [e], heap := r.heap - Footprint(r.level, |e.key|))
  {
    hide Good, Append, EntriesAt, InsertSlot, EntriesOf, CalcHeap;
    AppendOk(r, e);
    var a := Append(r, e);
    AppendSizes(r, e);
    InsertSlotOk(a, r.count, a.heap);
    assert Abs(r).entries[..r.count] == Abs(r).entries && Abs(r).entries[r.count..] == [];
    SpaceAppended(Abs(r), e, a.heap);
    assert Abs(InsertSlot(a, r.count, a.heap)) == Abs(r).(entries := Abs(r).entries + [e], heap := a.heap);
  }

  lemma SpaceAppended(n: Node, e: Entry, heap: int)
    requires SpaceOk(n) && Fits(n, e.key) && heap == n.heap - Footprint(n.level, |e.key|)
    ensures SpaceOk(n.(entries := n.entries + [e], heap := heap))
  {
    UsedConcat(n.level, n.entries, [e]);
    AlignedDifference(n.level, n.heap, Footprint(n.level, |e.key|));
  }

  /** An entry put in the heap and made the fence. */
  lemma FenceOk(r: Image, e: Entry)
    requires Laid(r) && SpaceOk(Abs(r)) && Storable(r.level, e) && r.max == UNDEFINED_OFFSET
    requires HEADER_SIZE + SLOT_SIZE * r.count + Footprint(r.level, |e.key|) <= r.heap
    ensures var u := Append(r, e).(max := Append(r, e).heap);
      Laid(u) && SpaceOk(Abs(u))
      && Abs(u) == Abs(r).(high := Some(e.key), heap := r.heap - Footprint(r.level, |e.key|))
  {
    hide Good, EntriesAt, Append;
    AppendOk(r, e);
    AppendSizes(r, e);
    var a := Append(r, e);
    var u := a.(max := a.heap);
    assert Offsets(u) == Offsets(r) + [a.heap];
    assert EntriesOf(u) == EntriesOf(r) + [e];
    assert EntriesOf(u)[..r.count] == EntriesOf(r)[..r.count];
    AlignedDifference(r.level, r.heap, Footprint(r.level, |e.key|));
  }

  /** Entries read from a page can be stored again. */
  lemma EntryStorable(level: nat, m: Bytes, o: nat)
    requires o + EntryHeader(level) <= |m| && o + EntryHeader(level) + LenAt(level, m, o) <= |m|
    ensures Storable(level, EntryAt(level, m, o))
  {
  }

  /** A page left with its first slots, repacked, and no fence. */
  lemma RepackedOk(u: Image, es: seq<Entry>)
    requires Sized(u) && u.max == UNDEFINED_OFFSET && |es| == u.count
    requires Good(u.level, u.m, u.heap, Slots(u.m, u.count)) && EntriesAt(u.level, u.m, u.heap, Slots(u.m, u.count)) == es
    requires u.heap + Used(u.level, es) == PAGE_SIZE
    ensures Laid(u) && SpaceOk(Abs(u)) && Abs(u) == Node(u.level, es, None, u.rlink, PAGE_SIZE - Used(u.level, es))
  {
    assert Offsets(u) == Slots(u.m, u.count);
    assert es[..u.count] == es;
  }

  lemma {:induction false} UsedSlice(level: nat, es: seq<Entry>, i: nat, j: nat)
    requires i <= j <= |es|
    ensures Used(level, es[i..j]) <= Used(level, es)
  {
    assert es == es[..i] + (es[i..j] + es[j..]);
    UsedConcat(level, es[..i], es[i..j] + es[j..]);
    UsedConcat(level, es[i..j], es[j..]);
  }

  // ---- dropping a slot ----

  ghost function RemoveSlot(r: Image, i: nat): Image
    requires Sized(r) && i < r.count
  {
    var at := HEADER_SIZE + SLOT_SIZE * i;
    r.(m := Blit(r.m, at, r.m[at + SLOT_SIZE..HEADER_SIZE + SLOT_SIZE * r.count]), count := r.count - 1)
  }

  lemma RemoveSlotOk(r: Image, i: nat)
    requires Laid(r) && SpaceOk(Abs(r)) && i < r.count
    ensures Laid(RemoveSlot(r, i)) && i < |Abs(r).entries|
    ensures Abs(RemoveSlot(r, i)) == DeleteAt(Abs(r), i) && SpaceOk(Abs(RemoveSlot(r, i)))
  {
    hide Good, EntriesAt, Slots, Blit, Abs, SpaceOk;
    var u, offs := RemoveSlot(r, i), Offsets(r);
    var n := |offs|;
    RemovedOffsets(r, i);
    HeapKept(r, i);
    Rearranged(r, offs, u, seq(n - 1, j => if j < i then j else j + 1));
    RemovedEntries(r, u, i);
    DeleteKeepsSpace(Abs(r), i);
  }

  lemma RemovedOffsets(r: Image, i: nat)
    requires Sized(r) && i < r.count
    ensures Sized(RemoveSlot(r, i))
    ensures var u := RemoveSlot(r, i);
      |Offsets(u)| == |Offsets(r)| - 1
      && forall j | 0 <= j < |Offsets(u)| :: Offsets(u)[j] == Offsets(r)[if j < i then j else j + 1]
  {
    hide Slots, Blit;
    SlotRemoved(r.m, r.count, i);
  }

  lemma RemovedEntries(r: Image, u: Image, i: nat)
    requires Laid(r) && Laid(u) && u.count == r.count - 1 && i < r.count
    requires u.level == r.level && u.max == r.max && u.rlink == r.rlink && u.heap == r.heap
    requires |EntriesOf(u)| == |EntriesOf(r)| - 1
    requires forall j | 0 <= j < |EntriesOf(u)| :: EntriesOf(u)[j] == EntriesOf(r)[if j < i then j else j + 1]
    ensures i < |Abs(r).entries| && Abs(u) == DeleteAt(Abs(r), i)
  {
    hide EntriesOf;
    var es, less := EntriesOf(r), EntriesOf(u);
    assert less[..u.count] == es[..r.count][..i] + es[..r.count][i + 1..];
  }

  lemma HeapKept(r: Image, i: nat)
    requires Sized(r) && i < r.count
    ensures Agree(r.m, RemoveSlot(r, i).m, r.heap, PAGE_SIZE)
  {
  }
}
