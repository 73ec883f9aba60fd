/** The bytes of an index page: where an entry lies, and what writing elsewhere leaves alone. */
module PageBytes {
  import opened ByteOrder
  import opened PageLayout

  // ---- little-endian fields ----

  function Le16(v: nat): (b: Bytes)
    requires v < 0x1_0000
    ensures |b| == 2
  {
    [v % 256, v / 256]
  }

  function Get16(m: Bytes, o: nat): (v: nat)
    requires o + 2 <= |m|
    ensures v < 0x1_0000
  {
    m[o] as int + 256 * (m[o + 1] as int)
  }

  function Le32(v: nat): (b: Bytes)
    requires v < 0x1_0000_0000
    ensures |b| == 4
  {
    Le16(v % 0x1_0000) + Le16(v / 0x1_0000)
  }

  function Get32(m: Bytes, o: nat): (v: nat)
    requires o + 4 <= |m|
    ensures v < 0x1_0000_0000
  {
    Get16(m, o) + 0x1_0000 * Get16(m, o + 2)
  }

  // ---- writing ----

  /** m with the bytes b from offset o on. */
  function Blit(m: Bytes, o: nat, b: Bytes): (r: Bytes)
    requires o + |b| <= |m|
    ensures |r| == |m|
    ensures forall k | 0 <= k < |m| :: r[k] == if o <= k < o + |b| then b[k - o] else m[k]
  {
    m[..o] + b + m[o + |b|..]
  }

  ghost predicate Agree(m: Bytes, n: Bytes, lo: nat, hi: nat) {
    |m| == |n| && hi <= |m| && forall k | lo <= k < hi :: n[k] == m[k]
  }

  // ---- entries ----

  /** A leaf entry is its length and key; an inner entry its child, length, two bytes of padding and key. */
  function Packed(level: nat, e: Entry): (b: Bytes)
    requires |e.key| < 0x1_0000 && e.child < 0x1_0000_0000
    ensures |b| == EntryHeader(level) + |e.key|
  {
    if level == 0 then Le16(|e.key|) + e.key
    else Le32(e.child) + Le16(|e.key|) + [0, 0] + e.key
  }

  function LenAt(level: nat, m: Bytes, o: nat): (len: nat)
    requires o + EntryHeader(level) <= |m|
    ensures len < 0x1_0000
  {
    Get16(m, if level == 0 then o else o + 4)
  }

  /** Bytes from o on that belong to the entry at o. */
  function Size(level: nat, m: Bytes, o: nat): (size: nat)
    requires o + EntryHeader(level) <= |m|
    ensures size >= EntryHeader(level) + LenAt(level, m, o)
  {
    Footprint(level, LenAt(level, m, o))
  }

  function EntryAt(level: nat, m: Bytes, o: nat): Entry
    requires o + EntryHeader(level) <= |m| && o + EntryHeader(level) + LenAt(level, m, o) <= |m|
  {
    var k := o + EntryHeader(level);
    Entry(m[k..k + LenAt(level, m, o)], if level == 0 then 0 else Get32(m, o))
  }

  ghost predicate EntryOk(level: nat, m: Bytes, heap: nat, o: nat) {
    && |m| == PAGE_SIZE && o % EntryAlign(level) == 0 && heap <= o
    && o + EntryHeader(level) <= PAGE_SIZE && o + Size(level, m, o) <= PAGE_SIZE
  }

  lemma EntrySame(level: nat, m: Bytes, n: Bytes, heap: nat, o: nat)
    requires EntryOk(level, m, heap, o) && |n| == |m|
    requires Agree(m, n, o, o + EntryHeader(level) + LenAt(level, m, o))
    ensures EntryOk(level, n, heap, o) && Size(level, n, o) == Size(level, m, o)
    ensures LenAt(level, n, o) == LenAt(level, m, o) && EntryAt(level, n, o) == EntryAt(level, m, o)
  {
  }

  lemma PackedThere(level: nat, m: Bytes, o: nat, e: Entry)
    requires |e.key| < 0x1_0000 && e.child < 0x1_0000_0000 && (level == 0 ==> e.child == 0)
    requires o + EntryHeader(level) + |e.key| <= |m|
    ensures var n := Blit(m, o, Packed(level, e)); LenAt(level, n, o) == |e.key| && EntryAt(level, n, o) == e
  {
    var b := Packed(level, e);
    var n := Blit(m, o, b);
    assert b[EntryHeader(level)..] == e.key;
    if level == 0 {
      assert n[o] == b[0] && n[o + 1] == b[1];
    } else {
      assert n[o] == b[0] && n[o + 1] == b[1] && n[o + 2] == b[2] && n[o + 3] == b[3];
      assert n[o + 4] == b[4] && n[o + 5] == b[5];
    }
    var k := o + EntryHeader(level);
    assert n[k..k + |e.key|] == e.key;
  }

  /** An entry copied as it is, to another place. */
  lemma MovedThere(level: nat, m: Bytes, n: Bytes, o: nat, d: nat)
    requires |m| == |n| && o + EntryHeader(level) <= |m| && o + EntryHeader(level) + LenAt(level, m, o) <= |m|
    requires d + EntryHeader(level) + LenAt(level, m, o) <= |m|
    requires n[d..d + EntryHeader(level) + LenAt(level, m, o)] == m[o..o + EntryHeader(level) + LenAt(level, m, o)]
    ensures LenAt(level, n, d) == LenAt(level, m, o) && EntryAt(level, n, d) == EntryAt(level, m, o)
  {
    var h, len := EntryHeader(level), LenAt(level, m, o);
    var x, y := n[d..d + h + len], m[o..o + h + len];
    assert n[d] == x[0] == y[0] == m[o] && n[d + 1] == x[1] == y[1] == m[o + 1];
    if level > 0 {
      assert n[d + 2] == x[2] == y[2] == m[o + 2] && n[d + 3] == x[3] == y[3] == m[o + 3];
      assert n[d + 4] == x[4] == y[4] == m[o + 4] && n[d + 5] == x[5] == y[5] == m[o + 5];
    }
    assert n[d + h..d + h + len] == x[h..] && m[o + h..o + h + len] == y[h..];
  }

  // ---- all entries of a page ----

  ghost predicate Apart(level: nat, m: Bytes, a: nat, b: nat)
    requires a + EntryHeader(level) <= |m| && b + EntryHeader(level) <= |m|
  {
    a + Size(level, m, a) <= b || b + Size(level, m, b) <= a
  }

  /** The entries at these offsets are aligned, above the heap offset, within the page, and disjoint. */
  ghost predicate Good(level: nat, m: Bytes, heap: nat, offs: seq<nat>) {
    && (forall i | 0 <= i < |offs| :: EntryOk(level, m, heap, offs[i]))
    && (forall i, j | 0 <= i < j < |offs| :: Apart(level, m, offs[i], offs[j]))
  }

  ghost function EntriesAt(level: nat, m: Bytes, heap: nat, offs: seq<nat>): (es: seq<Entry>)
    requires Good(level, m, heap, offs)
    ensures |es| == |offs| && forall i | 0 <= i < |offs| :: es[i] == EntryAt(level, m, offs[i])
  {
    seq(|offs|, i requires 0 <= i < |offs| => EntryAt(level, m, offs[i]))
  }

  /** Bytes below the heap offset do not matter to the entries. */
  lemma GoodSame(level: nat, m: Bytes, n: Bytes, heap: nat, offs: seq<nat>)
    requires Good(level, m, heap, offs) && |m| == |n| == PAGE_SIZE && Agree(m, n, heap, PAGE_SIZE)
    ensures Good(level, n, heap, offs) && EntriesAt(level, n, heap, offs) == EntriesAt(level, m, heap, offs)
  {
    forall i | 0 <= i < |offs|
      ensures EntryOk(level, n, heap, offs[i]) && Size(level, n, offs[i]) == Size(level, m, offs[i])
      ensures EntryAt(level, n, offs[i]) == EntryAt(level, m, offs[i])
    {
      assert EntryOk(level, m, heap, offs[i]);
      EntrySame(level, m, n, heap, offs[i]);
    }
    forall i, j | 0 <= i < j < |offs| ensures Apart(level, n, offs[i], offs[j]) {
      assert Apart(level, m, offs[i], offs[j]);
    }
  }

  /** Any choice of the offsets, in any order, without repeating one. */
  lemma GoodChoice(level: nat, m: Bytes, heap: nat, offs: seq<nat>, pick: seq<nat>, some: seq<nat>)
    requires Good(level, m, heap, offs) && |pick| == |some|
    requires forall i | 0 <= i < |pick| :: pick[i] < |offs| && some[i] == offs[pick[i]]
    requires forall i, j | 0 <= i < j < |pick| :: pick[i] != pick[j]
    ensures Good(level, m, heap, some)
    ensures forall i | 0 <= i < |pick| :: EntriesAt(level, m, heap, some)[i] == EntriesAt(level, m, heap, offs)[pick[i]]
  {
    forall i | 0 <= i < |some| ensures EntryOk(level, m, heap, some[i]) {
      assert EntryOk(level, m, heap, offs[pick[i]]);
    }
    forall i, j | 0 <= i < j < |some| ensures Apart(level, m, some[i], some[j]) {
      var a, b := pick[i], pick[j];
      assert if a < b then Apart(level, m, offs[a], offs[b]) else Apart(level, m, offs[b], offs[a]);
    }
  }

  /** A new entry right below the others. */
  lemma GoodPush(level: nat, m: Bytes, heap: nat, offs: seq<nat>, e: Entry)
    requires Good(level, m, heap, offs) && |m| == PAGE_SIZE && heap <= PAGE_SIZE && heap % EntryAlign(level) == 0
    requires |e.key| < 0x1_0000 && e.child < 0x1_0000_0000 && (level == 0 ==> e.child == 0)
    requires Footprint(level, |e.key|) <= heap
    ensures var o := heap - Footprint(level, |e.key|); var n := Blit(m, o, Packed(level, e));
      && o == CalcHeap(level, heap, |e.key|)
      && Good(level, n, o, offs + [o])
      && EntriesAt(level, n, o, offs + [o]) == EntriesAt(level, m, heap, offs) + [e]
  {
    var o := heap - Footprint(level, |e.key|);
    var n := Blit(m, o, Packed(level, e));
    CalcHeapExact(level, heap, |e.key|);
    AlignedDifference(level, heap, Footprint(level, |e.key|));
    PackedThere(level, m, o, e);
    GoodSame(level, m, n, heap, offs);
    OneMore(level, n, heap, offs, o);
  }

  lemma OneMore(level: nat, m: Bytes, heap: nat, offs: seq<nat>, o: nat)
    requires Good(level, m, heap, offs) && EntryOk(level, m, o, o) && o + Size(level, m, o) <= heap
    ensures Good(level, m, o, offs + [o])
    ensures EntriesAt(level, m, o, offs + [o]) == EntriesAt(level, m, heap, offs) + [EntryAt(level, m, o)]
  {
    hide Size, LenAt, EntryAt;
    var more := offs + [o];
    forall i | 0 <= i < |more| ensures EntryOk(level, m, o, more[i]) {
      assert i < |offs| ==> EntryOk(level, m, heap, offs[i]);
    }
    forall i, j | 0 <= i < j < |more| ensures Apart(level, m, more[i], more[j]) {
      assert EntryOk(level, m, heap, offs[i]);
      assert j < |offs| ==> Apart(level, m, offs[i], offs[j]);
    }
  }

  // ---- slots ----

  /** The first count slots, after the header. */
  ghost function Slots(m: Bytes, count: nat): (offs: seq<nat>)
    requires HEADER_SIZE + SLOT_SIZE * count <= |m|
    ensures |offs| == count && forall i | 0 <= i < count :: offs[i] == Get16(m, HEADER_SIZE + SLOT_SIZE * i)
  {
    seq(count, i requires 0 <= i < count => Get16(m, HEADER_SIZE + SLOT_SIZE * i))
  }

  lemma SlotsSame(m: Bytes, n: Bytes, count: nat)
    requires HEADER_SIZE + SLOT_SIZE * count <= |m| && Agree(m, n, HEADER_SIZE, HEADER_SIZE + SLOT_SIZE * count)
    ensures Slots(n, count) == Slots(m, count)
  {
    forall i | 0 <= i < count
      ensures Get16(n, HEADER_SIZE + SLOT_SIZE * i) == Get16(m, HEADER_SIZE + SLOT_SIZE * i)
    {
    }
  }

  lemma SlotWritten(m: Bytes, count: nat, i: nat, v: nat)
    requires HEADER_SIZE + SLOT_SIZE * count <= |m| && i < count && v < 0x1_0000
    ensures Slots(Blit(m, HEADER_SIZE + SLOT_SIZE * i, Le16(v)), count) == Slots(m, count)[i := v]
  {
    var n := Blit(m, HEADER_SIZE + SLOT_SIZE * i, Le16(v));
    forall j | 0 <= j < count ensures Slots(n, count)[j] == Slots(m, count)[i := v][j] {
      var a := HEADER_SIZE + SLOT_SIZE * j;
      assert n[a] == (if j == i then Le16(v)[0] else m[a]) && n[a + 1] == (if j == i then Le16(v)[1] else m[a + 1]);
    }
  }

  /** Slots i.. moved one place up, and v put in the gap. */
  lemma SlotInserted(m: Bytes, count: nat, i: nat, v: nat)
    requires HEADER_SIZE + SLOT_SIZE * (count + 1) <= |m| && i <= count && v < 0x1_0000
    ensures var at := HEADER_SIZE + SLOT_SIZE * i;
      var moved := Blit(m, at + SLOT_SIZE, m[at..HEADER_SIZE + SLOT_SIZE * count]);
      Slots(Blit(moved, at, Le16(v)), count + 1) == Slots(m, count)[..i] + [v] + Slots(m, count)[i..]
  {
    var at := HEADER_SIZE + SLOT_SIZE * i;
    var n := Blit(Blit(m, at + SLOT_SIZE, m[at..HEADER_SIZE + SLOT_SIZE * count]), at, Le16(v));
    var want := Slots(m, count)[..i] + [v] + Slots(m, count)[i..];
    forall j | 0 <= j < count + 1 ensures Slots(n, count + 1)[j] == want[j] {
      SlotShifted(m, count, i, v, j);
    }
  }

  lemma SlotShifted(m: Bytes, count: nat, i: nat, v: nat, j: nat)
    requires HEADER_SIZE + SLOT_SIZE * (count + 1) <= |m| && i <= count && v < 0x1_0000 && j <= count
    ensures var at := HEADER_SIZE + SLOT_SIZE * i;
      var n := Blit(Blit(m, at + SLOT_SIZE, m[at..HEADER_SIZE + SLOT_SIZE * count]), at, Le16(v));
      Get16(n, HEADER_SIZE + SLOT_SIZE * j) ==
        if j < i then Get16(m, HEADER_SIZE + SLOT_SIZE * j)
        else if j == i then v
        else Get16(m, HEADER_SIZE + SLOT_SIZE * (j - 1))
  {
    var at, a := HEADER_SIZE + SLOT_SIZE * i, HEADER_SIZE + SLOT_SIZE * j;
    var tail := m[at..HEADER_SIZE + SLOT_SIZE * count];
    var moved := Blit(m, at + SLOT_SIZE, tail);
    var n := Blit(moved, at, Le16(v));
    hide Blit;
    if j < i {
      assert n[a] == moved[a] && n[a + 1] == moved[a + 1];
      assert moved[a] == m[a] && moved[a + 1] == m[a + 1];
    } else if j > i {
      assert n[a] == moved[a] && n[a + 1] == moved[a + 1];
      assert moved[a] == tail[a - at - 2] && moved[a + 1] == tail[a - at - 1];
      assert tail[a - at - 2] == m[a - 2] && tail[a - at - 1] == m[a - 1];
    }
  }

  lemma SlotRemoved(m: Bytes, count: nat, i: nat)
    requires HEADER_SIZE + SLOT_SIZE * count <= |m| && i < count
    ensures var at := HEADER_SIZE + SLOT_SIZE * i;
      var moved := Blit(m, at, m[at + SLOT_SIZE..HEADER_SIZE + SLOT_SIZE * count]);
      Slots(moved, count - 1) == Slots(m, count)[..i] + Slots(m, count)[i + 1..]
  {
    var at := HEADER_SIZE + SLOT_SIZE * i;
    var n := Blit(m, at, m[at + SLOT_SIZE..HEADER_SIZE + SLOT_SIZE * count]);
    var want := Slots(m, count)[..i] + Slots(m, count)[i + 1..];
    forall j | 0 <= j < count - 1 ensures Slots(n, count - 1)[j] == want[j] {
      var a := HEADER_SIZE + SLOT_SIZE * j;
      if j < i {
        assert n[a] == m[a] && n[a + 1] == m[a + 1];
      } else {
        assert n[a] == m[a + 2] && n[a + 1] == m[a + 3];
        assert a + 2 == HEADER_SIZE + SLOT_SIZE * (j + 1);
      }
    }
  }
}
