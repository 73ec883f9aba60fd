/** The undo buffer: records bumped into fixed blocks, and an iterator that finds each next record by the
    chunk size it reads behind the current one. */
module UndoBuffer {
  import opened ByteOrder
  import opened PageBytes

  const BLOCK := 4096
  const RECORD := 40        // the fixed part of a record
  const STAMP := 16         // where its timestamp lies
  const SIZE_WORD := 44     // where the size of its chunk would lie

  const UPDATE: u8 := 0     // the types
  const INSERT: u8 := 1
  const DELETE: u8 := 2

  /** beyond: the word read when a record without a chunk ends with the block. */
  datatype Segment = Segment(m: Bytes, size: nat, beyond: nat)

  function RoundUp(size: nat): (r: nat)
    ensures size <= r < size + 8 && r % 8 == 0
  {
    (size + 7) / 8 * 8
  }

  lemma Aligned(size: nat)
    requires size % 8 == 0
    ensures RoundUp(size) == size
  {
  }

  ghost function Sum(s: seq<nat>): nat {
    if s == [] then 0 else Sum(s[..|s| - 1]) + s[|s| - 1]
  }

  /** Where record k of the segment begins. */
  ghost function Start(strides: seq<nat>, k: nat): nat
    requires k <= |strides|
  {
    Sum(strides[..k])
  }

  /** The bytes were allotted in these portions, one after the other. */
  ghost predicate Allotted(seg: Segment, strides: seq<nat>) {
    && |seg.m| == BLOCK && seg.size == Sum(strides) <= BLOCK && strides != []
    && forall k | 0 <= k < |strides| :: strides[k] >= RECORD && strides[k] % 8 == 0
  }

  ghost predicate AllAllotted(buf: seq<Segment>, all: seq<seq<nat>>) {
    |buf| == |all| && forall g | 0 <= g < |buf| :: Allotted(buf[g], all[g])
  }

  // ---- iteration ----

  /** The chunk size the iterator reads at a record. */
  function SizeAt(seg: Segment, off: nat): nat {
    if off + SIZE_WORD + 4 <= |seg.m| then Get32(seg.m, off + SIZE_WORD) else seg.beyond
  }

  function NextOffset(seg: Segment, off: nat): nat {
    off + RECORD + SizeAt(seg, off)
  }

  /** From record (g, off) on, the iterator stands at just these records, and then at the end. */
  ghost predicate Visits(buf: seq<Segment>, g: nat, off: nat, places: seq<(nat, nat)>)
    decreases |places|
  {
    if places == [] then g == |buf| && off == 0
    else
      && g < |buf| && off + RECORD <= BLOCK && places[0] == (g, off)
      && if NextOffset(buf[g], off) == buf[g].size then Visits(buf, g + 1, 0, places[1..])
         else Visits(buf, g, NextOffset(buf[g], off), places[1..])
  }

  /** The records from record k of segment g on, in the order they were allotted. */
  ghost function Places(all: seq<seq<nat>>, g: nat, k: nat): (places: seq<(nat, nat)>)
    requires g <= |all| && (g < |all| ==> k <= |all[g]|)
    decreases |all| - g, if g < |all| then |all[g]| - k else 0
  {
    if g == |all| then []
    else if k == |all[g]| then Places(all, g + 1, 0)
    else [(g, Start(all[g], k))] + Places(all, g, k + 1)
  }

  /** Each record from there on is followed by a size that makes up its portion. */
  ghost predicate SizesRight(buf: seq<Segment>, all: seq<seq<nat>>, g: nat, k: nat)
    requires AllAllotted(buf, all) && g <= |all| && (g < |all| ==> k <= |all[g]|)
    decreases |all| - g, if g < |all| then |all[g]| - k else 0
  {
    if g == |all| then true
    else if k == |all[g]| then SizesRight(buf, all, g + 1, 0)
    else RECORD + SizeAt(buf[g], Start(all[g], k)) == all[g][k] && SizesRight(buf, all, g, k + 1)
  }

  lemma StartNext(strides: seq<nat>, k: nat)
    requires k < |strides|
    ensures Start(strides, k + 1) == Start(strides, k) + strides[k]
  {
    assert strides[..k + 1][..k] == strides[..k];
  }

  lemma {:induction false} StartGrows(strides: seq<nat>, j: nat, k: nat)
    requires j <= k <= |strides| && forall i | 0 <= i < |strides| :: strides[i] >= RECORD
    ensures Start(strides, j) + RECORD * (k - j) <= Start(strides, k)
    decreases k
  {
    if j < k {
      StartNext(strides, k - 1);
      StartGrows(strides, j, k - 1);
    }
  }

  lemma SumPush(s: seq<nat>, x: nat)
    ensures Sum(s + [x]) == Sum(s) + x && Start(s + [x], |s|) == Sum(s)
  {
    assert (s + [x])[..|s|] == s;
  }

  lemma WholeSum(strides: seq<nat>)
    ensures Start(strides, |strides|) == Sum(strides)
  {
    assert strides[..|strides|] == strides;
  }

  /** The iterator visits each record once, in order, and ends, if and only if every size it reads makes up
      the portion its record was given. */
  lemma {:induction false} VisitsExact(buf: seq<Segment>, all: seq<seq<nat>>, g: nat, k: nat)
    requires AllAllotted(buf, all) && g <= |all| && (if g < |all| then k < |all[g]| else k == 0)
    ensures Visits(buf, g, if g < |all| then Start(all[g], k) else 0, Places(all, g, k)) <==> SizesRight(buf, all, g, k)
    decreases |all| - g, if g < |all| then |all[g]| - k else 0
  {
    hide Visits, SizesRight, Places, Allotted;
    if g < |all| {
      if k + 1 < |all[g]| {
        VisitsExact(buf, all, g, k + 1);
        VisitsWithin(buf, all, g, k);
      } else {
        FirstRecord(buf, all, g + 1);
        VisitsExact(buf, all, g + 1, 0);
        VisitsAcross(buf, all, g, k);
      }
    } else {
      VisitsEnd(buf, all);
    }
  }

  lemma VisitsEnd(buf: seq<Segment>, all: seq<seq<nat>>)
    requires AllAllotted(buf, all)
    ensures Visits(buf, |all|, 0, Places(all, |all|, 0)) && SizesRight(buf, all, |all|, 0)
  {
  }

  lemma FirstRecord(buf: seq<Segment>, all: seq<seq<nat>>, g: nat)
    requires AllAllotted(buf, all) && g <= |all|
    ensures g < |all| ==> |all[g]| > 0 && Start(all[g], 0) == 0
  {
    assert g < |all| ==> Allotted(buf[g], all[g]);
  }

  lemma VisitsWithin(buf: seq<Segment>, all: seq<seq<nat>>, g: nat, k: nat)
    requires AllAllotted(buf, all) && g < |all| && k + 1 < |all[g]|
    requires Visits(buf, g, Start(all[g], k + 1), Places(all, g, k + 1)) <==> SizesRight(buf, all, g, k + 1)
    ensures Visits(buf, g, Start(all[g], k), Places(all, g, k)) <==> SizesRight(buf, all, g, k)
  {
    var strides := all[g];
    assert Allotted(buf[g], strides);
    StartNext(strides, k);
    StartGrows(strides, k + 1, |strides|);
    StartGrows(strides, k + 2, |strides|);
    StartNext(strides, k + 1);
    WholeSum(strides);
    var off, places, rest := Start(strides, k), Places(all, g, k), Places(all, g, k + 1);
    assert places == [(g, off)] + rest && places[1..] == rest;
    assert rest != [] && rest[0] == (g, Start(strides, k + 1));
    hide Visits, Places;
    var next := NextOffset(buf[g], off);
    assert next == buf[g].size ==> next != Start(strides, k + 1);
    VisitsOne(buf, g, off, places, rest);
    if next == buf[g].size {
      WrongPlace(buf, g + 1, 0, rest);
    } else if next != Start(strides, k + 1) {
      WrongPlace(buf, g, next, rest);
    }
  }

  lemma VisitsOne(buf: seq<Segment>, g: nat, off: nat, places: seq<(nat, nat)>, rest: seq<(nat, nat)>)
    requires g < |buf| && off + RECORD <= BLOCK && places == [(g, off)] + rest
    ensures Visits(buf, g, off, places) <==>
      if NextOffset(buf[g], off)
        == buf[g].size then Visits(buf, g + 1, 0, rest) else Visits(buf, g, NextOffset(buf[g], off), rest)
  {
    assert places[1..] == rest;
  }

  lemma VisitsAcross(buf: seq<Segment>, all: seq<seq<nat>>, g: nat, k: nat)
    requires AllAllotted(buf, all) && g < |all| && k + 1 == |all[g]|
    requires Visits(buf, g + 1, 0, Places(all, g + 1, 0)) <==> SizesRight(buf, all, g + 1, 0)
    ensures Visits(buf, g, Start(all[g], k), Places(all, g, k)) <==> SizesRight(buf, all, g, k)
  {
    var strides := all[g];
    assert Allotted(buf[g], strides);
    StartNext(strides, k);
    WholeSum(strides);
    NextSegment(buf, all, g);
    var off, places, rest := Start(strides, k), Places(all, g, k), Places(all, g + 1, 0);
    assert places == [(g, off)] + rest && places[1..] == rest;
    WrongPlace(buf, g, NextOffset(buf[g], off), rest);
  }

  /** An iterator that stands elsewhere than at the first place does not visit the places. */
  lemma WrongPlace(buf: seq<Segment>, g: nat, off: nat, places: seq<(nat, nat)>)
    requires if places == [] then g < |buf| else places[0] != (g, off)
    ensures !Visits(buf, g, off, places)
  {
  }

  /** Behind a segment's last record come the records of the next segment. */
  lemma NextSegment(buf: seq<Segment>, all: seq<seq<nat>>, g: nat)
    requires AllAllotted(buf, all) && g < |all|
    ensures Places(all, g, |all[g]|) == Places(all, g + 1, 0)
    ensures SizesRight(buf, all, g, |all[g]|) <==> SizesRight(buf, all, g + 1, 0)
    ensures g + 1 < |all| ==> Places(all, g + 1, 0) != [] && Places(all, g + 1, 0)[0].0 == g + 1
    ensures g + 1 == |all| ==> Places(all, g + 1, 0) == []
  {
    if g + 1 < |all| {
      assert Allotted(buf[g + 1], all[g + 1]);
    }
  }

  /** Every record is followed by a size that makes up its portion. */
  ghost predicate AllSizesRight(buf: seq<Segment>, all: seq<seq<nat>>)
    requires AllAllotted(buf, all)
  {
    forall g, k | 0 <= g < |all| && 0 <= k < |all[g]| :: RECORD + SizeAt(buf[g], Start(all[g], k)) == all[g][k]
  }

  lemma {:induction false} SizesFrom(buf: seq<Segment>, all: seq<seq<nat>>, g: nat, k: nat)
    requires AllAllotted(buf, all) && g <= |all| && (if g < |all| then k <= |all[g]| else k == 0)
    ensures SizesRight(buf, all, g, k) <==>
      forall h, j | g <= h < |all|
        && (if h == g then k else 0) <= j < |all[h]| :: RECORD + SizeAt(buf[h], Start(all[h], j)) == all[h][j]
    decreases |all| - g, if g < |all| then |all[g]| - k else 0
  {
    hide SizeAt, Start, Allotted;
    if g < |all| {
      if k < |all[g]| {
        SizesFrom(buf, all, g, k + 1);
      } else {
        SizesFrom(buf, all, g + 1, 0);
      }
    }
  }

  /** From begin to end: each record once, in the order of allocation, if and only if all sizes are right. */
  lemma IterationExact(buf: seq<Segment>, all: seq<seq<nat>>)
    requires AllAllotted(buf, all)
    ensures Visits(buf, 0, 0, Places(all, 0, 0)) <==> AllSizesRight(buf, all)
  {
    FirstRecord(buf, all, 0);
    VisitsExact(buf, all, 0, 0);
    SizesFrom(buf, all, 0, 0);
  }

  /** A transaction with one INSERT and anything but zeros behind its record: the iterator does not come to
      the end after it. */
  lemma InsertReadsOn(m: Bytes, beyond: nat)
    requires |m| == BLOCK && Get32(m, SIZE_WORD) != 0
    ensures var buf, all := [Segment(m, RECORD, beyond)], [[RECORD]];
      AllAllotted(buf, all) && Places(all, 0, 0) == [(0, 0)] && !Visits(buf, 0, 0, [(0, 0)])
  {
    hide Visits, Sum, Places, SizeAt, Get32;
    var seg, strides := Segment(m, RECORD, beyond), [RECORD];
    OneRecord(seg, strides);
    assert AllAllotted([seg], [strides]);
    IterationExact([seg], [strides]);
    assert !AllSizesRight([seg], [strides]) by {
      assert SizeAt(seg, 0) != 0 by { SizeInBlock(seg); }
      assert Start([strides][0], 0) == 0 && [strides][0][0] == RECORD;
    }
  }

  lemma SizeInBlock(seg: Segment)
    requires |seg.m| == BLOCK
    ensures SizeAt(seg, 0) == Get32(seg.m, SIZE_WORD)
  {
  }

  lemma OneRecord(seg: Segment, strides: seq<nat>)
    requires strides == [RECORD] && |seg.m| == BLOCK && seg.size == RECORD
    ensures Allotted(seg, strides) && Places([strides], 0, 0) == [(0, 0)] && Start(strides, 0) == 0
  {
    assert Sum([]) == 0;
    assert strides[..0] == [];
    assert Places([strides], 1, 0) == [];
    assert Places([strides], 0, 1) == [];
  }

  // ---- the buffer ----

  class FixedBumpArena {
    const data: array<u8>
    const beyond: nat
    var size: nat

    constructor (beyond: nat)
      ensures fresh(data) && data.Length == BLOCK && size == 0
    {
      data := new u8[BLOCK];
      this.beyond := beyond;
      size := 0;
    }

    predicate HasAvailableSpace(n: nat)
      reads this
    {
      size + RoundUp(n) <= BLOCK
    }

    method Allocate(n: nat) returns (off: nat)
      requires HasAvailableSpace(n)
      modifies this`size
      ensures off == old(size) && size == old(size) + RoundUp(n)
    {
      off := size;
      size := size + RoundUp(n);
    }

    method Put(o: nat, b: Bytes)
      requires o + |b| <= data.Length
      modifies data
      ensures data[..] == Blit(old(data[..]), o, b)
    {
      for i := 0 to |b|
        invariant forall k | 0 <= k < data.Length :: data[k] == if o <= k < o + i then b[k - o] else old(data[k])
      {
        data[o + i] := b[i];
      }
    }

    ghost function Value(): Segment
      reads this, data
    {
      Segment(data[..], size, beyond)
    }
  }

  ghost function Extended(all: seq<seq<nat>>, newSegment: bool, stride: nat): seq<seq<nat>>
    requires newSegment || all != []
  {
    if newSegment then all + [[stride]] else all[|all| - 1 := all[|all| - 1] + [stride]]
  }

  function Le64(v: nat): (b: Bytes)
    requires v < 0x1_0000_0000_0000_0000
    ensures |b| == 8
  {
    Le32(v % 0x1_0000_0000) + Le32(v / 0x1_0000_0000)
  }

  function Get64(m: Bytes, o: nat): (v: nat)
    requires o + 8 <= |m|
  {
    Get32(m, o) + 0x1_0000_0000 * Get32(m, o + 4)
  }

  /** Eight bytes are read as the number that was written. */
  lemma ReadBack(m: Bytes, o: nat, v: nat)
    requires v < 0x1_0000_0000_0000_0000 && o + 8 <= |m| && m[o..o + 8] == Le64(v)
    ensures Get64(m, o) == v
  {
    hide Le32, Get32;
    var lo, hi := v % 0x1_0000_0000, v / 0x1_0000_0000;
    assert m[o..o + 4] == m[o..o + 8][..4] == Le32(lo);
    assert m[o + 4..o + 8] == m[o..o + 8][4..] == Le32(hi);
    Read32(m, o, lo);
    Read32(m, o + 4, hi);
  }

  lemma Read32(m: Bytes, o: nat, v: nat)
    requires v < 0x1_0000_0000 && o + 4 <= |m| && m[o..o + 4] == Le32(v)
    ensures Get32(m, o) == v
  {
    assert m[o] == m[o..o + 4][0] && m[o + 1] == m[o..o + 4][1];
    assert m[o + 2] == m[o..o + 4][2] && m[o + 3] == m[o..o + 4][3];
  }

  /** A record of this type, with no next one yet, this timestamp and this row. */
  ghost predicate RecordAt(m: Bytes, off: nat, kind: u8, stamp: nat, ids: Bytes) {
    && |ids| == 12 && off + RECORD <= |m| && m[off] == kind && Get64(m, off + 8) == 0
    && Get64(m, off + STAMP) == stamp && m[off + STAMP + 8..off + STAMP + 20] == ids
  }

  /** Four writes, of the type, the next pointer, the timestamp and the row. */
  lemma FourWritten(m: Bytes, off: nat, kind: u8, stamp: nat, ids: Bytes, n: Bytes)
    requires off + RECORD <= |m| && stamp < 0x1_0000_0000_0000_0000 && |ids| == 12
    requires n == Blit(Blit(Blit(Blit(m, off, [kind]), off + 8, Le64(0)), off + STAMP, Le64(stamp)), off + STAMP + 8, ids)
    ensures RecordAt(n, off, kind, stamp, ids) && n[off + STAMP..off + STAMP + 8] == Le64(stamp)
  {
    hide Blit, Le64, Get64, RecordAt;
    assert n[off] == kind;
    assert n[off + 8..off + 8 + 8] == Le64(0);
    ReadBack(n, off + 8, 0);
    assert n[off + STAMP..off + STAMP + 8] == Le64(stamp);
    ReadBack(n, off + STAMP, stamp);
    assert n[off + STAMP + 8..off + STAMP + 20] == ids;
    assert RecordAt(n, off, kind, stamp, ids) by { RecordThere(n, off, kind, stamp, ids); }
  }

  lemma RecordThere(n: Bytes, off: nat, kind: u8, stamp: nat, ids: Bytes)
    requires |ids| == 12 && off + RECORD <= |n| && n[off] == kind && Get64(n, off + 8) == 0
    requires Get64(n, off + STAMP) == stamp && n[off + STAMP + 8..off + STAMP + 20] == ids
    ensures RecordAt(n, off, kind, stamp, ids)
  {
  }

  /** What is written behind a record leaves it. */
  lemma RecordKept(m: Bytes, n: Bytes, off: nat, kind: u8, stamp: nat, ids: Bytes)
    requires |m| == |n| && RecordAt(m, off, kind, stamp, ids) && n[..off + RECORD] == m[..off + RECORD]
    ensures RecordAt(n, off, kind, stamp, ids)
    ensures n[off + STAMP..off + STAMP + 8] == m[off + STAMP..off + STAMP + 8]
  {
    assert forall i | 0 <= i < off + RECORD :: n[i] == n[..off + RECORD][i] && m[i] == m[..off + RECORD][i];
    assert n[off + STAMP + 8..off + STAMP + 20] == m[off + STAMP + 8..off + STAMP + 20];
    assert n[off + STAMP..off + STAMP + 8] == m[off + STAMP..off + STAMP + 8];
  }

  /** What was in use is as it was: the older segments, and the last one up to its old size. */
  ghost predicate OlderKept(was: seq<Segment>, now: seq<Segment>) {
    && |was| <= |now|
    && forall g, i | 0 <= g < |was| && 0 <= i < was[g].size && i < |was[g].m| :: i < |now[g].m| && now[g].m[i] == was[g].m[i]
  }

  lemma NewAllotted(buf: seq<Segment>, all: seq<seq<nat>>, seg: Segment, n: nat)
    requires AllAllotted(buf, all) && RECORD <= n && RoundUp(n) <= BLOCK && |seg.m| == BLOCK && seg.size == RoundUp(n)
    ensures AllAllotted(buf + [seg], all + [[RoundUp(n)]]) && Start([RoundUp(n)], 0) == 0
  {
    SumPush([], RoundUp(n));
    assert [] + [RoundUp(n)] == [RoundUp(n)];
    assert Allotted(seg, [RoundUp(n)]);
  }

  lemma MoreAllotted(buf: seq<Segment>, all: seq<seq<nat>>, n: nat)
    requires AllAllotted(buf, all) && buf != [] && RECORD <= n && buf[|buf| - 1].size + RoundUp(n) <= BLOCK
    ensures var last := |buf| - 1;
      && AllAllotted(buf[last := buf[last].(size := buf[last].size + RoundUp(n))], all[last := all[last] + [RoundUp(n)]])
      && Start(all[last] + [RoundUp(n)], |all[last]|) == buf[last].size
  {
    var last := |buf| - 1;
    assert Allotted(buf[last], all[last]);
    SumPush(all[last], RoundUp(n));
    assert Allotted(buf[last].(size := buf[last].size + RoundUp(n)), all[last] + [RoundUp(n)]);
  }

  class UndoBuffer {
    var buffers: seq<FixedBumpArena>
    ghost var all: seq<seq<nat>>     // the portions given out, per segment

    constructor ()
      ensures Valid() && all == []
    {
      buffers, all := [], [];
    }

    ghost function Values(): (v: seq<Segment>)
      reads this, buffers, set b | b in buffers :: b.data
      ensures |v| == |buffers|
    {
      seq(|buffers|, g requires 0 <= g < |buffers| reads this, buffers, set b | b in buffers :: b.data => buffers[g].Value())
    }

    ghost predicate Valid()
      reads this, buffers, set b | b in buffers :: b.data
    {
      && AllAllotted(Values(), all)
      && (forall g, h | 0 <= g < h < |buffers| :: buffers[g] != buffers[h] && buffers[g].data != buffers[h].data)
    }

    /** Reserves room for a record, in a new segment if the last one is full. What the room holds is what was there. */
    method NewEntry(n: nat, beyond: nat) returns (off: nat, ghost newSegment: bool)
      requires Valid() && RECORD <= n && RoundUp(n) <= BLOCK
      modifies this, buffers
      ensures Valid() && buffers != [] && (newSegment || old(all) != []) && all == Extended(old(all), newSegment, RoundUp(n))
      ensures buffers[..|old(buffers)|] == old(buffers) && |buffers| == |old(buffers)| + if newSegment then 1 else 0
      ensures forall g | 0 <= g < |buffers| - 1 :: Values()[g] == old(Values())[g]
      ensures !newSegment ==> Values()[|buffers| - 1] == old(Values())[|buffers| - 1].(size := Values()[|buffers| - 1].size)
      ensures newSegment <==> old(buffers) == [] || old(Values()[|buffers| - 1].size) + RoundUp(n) > BLOCK
      ensures newSegment ==> fresh(buffers[|buffers| - 1]) && fresh(buffers[|buffers| - 1].data)
      ensures off == Start(all[|all| - 1], |all[|all| - 1]| - 1) && off + RoundUp(n) <= BLOCK
    {
      hide Allotted, Start, RoundUp;
      newSegment := buffers == [] || !buffers[|buffers| - 1].HasAvailableSpace(n);
      if buffers == [] || !buffers[|buffers| - 1].HasAvailableSpace(n) {
        off := FirstEntry(n, beyond);
      } else {
        off := NextEntry(n);
      }
    }

    method FirstEntry(n: nat, beyond: nat) returns (off: nat)
      requires Valid() && RECORD <= n && RoundUp(n) <= BLOCK
      modifies this
      ensures Valid() && all == Extended(old(all), true, RoundUp(n)) && |buffers| == |old(buffers)| + 1
      ensures buffers[..|old(buffers)|] == old(buffers)
      ensures forall g | 0 <= g < |buffers| - 1 :: Values()[g] == old(Values())[g]
      ensures fresh(buffers[|buffers| - 1]) && fresh(buffers[|buffers| - 1].data)
      ensures off == Start(all[|all| - 1], 0) == 0
    {
      hide Allotted, Sum, Start, RoundUp;
      ghost var was := Values();
      var segment := new FixedBumpArena(beyond);
      off := segment.Allocate(n);
      NewAllotted(was, all, segment.Value(), n);
      buffers := buffers + [segment];
      all := all + [[RoundUp(n)]];
      assert Values() == was + [segment.Value()];
    }

    method NextEntry(n: nat) returns (off: nat)
      requires Valid() && RECORD <= n && buffers != [] && buffers[|buffers| - 1].HasAvailableSpace(n)
      modifies this`all, buffers[|buffers| - 1]
      ensures Valid() && old(all) != [] && all == Extended(old(all), false, RoundUp(n)) && off + RoundUp(n) <= BLOCK
      ensures forall g | 0 <= g < |buffers| - 1 :: Values()[g] == old(Values())[g]
      ensures Values()[|buffers| - 1] == old(Values())[|buffers| - 1].(size := Values()[|buffers| - 1].size)
      ensures off == Start(all[|all| - 1], |all[|all| - 1]| - 1)
    {
      hide Allotted, Sum, Start, RoundUp;
      ghost var was, last := Values(), |buffers| - 1;
      MoreAllotted(was, all, n);
      off := buffers[|buffers| - 1].Allocate(n);
      all := all[last := all[last] + [RoundUp(n)]];
      assert Values() == was[last := was[last].(size := was[last].size + RoundUp(n))];
    }

    /** Type, next pointer, timestamp and row of a new record. The padding behind the type is not written. */
    method WriteRecord(off: nat, kind: u8, stamp: nat, ids: Bytes)
      requires Valid() && buffers != [] && off + RECORD <= BLOCK && stamp < 0x1_0000_0000_0000_0000 && |ids| == 12
      modifies buffers[|buffers| - 1].data
      ensures Valid() && Untouched(old(buffers[|buffers| - 1].data[..]), buffers[|buffers| - 1].data[..], off)
      ensures RecordAt(buffers[|buffers| - 1].data[..], off, kind, stamp, ids)
      ensures off + RECORD <= buffers[|buffers| - 1].data.Length
      ensures buffers[|buffers| - 1].data[off + STAMP..off + STAMP + 8] == Le64(stamp)
    {
      hide Allotted, RecordAt, Le64, Get64;
      var segment := buffers[|buffers| - 1];
      ghost var was := Values();
      LastSized();
      segment.Put(off, [kind]);
      segment.Put(off + 8, Le64(0));
      segment.Put(off + STAMP, Le64(stamp));
      segment.Put(off + STAMP + 8, ids);
      BytesAllotted(was, Values(), all);
      FourWritten(old(segment.data[..]), off, kind, stamp, ids, segment.data[..]);
      assert segment.data[..][off + STAMP..off + STAMP + 8] == segment.data[off + STAMP..off + STAMP + 8];
    }

    lemma LastSized()
      requires Valid() && buffers != []
      ensures buffers[|buffers| - 1].data.Length == BLOCK
    {
      assert Allotted(Values()[|buffers| - 1], all[|buffers| - 1]);
    }

    method WriteHeader(off: nat, header: Bytes)
      requires Valid() && buffers != [] && |header| >= 8 && off + RECORD + |header| <= BLOCK
      modifies buffers[|buffers| - 1].data
      ensures Valid() && Untouched(old(buffers[|buffers| - 1].data[..]), buffers[|buffers| - 1].data[..], off)
      ensures SizeAt(buffers[|buffers| - 1].Value(), off) == Get32(header, 4)
      ensures buffers[|buffers| - 1].data.Length == BLOCK
      ensures buffers[|buffers| - 1].data[..off + RECORD] == old(buffers[|buffers| - 1].data[..])[..off + RECORD]
      ensures buffers[|buffers| - 1].data[off + RECORD..off + RECORD + |header|] == header
    {
      hide Allotted, Get32;
      LastSized();
      ghost var mid := Values();
      buffers[|buffers| - 1].Put(off + RECORD, header);
      BytesAllotted(mid, Values(), all);
      SizeCopied(Values()[|buffers| - 1], off, header);
    }

    /** Room for a record, and its fixed part in it. */
    method NewRecord(n: nat, kind: u8, stamp: nat, ids: Bytes, beyond: nat) returns (off: nat, ghost newSegment: bool)
      requires Valid() && RECORD <= n && RoundUp(n) <= BLOCK && stamp < 0x1_0000_0000_0000_0000 && |ids| == 12
      modifies this, buffers, set b | b in buffers :: b.data
      ensures Valid() && buffers != [] && off + RoundUp(n) <= BLOCK
      ensures |buffers| == |old(buffers)| + if newSegment then 1 else 0
      ensures buffers[..|old(buffers)|] == old(buffers)
      ensures newSegment ==> fresh(buffers[|buffers| - 1]) && fresh(buffers[|buffers| - 1].data)
      ensures Adds(old(Values()), old(all), Values(), all, newSegment, RoundUp(n), off)
      ensures Recorded(old(Values()), old(all), Values(), all, n, off, kind, stamp, ids)
    {
      hide Allotted, Start, RoundUp, SizeAt, Extended, RecordAt, StampedAt, OlderKept, Le64, Recorded;
      ghost var was, had := Values(), all;
      off, newSegment := NewEntry(n, beyond);
      WriteRecord(off, kind, stamp, ids);
      NowRecorded(was, had, Values(), all, newSegment, n, off, kind, stamp, ids);
    }

    /** A record with the saved columns: the chunk's header, which tells its size, is copied behind it. */
    method UndoRecordForUpdate(stamp: nat, ids: Bytes, header: Bytes, beyond: nat) returns (off: nat)
      requires Valid() && stamp < 0x1_0000_0000_0000_0000 && |ids| == 12
      requires |header| >= 8 && Get32(header, 4) % 8 == 0 && |header| <= Get32(header, 4)
        && RECORD + Get32(header, 4) <= BLOCK
      modifies this, buffers, set b | b in buffers :: b.data
      ensures Valid() && AllSizesRight(Values(), all) == old(AllSizesRight(Values(), all))
      ensures Recorded(old(Values()), old(all), Values(), all, RECORD + Get32(header, 4), off, UPDATE, stamp, ids)
      ensures off + RECORD + |header| <= BLOCK == buffers[|buffers| - 1].data.Length
      ensures buffers[|buffers| - 1].data[off + RECORD..off + RECORD + |header|] == header
    {
      hide Allotted, AllSizesRight, Start, Get32, RoundUp, SizeAt, Extended, Recorded, Adds, Untouched;
      Aligned(RECORD + Get32(header, 4));
      var total := Get32(header, 4);
      ghost var was, had := Values(), all;
      ghost var newSegment;
      off, newSegment := NewRecord(RECORD + total, UPDATE, stamp, ids, beyond);
      ghost var mid := Values();
      WriteHeader(off, header);
      HeaderRecorded(was, had, mid, Values(), all, newSegment, RECORD + total, off, UPDATE, stamp, ids);
      RecordAdded(was, had, Values(), all, newSegment, RECORD + total, off);
    }

    /** A record without a chunk: what the iterator will read for its size is not set. */
    method UndoRecordForInsertOrDelete(kind: u8, stamp: nat, ids: Bytes, beyond: nat) returns (off: nat)
      requires Valid() && stamp < 0x1_0000_0000_0000_0000 && |ids| == 12 && (kind == INSERT || kind == DELETE)
      modifies this, buffers, set b | b in buffers :: b.data
      ensures Valid() && buffers != []
      ensures AllSizesRight(Values(), all) <==>
        old(AllSizesRight(Values(), all)) && SizeAt(buffers[|buffers| - 1].Value(), off) == 0
      ensures Recorded(old(Values()), old(all), Values(), all, RECORD, off, kind, stamp, ids)
    {
      hide Allotted, AllSizesRight, Start, Get32, Recorded, Adds, Untouched;
      ghost var was, had := Values(), all;
      ghost var newSegment;
      off, newSegment := NewRecord(RECORD, kind, stamp, ids, beyond);
      RecordAdded(was, had, Values(), all, newSegment, RECORD, off);
    }

    ghost predicate Unstamped(was: seq<Segment>)
      requires |was| == |buffers|
      reads this, buffers, set b | b in buffers :: b.data
    {
      |all| == |buffers| && forall h | 0 <= h < |buffers| ::
        OnlyStamps(was[h].m, Values()[h].m, all[h]) && Values()[h].size == was[h].size && Values()[h].beyond == was[h].beyond
    }

    method StampNext(ghost was: seq<Segment>, g: nat, ghost k: nat, off: nat, commit: nat)
      requires Valid() && AllAllotted(was, all) && AllSizesRight(was, all) && Unstamped(was)
      requires g < |all| && k < |all[g]| && off == Start(all[g], k) && commit < 0x1_0000_0000_0000_0000
      modifies buffers[g].data
      ensures Valid() && Unstamped(was) && StampedAt(Values()[g].m, all[g], k, Le64(commit))
      ensures forall h, j, b | 0 <= h < |all| && 0 <= j < |all[h]| && (h, j) != (g, k)
        && old(StampedAt(Values()[h].m, all[h], j, b)) ::
        StampedAt(Values()[h].m, all[h], j, b)
      ensures off + RECORD + SizeAt(Values()[g], off) == Start(all[g], k + 1) <= Values()[g].size <= BLOCK
        == buffers[g].data.Length
      ensures k + 1 < |all[g]| <==> Start(all[g], k + 1) < Values()[g].size
    {
      hide Allotted, Start, Le64, SizeAt, StampedAt, OnlyStamps, Sum;
      ghost var before := Values();
      RecordInside(before[g], all[g], k);
      buffers[g].Put(off + STAMP, Le64(commit));
      ghost var after := Values();
      StampOne(before[g], all[g], k, Le64(commit), after[g].m);
      StampsCompose(was[g].m, before[g].m, after[g].m, all[g]);
      BytesAllotted(before, after, all);
      SizesKept(was[g], after[g].m, all[g], k);
      assert RECORD + SizeAt(was[g], off) == all[g][k];
      assert after[g] == Segment(after[g].m, was[g].size, was[g].beyond);
      forall h, j, b | 0 <= h < |all| && 0 <= j < |all[h]| && (h, j) != (g, k) && StampedAt(before[h].m, all[h], j, b)
        ensures StampedAt(after[h].m, all[h], j, b)
      {
        assert h != g ==> after[h] == before[h];
      }
    }

    /** Commit's loop: the iterator goes over the records, and each gets the commit time. */
    method RestampVersions(commit: nat)
      requires Valid() && AllSizesRight(Values(), all) && commit < 0x1_0000_0000_0000_0000
      modifies set b | b in buffers :: b.data
      ensures Valid() && AllSizesRight(Values(), all)
      ensures forall g, k | 0 <= g < |all| && 0 <= k < |all[g]| :: StampedAt(Values()[g].m, all[g], k, Le64(commit))
      ensures forall g | 0 <= g < |all| :: OnlyStamps(old(Values())[g].m, Values()[g].m, all[g])
    {
      hide Allotted, Start, Le64, StampedAt, OnlyStamps, Get32, AllSizesRight;
      ghost var was, stamp := Values(), Le64(commit);
      var g: nat, off: nat := 0, 0;
      ghost var k: nat := 0;
      FirstRecord(was, all, 0);
      NothingStamped(was, all);
      while g != |buffers|
        invariant Valid() && g <= |all| && (g < |all| ==> k < |all[g]| && off == Start(all[g], k))
        invariant Unstamped(was)
        invariant forall h, j | 0 <= h < |all| && 0 <= j < |all[h]| && (h < g || (h == g && j < k)) ::
          StampedAt(Values()[h].m, all[h], j, stamp)
        decreases |all| - g, if g < |all| then |all[g]| - k else 0
      {
        StampNext(was, g, k, off, commit);
        var size := if off + SIZE_WORD + 4 <= BLOCK then Get32(buffers[g].data[..], off + SIZE_WORD) else buffers[g].beyond;
        off := off + RECORD + size;
        k := k + 1;
        if off == buffers[g].size {
          g, off, k := g + 1, 0, 0;
          FirstRecord(was, all, g);
        }
      }
      AllSizesKept(was, Values(), all);
    }
  }

  // ---- stamping ----

  /** The timestamp bytes of record k. */
  ghost predicate StampedAt(m: Bytes, strides: seq<nat>, k: nat, stamp: Bytes)
    requires k < |strides|
  {
    var o := Start(strides, k) + STAMP;
    o + 8 <= |m| && m[o..o + 8] == stamp
  }

  /** n is m with some timestamps overwritten. */
  ghost predicate OnlyStamps(m: Bytes, n: Bytes, strides: seq<nat>) {
    |m| == |n| && forall i | 0 <= i < |m| :: n[i] == m[i] || InStamp(strides, i)
  }

  ghost predicate InStamp(strides: seq<nat>, i: int) {
    exists k: nat :: k < |strides| && Start(strides, k) + STAMP <= i < Start(strides, k) + STAMP + 8
  }

  lemma NothingStamped(buf: seq<Segment>, all: seq<seq<nat>>)
    requires |buf| == |all|
    ensures forall g | 0 <= g < |all| :: OnlyStamps(buf[g].m, buf[g].m, all[g])
  {
  }

  lemma StampOne(seg: Segment, strides: seq<nat>, k: nat, stamp: Bytes, n: Bytes)
    requires Allotted(seg, strides) && k < |strides| && |stamp| == 8
    requires Start(strides, k) + RECORD <= BLOCK && n == Blit(seg.m, Start(strides, k) + STAMP, stamp)
    ensures StampedAt(n, strides, k, stamp) && OnlyStamps(seg.m, n, strides)
    ensures forall j: nat, b: Bytes | j < |strides| && j != k
      && StampedAt(seg.m, strides, j, b) :: StampedAt(n, strides, j, b)
    ensures SizeAt(Segment(n, seg.size, seg.beyond), Start(strides, k)) == SizeAt(seg, Start(strides, k))
  {
    var o := Start(strides, k) + STAMP;
    assert n[o..o + 8] == stamp;
    forall j: nat, b: Bytes | j < |strides| && j != k
      && StampedAt(seg.m, strides, j, b) ensures StampedAt(n, strides, j, b) {
      if j < k {
        StartGrows(strides, j, k);
      } else {
        StartGrows(strides, k, j);
      }
      var p := Start(strides, j) + STAMP;
      assert n[p..p + 8] == seg.m[p..p + 8];
    }
  }

  lemma RecordInside(seg: Segment, strides: seq<nat>, k: nat)
    requires Allotted(seg, strides) && k < |strides|
    ensures |seg.m| == BLOCK && Start(strides, k) + RECORD <= BLOCK
    ensures Start(strides, k) + strides[k] == Start(strides, k + 1) <= seg.size <= BLOCK
    ensures k + 1 < |strides| <==> Start(strides, k + 1) < seg.size
  {
    StartNext(strides, k);
    StartGrows(strides, k + 1, |strides|);
    WholeSum(strides);
  }

  lemma StampsCompose(a: Bytes, b: Bytes, c: Bytes, strides: seq<nat>)
    requires OnlyStamps(a, b, strides) && OnlyStamps(b, c, strides)
    ensures OnlyStamps(a, c, strides)
  {
  }

  /** Overwriting timestamps leaves the sizes as they are. */
  lemma SizesKept(seg: Segment, n: Bytes, strides: seq<nat>, k: nat)
    requires Allotted(seg, strides) && k < |strides| && OnlyStamps(seg.m, n, strides)
    ensures SizeAt(Segment(n, seg.size, seg.beyond), Start(strides, k)) == SizeAt(seg, Start(strides, k))
  {
    var w := Start(strides, k) + SIZE_WORD;
    forall i | w <= i < w + 4 ensures !InStamp(strides, i) {
      forall j: nat | j < |strides| ensures !(Start(strides, j) + STAMP <= i < Start(strides, j) + STAMP + 8) {
        if j <= k {
          StartGrows(strides, j, k);
        } else {
          StartGrows(strides, k, j);
        }
      }
    }
  }

  lemma AllSizesKept(buf: seq<Segment>, after: seq<Segment>, all: seq<seq<nat>>)
    requires AllAllotted(buf, all) && AllAllotted(after, all) && AllSizesRight(buf, all)
    requires forall g | 0 <= g < |all| ::
      OnlyStamps(buf[g].m, after[g].m, all[g]) && after[g].size == buf[g].size && after[g].beyond == buf[g].beyond
    ensures AllSizesRight(after, all)
  {
    hide SizeAt, Start, OnlyStamps;
    forall g, k | 0 <= g < |all| && 0 <= k < |all[g]| ensures RECORD + SizeAt(after[g], Start(all[g], k)) == all[g][k] {
      assert Allotted(buf[g], all[g]);
      SizesKept(buf[g], after[g].m, all[g], k);
      assert after[g] == Segment(after[g].m, buf[g].size, buf[g].beyond);
    }
  }

  /** Below the record at off nothing is written, nor in its padding. */
  ghost predicate Untouched(m: Bytes, n: Bytes, off: nat) {
    |m| == |n| == BLOCK && forall i | 0 <= i < BLOCK :: i < off || off < i < off + 8 ==> n[i] == m[i]
  }

  lemma BytesAllotted(buf: seq<Segment>, after: seq<Segment>, all: seq<seq<nat>>)
    requires AllAllotted(buf, all) && |after| == |buf|
    requires forall g | 0 <= g < |buf| :: |after[g].m| == |buf[g].m| && after[g].size == buf[g].size
    ensures AllAllotted(after, all)
  {
    forall g | 0 <= g < |buf| ensures Allotted(after[g], all[g]) {
      assert Allotted(buf[g], all[g]);
    }
  }

  lemma SizeCopied(seg: Segment, off: nat, header: Bytes)
    requires |header| >= 8 && off + RECORD + |header| <= |seg.m|
    requires forall i | 0 <= i < |header| :: seg.m[off + RECORD + i] == header[i]
    ensures SizeAt(seg, off) == Get32(header, 4)
  {
    assert seg.m[off + RECORD + 4] == header[4] && seg.m[off + RECORD + 5] == header[5];
    assert seg.m[off + RECORD + 6] == header[6] && seg.m[off + RECORD + 7] == header[7];
  }

  /** A record is added to the last segment, or to a new one. */
  ghost predicate Adds(buf: seq<Segment>, all: seq<seq<nat>>, after: seq<Segment>, more: seq<seq<nat>>, newSegment: bool,
      stride: nat, off: nat) {
    && AllAllotted(buf, all) && (newSegment || all != []) && more == Extended(all, newSegment, stride)
    && AllAllotted(after, more) && off == Start(more[|more| - 1], |more[|more| - 1]| - 1)
    && (forall g | 0 <= g < |more| - 1 :: after[g] == buf[g])
    && (!newSegment ==> after[|more| - 1].beyond == buf[|more| - 1].beyond)
    && (!newSegment ==> Untouched(buf[|more| - 1].m, after[|more| - 1].m, off))
  }

  lemma BehindOld(strides: seq<nat>, k: nat)
    requires k + 1 < |strides| && forall j | 0 <= j < |strides| :: strides[j] >= RECORD && strides[j] % 8 == 0
    ensures var off, next := Start(strides, |strides| - 1), Start(strides, k) + strides[k];
      off == next || off >= next + RECORD
  {
    hide Start;
    StartNext(strides, k);
    if k + 1 < |strides| - 1 {
      StartGrows(strides, k + 1, |strides| - 1);
    }
  }

  /** The sizes read at the older records do not change: the one read right behind the last of them lies in
      the padding of the new record. */
  lemma OldRecord(buf: seq<Segment>, all: seq<seq<nat>>, after: seq<Segment>, more: seq<seq<nat>>, newSegment: bool,
      stride: nat, off: nat, g: nat, k: nat)
    requires Adds(buf, all, after, more, newSegment, stride, off) && g < |all| && k < |all[g]|
    ensures k < |more[g]| && more[g][k] == all[g][k]
    ensures SizeAt(after[g], Start(more[g], k)) == SizeAt(buf[g], Start(all[g], k))
  {
    hide SizeAt, Untouched, Start;
    var last := |more| - 1;
    SameStart(all[g], more[g], k);
    if g == last {
      assert Allotted(after[last], more[last]);
      BehindOld(more[last], k);
      OldSize(buf[last], after[last], Start(all[last], k), more[last][k], off);
    }
  }

  lemma SameStart(a: seq<nat>, b: seq<nat>, k: nat)
    requires k < |a| <= |b| && a == b[..|a|]
    ensures b[k] == a[k] && Start(b, k) == Start(a, k)
  {
    assert b[..k] == a[..k];
  }

  lemma RecordAdded(buf: seq<Segment>, all: seq<seq<nat>>, after: seq<Segment>, more: seq<seq<nat>>, newSegment: bool,
      stride: nat, off: nat)
    requires Adds(buf, all, after, more, newSegment, stride, off)
    ensures AllSizesRight(after, more) <==> AllSizesRight(buf, all) && RECORD + SizeAt(after[|more| - 1], off) == stride
  {
    hide SizeAt, Start, Untouched, Allotted;
    var last := |more| - 1;
    var n := |more[last]| - 1;
    assert more[last][n] == stride && (newSegment ==> n == 0) && (!newSegment ==> n == |all[last]|);
    forall g, k | 0 <= g < |all| && 0 <= k < |all[g]|
      ensures k < |more[g]| && more[g][k] == all[g][k]
      ensures SizeAt(after[g], Start(more[g], k)) == SizeAt(buf[g], Start(all[g], k))
    {
      OldRecord(buf, all, after, more, newSegment, stride, off, g, k);
    }
    if AllSizesRight(buf, all) && RECORD + SizeAt(after[last], off) == stride {
      forall g, k | 0 <= g < |more| && 0 <= k < |more[g]|
        ensures RECORD + SizeAt(after[g], Start(more[g], k)) == more[g][k]
      {
        if !(g == last && k == n) {
          assert g < |all| && k < |all[g]|;
        }
      }
    }
  }

  /** What lies below the new record is what was in use. */
  lemma KeptBelow(buf: seq<Segment>, all: seq<seq<nat>>, after: seq<Segment>, more: seq<seq<nat>>, newSegment: bool,
      stride: nat, off: nat)
    requires Adds(buf, all, after, more, newSegment, stride, off)
    ensures OlderKept(buf, after) && |more| == |after| && more != [] && more[|more| - 1] != []
    ensures |after| == |buf| || |after| == |buf| + 1
    ensures newSegment <==> |after| > |buf|
  {
    hide Start;
    if !newSegment {
      var last := |buf| - 1;
      assert Allotted(buf[last], all[last]);
      SumPush(all[last], stride);
      assert off == buf[last].size;
    }
  }

  /** Writing the header adds nothing below the record. */
  lemma HeaderAdds(buf: seq<Segment>, all: seq<seq<nat>>, mid: seq<Segment>, after: seq<Segment>, more: seq<seq<nat>>,
      newSegment: bool, stride: nat, off: nat)
    requires Adds(buf, all, mid, more, newSegment, stride, off) && AllAllotted(after, more)
    requires forall g | 0 <= g < |more| - 1 :: after[g] == mid[g]
    requires more != [] && after[|more| - 1].beyond == mid[|more| - 1].beyond
    requires Untouched(mid[|more| - 1].m, after[|more| - 1].m, off)
    ensures Adds(buf, all, after, more, newSegment, stride, off)
  {
    hide Start, Allotted, Extended;
  }

  lemma StampThere(m: Bytes, strides: seq<nat>, off: nat, stamp: nat)
    requires strides != [] && off == Start(strides, |strides| - 1) && stamp < 0x1_0000_0000_0000_0000
    requires off + RECORD <= |m| && m[off + STAMP..off + STAMP + 8] == Le64(stamp)
    ensures StampedAt(m, strides, |strides| - 1, Le64(stamp))
  {
    hide Start, Le64;
  }

  /** The last record given out, at off of the last segment, is the given one; what was in use before is as it was. */
  ghost predicate Recorded(was: seq<Segment>, had: seq<seq<nat>>, now: seq<Segment>, all: seq<seq<nat>>, n: nat, off: nat,
      kind: u8, stamp: nat, ids: Bytes)
  {
    && stamp < 0x1_0000_0000_0000_0000 && now != [] && |all| == |now| && all[|all| - 1] != []
    && (|now| == |was| || |now| == |was| + 1) && (|now| > |was| || had != [])
    && all == Extended(had, |now| > |was|, RoundUp(n))
    && off == Start(all[|all| - 1], |all[|all| - 1]| - 1)
    && RecordAt(now[|now| - 1].m, off, kind, stamp, ids)
    && StampedAt(now[|now| - 1].m, all[|all| - 1], |all[|all| - 1]| - 1, Le64(stamp))
    && OlderKept(was, now)
  }

  lemma NowRecorded(was: seq<Segment>, had: seq<seq<nat>>, now: seq<Segment>, all: seq<seq<nat>>, newSegment: bool, n: nat,
      off: nat, kind: u8, stamp: nat, ids: Bytes)
    requires Adds(was, had, now, all, newSegment, RoundUp(n), off) && now != [] && stamp < 0x1_0000_0000_0000_0000
    requires RecordAt(now[|now| - 1].m, off, kind, stamp, ids)
    requires off + RECORD <= |now[|now| - 1].m| && now[|now| - 1].m[off + STAMP..off + STAMP + 8] == Le64(stamp)
    ensures Recorded(was, had, now, all, n, off, kind, stamp, ids)
  {
    hide Start, RoundUp, RecordAt, StampedAt, OlderKept, Le64, Extended, Untouched;
    KeptBelow(was, had, now, all, newSegment, RoundUp(n), off);
    StampThere(now[|now| - 1].m, all[|all| - 1], off, stamp);
  }

  /** Writing the header leaves all that. */
  lemma HeaderRecorded(was: seq<Segment>, had: seq<seq<nat>>, mid: seq<Segment>, now: seq<Segment>, all: seq<seq<nat>>,
      newSegment: bool, n: nat, off: nat, kind: u8, stamp: nat, ids: Bytes)
    requires Adds(was, had, mid, all, newSegment, RoundUp(n), off) && Recorded(was, had, mid, all, n, off, kind, stamp, ids)
    requires AllAllotted(now, all) && all != [] && (forall g | 0 <= g < |all| - 1 :: now[g] == mid[g])
    requires now[|all| - 1].beyond == mid[|all| - 1].beyond && off + RECORD <= BLOCK
    requires Untouched(mid[|all| - 1].m, now[|all| - 1].m, off)
    requires now[|all| - 1].m[..off + RECORD] == mid[|all| - 1].m[..off + RECORD]
    ensures Adds(was, had, now, all, newSegment, RoundUp(n), off) && Recorded(was, had, now, all, n, off, kind, stamp, ids)
  {
    hide Start, RoundUp, RecordAt, StampedAt, OlderKept, Le64, Extended, Untouched, Allotted;
    HeaderAdds(was, had, mid, now, all, newSegment, RoundUp(n), off);
    assert |mid[|all| - 1].m| == |now[|all| - 1].m| == BLOCK by { SameLength(mid[|all| - 1].m, now[|all| - 1].m, off); }
    RecordKept(mid[|all| - 1].m, now[|all| - 1].m, off, kind, stamp, ids);
    assert mid[|all| - 1].m[off + STAMP..off + STAMP + 8] == Le64(stamp) by {
      StampIs(mid[|all| - 1].m, all[|all| - 1], off, stamp);
    }
    NowRecorded(was, had, now, all, newSegment, n, off, kind, stamp, ids);
  }

  lemma SameLength(m: Bytes, n: Bytes, off: nat)
    requires Untouched(m, n, off)
    ensures |m| == |n| == BLOCK
  {
  }

  lemma StampIs(m: Bytes, strides: seq<nat>, off: nat, stamp: nat)
    requires strides != [] && off == Start(strides, |strides| - 1) && stamp < 0x1_0000_0000_0000_0000
    requires StampedAt(m, strides, |strides| - 1, Le64(stamp)) && off + RECORD <= |m|
    ensures m[off + STAMP..off + STAMP + 8] == Le64(stamp)
  {
    hide Start, Le64;
  }

  lemma OldSize(seg: Segment, after: Segment, start: nat, stride: nat, off: nat)
    requires Untouched(seg.m, after.m, off) && seg.beyond == after.beyond && stride >= RECORD && stride % 8 == 0
    requires off == start + stride || off >= start + stride + RECORD
    ensures SizeAt(after, start) == SizeAt(seg, start)
  {
    var w := start + SIZE_WORD;
    assert w + 4 <= off || (w > off && w + 4 <= off + 8);
    if w + 4 <= BLOCK {
      assert after.m[w] == seg.m[w] && after.m[w + 1] == seg.m[w + 1];
      assert after.m[w + 2] == seg.m[w + 2] && after.m[w + 3] == seg.m[w + 3];
    }
  }
}
