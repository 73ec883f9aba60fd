/** The pool as one thread uses it: frames in an array, the map split over partitions, the sweep. */
module BufferPool {
  import opened PoolSteps

  const NOT_FOUND := 0xFFFF_FFFF
  const U32 := 0x1_0000_0000

  /** The page map, split by a hash of the page. */
  class BufferPartitions {
    const hash: PageId -> nat
    const maps: array<map<PageId, FrameId>>
    ghost var table: map<PageId, FrameId>     // the maps together

    constructor (n: nat, hash: PageId -> nat)
      requires n > 0
      ensures Valid() && table == map[] && fresh(maps)
    {
      this.hash := hash;
      maps := new map<PageId, FrameId>[n](i => map[]);
      table := map[];
    }

    ghost predicate Valid()
      reads this, maps
    {
      && maps.Length > 0
      && (forall p | p in table :: p in maps[Part(p)] && maps[Part(p)][p] == table[p])
      && (forall k, p | 0 <= k < maps.Length && p in maps[k] :: k == Part(p) && p in table)
    }

    function Part(p: PageId): (k: nat)
      requires maps.Length > 0
      ensures k < maps.Length
    {
      hash(p) % maps.Length
    }

    method Get(id: PageId, partIdx: nat) returns (frame: FrameId)
      requires Valid() && partIdx == Part(id)
      ensures frame == if id in table then table[id] else NOT_FOUND
    {
      if id in maps[partIdx] {
        return maps[partIdx][id];
      }
      return NOT_FOUND;
    }

    /** Enters the page if it is absent; tells the frame it has now. */
    method Put(id: PageId, frame: FrameId, partIdx: nat) returns (inserted: bool, newFrame: FrameId)
      requires Valid() && partIdx == Part(id)
      modifies this`table, maps
      ensures Valid() && inserted == (id !in old(table))
      ensures table == (if inserted then old(table)[id := frame] else old(table)) && newFrame == table[id]
    {
      inserted := id !in maps[partIdx];
      if inserted {
        maps[partIdx] := maps[partIdx][id := frame];
        table := table[id := frame];
      }
      newFrame := maps[partIdx][id];
    }

    /** Removes the entry only if it still names the frame. */
    method Delete(id: PageId, frame: FrameId, partIdx: nat)
      requires Valid() && partIdx == Part(id)
      modifies this`table, maps
      ensures Valid()
      ensures table == if id in old(table) && old(table)[id] == frame then old(table) - {id} else old(table)
    {
      if id in maps[partIdx] && maps[partIdx][id] == frame {
        maps[partIdx] := maps[partIdx] - {id};
        table := table - {id};
      }
    }
  }

  /** How many frames the sweep passes before the target, with the counter wrapping at 32 bits. */
  ghost function Distance(head: nat, target: nat, n: nat): nat
    requires 0 < n < U32 && target < n && head < U32
  {
    var at := head % n;
    var ahead := if at <= target then target - at else n - at + target;
    if head + ahead < U32 then ahead else U32 - head + target
  }

  lemma SweepMoves(head: nat, target: nat, n: nat)
    requires 0 < n < U32 && target < n && head < U32 && head % n != target
    ensures Distance((head + 1) % U32, target, n) < Distance(head, target, n)
  {
    NextMod(head, n);
    if head + 1 == U32 {
      NextMod(head, U32);
    } else {
      SmallMod(head + 1, U32);
    }
    SmallMod(0, n);
  }

  lemma NextOf(x: nat, n: nat)
    requires n > 0
    ensures (x % n + 1) % n == (x + 1) % n
  {
    NextMod(x, n);
    NextMod(x % n, n);
    SmallMod(x % n, n);
  }

  lemma SmallMod(x: nat, n: nat)
    requires x < n
    ensures x % n == x
  {
  }

  lemma NextMod(x: nat, n: nat)
    requires n > 0
    ensures (x + 1) % n == if x % n == n - 1 then 0 else x % n + 1
  {
    DivNext(x / n, x % n, (x + 1) / n, (x + 1) % n, n);
  }

  lemma DivNext(q: int, r: nat, p: int, r': nat, n: nat)
    requires r < n && r' < n && q * n + r + 1 == p * n + r'
    ensures r' == if r == n - 1 then 0 else r + 1
  {
    var k := p - q;
    assert k * n == r + 1 - r';
    Between(k, n);
  }

  lemma Between(k: int, n: nat)
    requires n > 0
    ensures k >= 2 ==> k * n >= 2 * n
    ensures k <= -1 ==> k * n <= -(n as int)
  {
  }

  /** The map and the frames agree: a frame holds a page just when the map sends the page to it. */
  ghost predicate Agree(frames: seq<Frame>, table: map<PageId, FrameId>) {
    && 0 !in table
    && (forall p | p in table :: table[p] < |frames| && frames[table[p]].id == p)
    && (forall f | 0 <= f < |frames| && frames[f].id != 0 :: frames[f].id in table && table[frames[f].id] == f)
  }

  lemma ReplaceAgrees(frames: seq<Frame>, table: map<PageId, FrameId>, f: FrameId, fr: Frame)
    requires Agree(frames, table) && f < |frames| && fr.id != 0 && fr.id !in table
    ensures Agree(frames[f := fr], (table - {frames[f].id})[fr.id := f])
  {
  }

  lemma AgreeFacts(frames: seq<Frame>, table: map<PageId, FrameId>, p: PageId)
    requires Agree(frames, table)
    ensures p in table ==> p != 0 && table[p] < |frames| && frames[table[p]].id == p
    ensures forall f | 0 <= f < |frames| && frames[f].id == p != 0 :: p in table && table[p] == f
  {
  }

  lemma PinAgrees(frames: seq<Frame>, table: map<PageId, FrameId>, f: FrameId, fr: Frame)
    requires Agree(frames, table) && f < |frames| && fr.id == frames[f].id
    ensures Agree(frames[f := fr], table)
  {
  }

  class BufferPool {
    const frames: array<Frame>
    const partitions: BufferPartitions
    var sweepHead: nat

    constructor (pages: nat, parts: nat, hash: PageId -> nat)
      requires parts > 0 && 0 < pages < U32
      ensures Valid() && partitions.table == map[]
      ensures forall f | 0 <= f < frames.Length :: frames[f] == Frame(0, 0, false, false)
    {
      frames := new Frame[pages](i => Frame(0, 0, false, false));
      partitions := new BufferPartitions(parts, hash);
      sweepHead := 0;
    }

    ghost predicate Valid()
      reads this, frames, partitions, partitions.maps
    {
      && partitions.Valid() && partitions.maps.Length > 0 && 0 < frames.Length < U32 && sweepHead < U32
      && Agree(frames[..], partitions.table)
    }

    ghost predicate SomeEvictable()
      reads frames
    {
      exists f :: 0 <= f < frames.Length && Evictable(frames[f])
    }

    /** The frame the sweep is at, k frames on from head. */
    ghost function SweepAt(head: nat, k: nat): FrameId
      requires frames.Length > 0
      ensures SweepAt(head, k) < frames.Length
    {
      (head + k) % U32 % frames.Length
    }

    lemma SweepIs(head: nat, k: nat)
      requires frames.Length > 0
      ensures SweepAt(head, k) == (head + k) % U32 % frames.Length
    {
    }

    /** Sweeps on to the next evictable frame and takes it for the page; passed: how many it found in use. */
    method GetVictim(id: PageId, isIO: bool) returns (f: FrameId, victim: PageId, ghost passed: nat)
      requires 0 < frames.Length < U32 && sweepHead < U32 && SomeEvictable()
      modifies frames, this`sweepHead
      ensures sweepHead < U32 && f < frames.Length && Evictable(old(frames[f])) && victim == old(frames[f].id)
      ensures frames[..] == old(frames[..])[f := Frame(id, 1, isIO, false)]
      ensures f == SweepAt(old(sweepHead), passed) && sweepHead == (old(sweepHead) + passed + 1) % U32
      ensures forall k | 0 <= k < passed :: !Evictable(old(frames[..])[SweepAt(old(sweepHead), k)])
    {
      hide Distance, SweepAt;
      passed := 0;
      ghost var start := sweepHead;
      assert sweepHead == (start + 0) % U32 by { SmallMod(sweepHead, U32); }
      ghost var target :| 0 <= target < frames.Length && Evictable(frames[target]);
      while true
        invariant sweepHead == (start + passed) % U32 && frames[..] == old(frames[..])
        invariant forall k | 0 <= k < passed :: !Evictable(old(frames[..])[SweepAt(start, k)])
        decreases Distance(sweepHead, target, frames.Length)
      {
        var head := sweepHead % frames.Length;
        assert head == SweepAt(start, passed) by { SweepIs(start, passed); }
        NextOf(start + passed, U32);
        if Evictable(frames[head]) {
          sweepHead := (sweepHead + 1) % U32;
          victim := frames[head].id;
          frames[head] := frames[head].(id := id, refs := frames[head].refs + 1, io := isIO || frames[head].io);
          return head, victim, passed;
        }
        SweepMoves(sweepHead, target, frames.Length);
        sweepHead := (sweepHead + 1) % U32;
        passed := passed + 1;
      }
    }

    /** Pins first, then looks. */
    method PageVisit(f: FrameId, id: PageId) returns (ok: bool)
      requires f < frames.Length
      modifies frames
      ensures ok == (old(frames[f].id) == id)
      ensures frames[..] ==
        if ok then old(frames[..])[f := old(frames[f]).(refs := old(frames[f].refs) + 1)] else old(frames[..])
    {
      frames[f] := frames[f].(refs := frames[f].refs + 1);
      if frames[f].id == id {
        return true;
      }
      frames[f] := frames[f].(refs := frames[f].refs - 1);
      ok := false;
    }

    /** The page is in the frame and pinned: where it was, or in a frame nobody used, read anew. */
    method Pin(id: PageId) returns (f: FrameId)
      requires Valid() && id != 0 && (id in partitions.table || SomeEvictable())
      modifies this`sweepHead, frames, partitions`table, partitions.maps
      ensures Valid() && f < frames.Length && frames[f].id == id
      ensures id in old(partitions.table) ==>
        && partitions.table == old(partitions.table) && f == old(partitions.table)[id]
        && frames[..] == old(frames[..])[f := old(frames[f]).(refs := old(frames[f].refs) + 1)]
      ensures id !in old(partitions.table) ==>
        && Evictable(old(frames[f])) && frames[..] == old(frames[..])[f := Frame(id, 1, true, false)]
        && partitions.table == (old(partitions.table) - {old(frames[f].id)})[id := f]
    {
      hide Agree, BufferPartitions.Valid, BufferPartitions.Part;
      ghost var was, had := frames[..], partitions.table;
      assert id in had ==> had[id] < |was| && was[had[id]].id == id by { AgreeFacts(was, had, id); }
      var partIdx := partitions.Part(id);
      var frameIdx := partitions.Get(id, partIdx);
      if frameIdx != NOT_FOUND {
        var ok := PageVisit(frameIdx, id);
        assert ok;
        PinAgrees(was, had, frameIdx, frames[frameIdx]);
        return frameIdx;
      }
      var victim;
      ghost var passed;
      f, victim, passed := GetVictim(id, true);
      var inserted, newFrame := partitions.Put(id, f, partIdx);
      assert inserted;
      partIdx := partitions.Part(victim);
      partitions.Delete(victim, f, partIdx);
      AgreeFacts(was, had, victim);
      assert partitions.table == (had - {victim})[id := f];
      ReplaceAgrees(was, had, f, frames[f]);
    }

    /** A frame for a page that is new; nothing is read. */
    method Reserve(id: PageId) returns (f: FrameId)
      requires Valid() && id != 0 && id !in partitions.table && SomeEvictable()
      modifies this`sweepHead, frames, partitions`table, partitions.maps
      ensures Valid() && f < frames.Length && Evictable(old(frames[f]))
      ensures frames[..] == old(frames[..])[f := Frame(id, 1, false, false)]
      ensures partitions.table == (old(partitions.table) - {old(frames[f].id)})[id := f]
    {
      hide Agree, BufferPartitions.Valid, BufferPartitions.Part;
      ghost var was, had := frames[..], partitions.table;
      var victim;
      ghost var passed;
      f, victim, passed := GetVictim(id, false);
      var inserted, newFrame := partitions.Put(id, f, partitions.Part(id));
      assert inserted;
      partitions.Delete(victim, f, partitions.Part(victim));
      AgreeFacts(was, had, victim);
      assert partitions.table == (had - {victim})[id := f];
      ReplaceAgrees(was, had, f, frames[f]);
    }

    method Unpin(f: FrameId)
      requires Valid() && f < frames.Length && frames[f].refs > 0
      modifies frames
      ensures Valid() && frames[..] == old(frames[..])[f := old(frames[f]).(refs := old(frames[f].refs) - 1)]
    {
      PinAgrees(frames[..], partitions.table, f, frames[f].(refs := frames[f].refs - 1));
      frames[f] := frames[f].(refs := frames[f].refs - 1);
    }
  }
}
