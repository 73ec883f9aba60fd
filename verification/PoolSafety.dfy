/** Every step of the pool keeps the invariant. */
module PoolSafety {
  import opened Counting
  import opened PoolSteps

  // ---- counting pins ----

  /** Thread i is all that changed among the threads. */
  ghost predicate ThreadStep(s: State, u: State, i: nat) {
    && i in s.threads && u.threads.Keys == s.threads.Keys && |u.frames| == |s.frames|
    && forall j | j in s.threads && j != i :: u.threads[j] == s.threads[j]
  }

  lemma PinnersOf(s: State, u: State, i: nat, f: FrameId)
    requires ThreadStep(s, u, i)
    ensures |Pinners(u, f)| - |Pinners(s, f)| ==
            (if Pins(u.threads[i], f) then 1 else 0) - (if Pins(s.threads[i], f) then 1 else 0)
  {
    SizeWithout(Pinners(s, f), Pinners(u, f), i);
  }

  lemma RefsKept(s: State, u: State, i: nat)
    requires ThreadStep(s, u, i) && RefsOk(s)
    requires forall f | 0 <= f < |s.frames| :: u.frames[f].refs - s.frames[f].refs ==
               (if Pins(u.threads[i], f) then 1 else 0) - (if Pins(s.threads[i], f) then 1 else 0)
    ensures RefsOk(u)
  {
    forall f | 0 <= f < |u.frames| ensures u.frames[f].refs == |Pinners(u, f)| {
      PinnersOf(s, u, i, f);
    }
  }

  /** No pins: nobody is at the frame. */
  lemma NobodyPins(s: State, f: FrameId, j: nat)
    requires RefsOk(s) && f < |s.frames| && s.frames[f].refs == 0 && j in s.threads
    ensures !Pins(s.threads[j], f)
  {
    assert Pinners(s, f) == {};
    assert j !in Pinners(s, f);
  }

  // ---- steps that claim nothing and give no claim back ----

  ghost predicate NoClaim(th: Thread) {
    !th.Put? && !th.Undo? && !th.Stale?
  }

  /** Who claims what stays the same, and with it the map, the ids and the rest of the invariant. */
  lemma QuietStep(s: State, u: State, i: nat)
    requires Inv(s) && ThreadStep(s, u, i) && RefsOk(u) && u.table == s.table
    requires forall f | 0 <= f < |s.frames| :: u.frames[f].id == s.frames[f].id
    requires NoClaim(s.threads[i]) && NoClaim(u.threads[i]) && ThreadOk(u, u.threads[i]) && LatchesUnique(u)
    ensures Inv(u)
  {
    hide RefsOk, LatchesUnique;
    SameClaims(s, u, i);
    forall j | j in u.threads ensures ThreadOk(u, u.threads[j]) {
      assert ThreadOk(s, s.threads[j]);
    }
    forall p ensures EntryOk(u, p) {
      assert EntryOk(s, p);
    }
    forall f | 0 <= f < |u.frames| ensures FrameOk(u, f) {
      assert FrameOk(s, f);
    }
  }

  lemma SameClaims(s: State, u: State, i: nat)
    requires ThreadStep(s, u, i) && NoClaim(s.threads[i]) && NoClaim(u.threads[i])
    ensures forall f :: Claimed(u, f) <==> Claimed(s, f)
  {
    forall f ensures Claimed(u, f) <==> Claimed(s, f) {
      if j :| j in s.threads && Claims(s.threads[j], f) {
        assert Claims(u.threads[j], f);
      }
      if j :| j in u.threads && Claims(u.threads[j], f) {
        assert Claims(s.threads[j], f);
      }
    }
  }

  lemma PinStep(c: Config, s: State, i: nat, arg: nat)
    requires Inv(s) && Enabled(c, s, Move(i, arg)) && NoClaim(s.threads[i])
    requires !s.threads[i].FindVictim? && !s.threads[i].Taking?
    ensures Inv(Do(c, s, Move(i, arg)))
  {
    hide RefsOk, FrameOk, ClaimsUnique;
    var u, th := Do(c, s, Move(i, arg)), s.threads[i];
    assert ThreadOk(s, th);
    assert th.Lookup? ==> EntryOk(s, th.w);
    RefsKept(s, u, i);
    SameClaims(s, u, i);
    assert ThreadOk(u, u.threads[i]);
    QuietStep(s, u, i);
  }

  /** Thread i finds frame f evictable and keeps its latch. */
  lemma LatchStep(s: State, i: nat, w: PageId, f: FrameId)
    requires Inv(s) && i in s.threads && s.threads[i] == FindVictim(w)
    requires f < |s.frames| && Evictable(s.frames[f]) && !Latched(s, f)
    ensures Inv(Go(s, i, Taking(w, f)))
  {
    hide FrameOk, ClaimsUnique;
    var u := Go(s, i, Taking(w, f));
    assert ThreadOk(s, s.threads[i]);
    Unclaimed(s, f);
    RefsKept(s, u, i);
    SameClaims(s, u, i);
    QuietStep(s, u, i);
  }

  lemma Unclaimed(s: State, f: FrameId)
    requires RefsOk(s) && f < |s.frames| && s.frames[f].refs == 0
    ensures !Claimed(s, f)
  {
    forall j | j in s.threads ensures !Pins(s.threads[j], f) {
      NobodyPins(s, f, j);
    }
  }

  /** Thread i takes a frame that nobody claims and nobody else latches for page w. Others may have pinned it
      since it was tested. */
  lemma TakeStep(s: State, i: nat, w: PageId, f: FrameId)
    requires Inv(s) && i in s.threads && w != 0 && f < |s.frames| && !Claimed(s, f)
    requires s.threads[i] == FindVictim(w) || s.threads[i] == Taking(w, f)
    requires forall j | j in s.threads && j != i :: !Latches(s.threads[j], f)
    ensures Inv(Take(s, i, w, f))
  {
    hide ThreadOk, EntryOk, FrameOk;
    var u := Take(s, i, w, f);
    RefsKept(s, u, i);
    forall j | j in s.threads ensures !Claims(s.threads[j], f) {
    }
    assert Claims(u.threads[i], f);
    forall g | g != f ensures Claimed(u, g) <==> Claimed(s, g) {
      ClaimsElsewhere(s, u, i, g);
    }
    TakenFacts(s, u, i, w, f);
  }

  lemma TakenFacts(s: State, u: State, i: nat, w: PageId, f: FrameId)
    requires Inv(s) && i in s.threads && w != 0 && f < |s.frames| && !Claimed(s, f) && u == Take(s, i, w, f)
    requires forall j | j in s.threads && j != i :: !Latches(s.threads[j], f)
    requires (forall g | g != f :: Claimed(u, g) <==> Claimed(s, g)) && Claimed(u, f)
    requires s.threads[i] == FindVictim(w) || s.threads[i] == Taking(w, f)
    ensures forall j | j in u.threads :: ThreadOk(u, u.threads[j])
    ensures forall p :: EntryOk(u, p)
    ensures forall g | 0 <= g < |u.frames| :: FrameOk(u, g)
  {
    hide ClaimsUnique, LatchesUnique, RefsOk;
    assert FrameOk(s, f);
    forall j | j in u.threads ensures ThreadOk(u, u.threads[j]) {
      assert ThreadOk(s, s.threads[j]);
    }
    forall p ensures EntryOk(u, p) {
      assert EntryOk(s, p);
    }
    forall g | 0 <= g < |u.frames| ensures FrameOk(u, g) {
      assert FrameOk(s, g);
    }
  }

  /** On a frame thread i has nothing to do with before or after, the claims are the same. */
  lemma ClaimsElsewhere(s: State, u: State, i: nat, g: FrameId)
    requires ThreadStep(s, u, i)
    requires Claims(u.threads[i], g) <==> Claims(s.threads[i], g)
    ensures Claimed(u, g) <==> Claimed(s, g)
  {
    if j :| j in s.threads && Claims(s.threads[j], g) {
      assert Claims(u.threads[j], g);
    }
    if j :| j in u.threads && Claims(u.threads[j], g) {
      assert Claims(s.threads[j], g);
    }
  }

  /** A claim is its frame's only one. */
  lemma OnlyClaim(s: State, i: nat, j: nat)
    requires ClaimsUnique(s) && i in s.threads && j in s.threads && i != j
    requires s.threads[i].Put? || s.threads[i].Undo? || s.threads[i].Stale?
    ensures !Claims(s.threads[j], s.threads[i].f)
  {
  }

  lemma PutRefused(c: Config, s: State, i: nat, arg: nat)
    requires Inv(s) && Enabled(c, s, Move(i, arg)) && s.threads[i].Put? && s.threads[i].w in s.table
    ensures Inv(Do(c, s, Move(i, arg)))
  {
    var u, th := Do(c, s, Move(i, arg)), s.threads[i];
    assert ThreadOk(s, th) && EntryOk(s, th.w);
    RefsKept(s, u, i);
    forall g ensures Claimed(u, g) <==> Claimed(s, g) {
      ClaimsElsewhere(s, u, i, g);
    }
    hide Claimed, RefsOk;
    forall j | j in u.threads ensures ThreadOk(u, u.threads[j]) {
      assert ThreadOk(s, s.threads[j]);
    }
    forall p ensures EntryOk(u, p) {
      assert EntryOk(s, p);
    }
    forall g | 0 <= g < |u.frames| ensures FrameOk(u, g) {
      assert FrameOk(s, g);
    }
  }

  lemma PutDone(c: Config, s: State, i: nat, arg: nat)
    requires Inv(s) && Enabled(c, s, Move(i, arg)) && s.threads[i].Put? && s.threads[i].w !in s.table
    ensures Inv(Do(c, s, Move(i, arg)))
  {
    hide RefsOk;
    var u, th := Do(c, s, Move(i, arg)), s.threads[i];
    assert ThreadOk(s, th);
    RefsKept(s, u, i);
    assert Claims(th, th.f) && Claims(u.threads[i], th.f) && Claimed(u, th.f) && Claimed(s, th.f);
    forall g | g != th.f ensures Claimed(u, g) <==> Claimed(s, g) {
      ClaimsElsewhere(s, u, i, g);
    }
    OthersAfterPut(s, u, i);
    forall p ensures EntryOk(u, p) {
      assert EntryOk(s, p);
      if p == th.w {
        forall j | j in s.threads && j != i ensures !Claims(s.threads[j], th.f) {
          OnlyClaim(s, i, j);
        }
      }
    }
    forall g | 0 <= g < |u.frames| ensures FrameOk(u, g) {
      assert FrameOk(s, g);
    }
  }

  lemma OthersAfterPut(s: State, u: State, i: nat)
    requires ThreadsOk(s) && ThreadStep(s, u, i) && s.threads[i].Put? && s.threads[i].w !in s.table
    requires u.table == s.table[s.threads[i].w := s.threads[i].f] && u.frames == s.frames
    requires u.threads[i] == Stale(s.threads[i].w, s.threads[i].f, s.threads[i].prev)
    requires forall g :: Claimed(u, g) <==> Claimed(s, g)
    ensures ThreadsOk(u)
  {
    hide Claimed;
    forall j | j in u.threads ensures ThreadOk(u, u.threads[j]) {
      assert ThreadOk(s, s.threads[j]) && ThreadOk(s, s.threads[i]);
    }
  }

  lemma EndClaim(s: State, u: State, i: nat)
    requires ClaimsUnique(s) && ThreadStep(s, u, i) && !NoClaim(s.threads[i]) && NoClaim(u.threads[i])
    ensures !Claimed(u, s.threads[i].f) && ClaimsUnique(u)
    ensures forall g | g != s.threads[i].f :: Claimed(u, g) <==> Claimed(s, g)
  {
    forall j | j in s.threads && j != i ensures !Claims(s.threads[j], s.threads[i].f) {
      OnlyClaim(s, i, j);
    }
    forall g | g != s.threads[i].f ensures Claimed(u, g) <==> Claimed(s, g) {
      ClaimsElsewhere(s, u, i, g);
    }
  }

  /** When thread i's claim ends, what is known of the other threads stays. */
  lemma OthersAfterClaim(s: State, u: State, i: nat)
    requires ThreadsOk(s) && ClaimsUnique(s) && LatchesUnique(s) && ThreadStep(s, u, i)
    requires !NoClaim(s.threads[i]) && NoClaim(u.threads[i]) && !u.threads[i].Taking? && ThreadOk(u, u.threads[i])
    requires forall g | 0 <= g < |s.frames| && g != s.threads[i].f :: u.frames[g] == s.frames[g]
    requires forall p | p in s.table && s.table[p] != s.threads[i].f :: p in u.table && u.table[p] == s.table[p]
    requires forall g :: Claimed(u, g) ==> Claimed(s, g)
    ensures ThreadsOk(u) && LatchesUnique(u)
  {
    hide Claimed;
    forall j | j in u.threads ensures ThreadOk(u, u.threads[j]) {
      assert ThreadOk(s, s.threads[j]);
      if j != i {
        OnlyClaim(s, i, j);
      }
    }
  }

  lemma StaleStep(c: Config, s: State, i: nat, arg: nat)
    requires Inv(s) && Enabled(c, s, Move(i, arg)) && s.threads[i].Stale?
    ensures Inv(Do(c, s, Move(i, arg)))
  {
    hide Claimed, ThreadsOk, LatchesUnique;
    var u, th := Do(c, s, Move(i, arg)), s.threads[i];
    assert ThreadOk(s, th) by { ThreadOf(s, i); }
    assert EntryOk(s, th.w) && EntryOk(s, th.prev);
    RefsKept(s, u, i);
    EndClaim(s, u, i);
    assert Claims(th, th.f);
    OthersAfterClaim(s, u, i);
    hide RefsOk, ClaimsUnique;
    forall p ensures EntryOk(u, p) {
      assert EntryOk(s, p);
    }
    forall g | 0 <= g < |u.frames| ensures FrameOk(u, g) {
      assert FrameOk(s, g);
    }
  }

  lemma ThreadOf(s: State, i: nat)
    requires ThreadsOk(s) && i in s.threads
    ensures ThreadOk(s, s.threads[i])
  {
  }

  lemma UndoStep(c: Config, s: State, i: nat, arg: nat)
    requires Inv(s) && Enabled(c, s, Move(i, arg)) && s.threads[i].Undo?
    ensures Inv(Do(c, s, Move(i, arg)))
  {
    hide Claimed, ThreadsOk, LatchesUnique;
    var u, th := Do(c, s, Move(i, arg)), s.threads[i];
    assert ThreadOk(s, th) by { ThreadOf(s, i); }
    assert EntryOk(s, th.prev);
    RefsKept(s, u, i);
    assert Claims(th, th.f);
    EndClaim(s, u, i);
    assert ThreadOk(u, u.threads[i]);
    OthersAfterClaim(s, u, i);
    hide RefsOk, ClaimsUnique;
    forall p ensures EntryOk(u, p) {
      assert EntryOk(s, p);
    }
    forall g | 0 <= g < |u.frames| ensures FrameOk(u, g) {
      assert FrameOk(s, g);
    }
  }

  lemma FlagStep(s: State, f: FrameId, fr: Frame)
    requires Inv(s) && f < |s.frames| && fr.id == s.frames[f].id && fr.refs == s.frames[f].refs
    ensures Inv(s.(frames := s.frames[f := fr]))
  {
    var u := s.(frames := s.frames[f := fr]);
    forall g ensures Claimed(u, g) <==> Claimed(s, g) {
    }
    forall g | 0 <= g < |u.frames| ensures u.frames[g].refs == |Pinners(u, g)| {
      assert Pinners(u, g) == Pinners(s, g);
    }
    forall j | j in u.threads ensures ThreadOk(u, u.threads[j]) {
      assert ThreadOk(s, s.threads[j]);
    }
    forall p ensures EntryOk(u, p) {
      assert EntryOk(s, p);
    }
    forall g | 0 <= g < |u.frames| ensures FrameOk(u, g) {
      assert FrameOk(s, g);
    }
  }

  /** Every step keeps the invariant. */
  lemma StepKeeps(c: Config, s: State, step: Step)
    requires Inv(s) && Enabled(c, s, step)
    ensures Inv(Do(c, s, step))
  {
    hide Inv;
    match step
    case ReadDone(f) => FlagStep(s, f, s.frames[f].(io := false));
    case SetDirty(f, on) => FlagStep(s, f, s.frames[f].(dirty := on));
    case Move(i, arg) =>
      var th := s.threads[i];
      if th.FindVictim? {
        FindVictimStep(c, s, i, arg);
      } else if th.Taking? {
        TakingAlone(s, i);
        TakeStep(s, i, th.w, th.f);
      } else if th.Put? {
        if th.w in s.table {
          PutRefused(c, s, i, arg);
        } else {
          PutDone(c, s, i, arg);
        }
      } else if th.Stale? {
        StaleStep(c, s, i, arg);
      } else if th.Undo? {
        UndoStep(c, s, i, arg);
      } else {
        PinStep(c, s, i, arg);
      }
  }

  lemma FindVictimStep(c: Config, s: State, i: nat, arg: nat)
    requires Inv(s) && Enabled(c, s, Move(i, arg)) && s.threads[i].FindVictim?
    ensures Inv(Do(c, s, Move(i, arg)))
  {
    var w := s.threads[i].w;
    assert ThreadOk(s, s.threads[i]);
    Unclaimed(s, arg);
    hide Inv, Claimed;
    if c.atomicVictim {
      TakeStep(s, i, w, arg);
    } else {
      LatchStep(s, i, w, arg);
    }
  }

  lemma TakingAlone(s: State, i: nat)
    requires Inv(s) && i in s.threads && s.threads[i].Taking?
    ensures s.threads[i].w != 0 && !Claimed(s, s.threads[i].f)
    ensures forall j | j in s.threads && j != i :: !Latches(s.threads[j], s.threads[i].f)
  {
    assert ThreadOk(s, s.threads[i]);
  }

  lemma InitOk(s: State)
    requires Init(s)
    ensures Inv(s)
  {
    forall f | 0 <= f < |s.frames| ensures |Pinners(s, f)| == 0 {
      assert Pinners(s, f) == {};
    }
  }

  lemma {:induction false} RunKeeps(c: Config, init: State, steps: seq<Step>, s: State)
    requires Runs(c, init, steps, s)
    ensures Inv(s)
    decreases |steps|
  {
    hide Inv, Enabled, Do, Init;
    if steps == [] {
      InitOk(s);
    } else {
      var n := |steps| - 1;
      var mid :| Runs(c, init, steps[..n], mid) && Enabled(c, mid, steps[n]) && s == Do(c, mid, steps[n]);
      RunKeeps(c, init, steps[..n], mid);
      StepKeeps(c, mid, steps[n]);
    }
  }
}
