/** Operations of the pool from beginning to end: what a thread that pins a page gets, what a visit to the wrong frame leaves
    behind, and which frames are taken. */
module PoolPins {
  import opened PoolSteps
  import opened PoolSafety
  import opened PoolTheorems

  // ---- what a pin gives ----

  /** Thread i is busy in all states along the steps. */
  ghost predicate BusyAlong(c: Config, s: State, steps: seq<Step>, u: State, i: nat)
    decreases |steps|
  {
    && i in s.threads && !s.threads[i].Idle?
    && if steps == [] then u == s
       else Enabled(c, s, steps[0]) && BusyAlong(c, Do(c, s, steps[0]), steps[1..], u, i)
  }

  /** A step changes the page only of a thread that takes up a pin or is done with one. */
  lemma WantedStays(c: Config, s: State, step: Step, i: nat)
    requires Enabled(c, s, step) && i in s.threads
    ensures i in Do(c, s, step).threads
    ensures !s.threads[i].Idle? && !Do(c, s, step).threads[i].Idle? ==> Do(c, s, step).threads[i].w == s.threads[i].w
    ensures s.threads[i].Idle? && !Do(c, s, step).threads[i].Idle? ==>
      step == Move(i, Do(c, s, step).threads[i].w)
  {
    hide Latched, Claimed;
  }

  lemma {:induction false} WantedAlong(c: Config, s: State, steps: seq<Step>, u: State, i: nat)
    requires Inv(s) && BusyAlong(c, s, steps, u, i)
    ensures Inv(u) && i in u.threads && !u.threads[i].Idle? && u.threads[i].w == s.threads[i].w
    decreases |steps|
  {
    hide Inv, Enabled, Do;
    if steps != [] {
      StepKeeps(c, s, steps[0]);
      WantedStays(c, s, steps[0], i);
      WantedAlong(c, Do(c, s, steps[0]), steps[1..], u, i);
    }
  }

  /** Whenever a thread begins to use a frame, the frame holds the page. */
  lemma UsesWhatItHolds(c: Config, init: State, before: seq<Step>, s: State, step: Step, i: nat)
    requires Runs(c, init, before, s) && Enabled(c, s, step) && i in s.threads
    requires !s.threads[i].Using? && i in Do(c, s, step).threads && Do(c, s, step).threads[i].Using?
    ensures var u := Do(c, s, step); Has(u, i, u.threads[i].w, u.threads[i].f)
  {
    RunKeeps(c, init, before, s);
    UseBegins(c, s, step, i);
  }

  lemma UseBegins(c: Config, s: State, step: Step, i: nat)
    requires Inv(s) && Enabled(c, s, step) && i in s.threads
    requires !s.threads[i].Using? && i in Do(c, s, step).threads && Do(c, s, step).threads[i].Using?
    ensures var u := Do(c, s, step); Has(u, i, u.threads[i].w, u.threads[i].f)
  {
    hide ClaimsUnique, LatchesUnique, RefsOk, EntryOk, FrameOk, Latched, Claimed;
    assert ThreadOk(s, s.threads[i]);
  }

  /** A thread that asks for page w comes, if it comes to use a frame, to one that holds w, with a pin on it; whatever the
      others do meanwhile. */
  lemma PinGives(c: Config, init: State, before: seq<Step>, s: State, i: nat, w: PageId, steps: seq<Step>, u: State,
      step: Step)
    requires Runs(c, init, before, s) && i in s.threads && s.threads[i].Idle? && Enabled(c, s, Move(i, w))
    requires BusyAlong(c, Do(c, s, Move(i, w)), steps, u, i) && Enabled(c, u, step)
    requires i in u.threads && !u.threads[i].Using? && i in Do(c, u, step).threads && Do(c, u, step).threads[i].Using?
    ensures var v := Do(c, u, step);
      var f := v.threads[i].f;
      Has(v, i, w, f) && i in Pinners(v, f) && v.frames[f].refs == |Pinners(v, f)|
  {
    hide Inv, Enabled, Do, Runs, Has;
    RunKeeps(c, init, before, s);
    StepKeeps(c, s, Move(i, w));
    AsksFor(c, s, i, w);
    WantedAlong(c, Do(c, s, Move(i, w)), steps, u, i);
    WantedStays(c, u, step, i);
    UseBegins(c, u, step, i);
    StepKeeps(c, u, step);
    CountOf(Do(c, u, step), i, w, Do(c, u, step).threads[i].f);
  }

  lemma AsksFor(c: Config, s: State, i: nat, w: PageId)
    requires i in s.threads && s.threads[i].Idle? && Enabled(c, s, Move(i, w))
    ensures i in Do(c, s, Move(i, w)).threads && !Do(c, s, Move(i, w)).threads[i].Idle?
    ensures Do(c, s, Move(i, w)).threads[i].w == w
  {
  }

  lemma CountOf(s: State, i: nat, w: PageId, f: FrameId)
    requires Inv(s) && Has(s, i, w, f)
    ensures i in Pinners(s, f) && s.frames[f].refs == |Pinners(s, f)|
  {
  }

  // ---- visits ----

  /** A visit that finds another page leaves the frame as it was: its count is that of the other threads' pins, and nothing
      else of the frame, and no other frame, is touched. The thread looks for a frame next, or after an undone claim for the
      page again. */
  lemma MissedVisit(c: Config, init: State, before: seq<Step>, s: State, i: nat, arg: nat, f: FrameId)
    requires Runs(c, init, before, s) && i in s.threads && s.threads[i].Pinned? && s.threads[i].f == f
    requires f < |s.frames| && s.frames[f].id != s.threads[i].w
    ensures Enabled(c, s, Move(i, arg))
    ensures var u := Do(c, s, Move(i, arg));
      && i in u.threads && u.table == s.table
      && (var w := s.threads[i].w; u.threads[i] == if s.threads[i].again then Lookup(w) else FindVictim(w))
      && |u.frames| == |s.frames| && (forall g | 0 <= g < |s.frames| && g != f :: u.frames[g] == s.frames[g])
      && u.frames[f] == s.frames[f].(refs := |Pinners(s, f) - {i}|)
  {
    hide Latched, Claimed;
    RunKeeps(c, init, before, s);
    assert ThreadOk(s, s.threads[i]) && i in Pinners(s, f);
  }

  /** With nothing in between, the visit and its undoing change nothing but where the thread is. */
  lemma VisitUndone(c: Config, s: State, i: nat, x: nat, y: nat)
    requires Inv(s) && i in s.threads && s.threads[i].Visit? && s.threads[i].f < |s.frames|
    requires s.frames[s.threads[i].f].id != s.threads[i].w
    ensures Enabled(c, s, Move(i, x)) && Enabled(c, Do(c, s, Move(i, x)), Move(i, y))
    ensures var u := Do(c, Do(c, s, Move(i, x)), Move(i, y)); u.frames == s.frames && u.table == s.table
  {
    hide Inv;
  }

  /** A claim that has been refused is given back, and then the frame that has the page is visited; should it not have the
      page any more, the page is looked up again. */
  lemma RefusedGoesOn(c: Config, s: State, i: nat, g: FrameId)
    requires Inv(s) && i in s.threads && s.threads[i].Undo? && s.threads[i].g == g && g != s.threads[i].f
    requires Enabled(c, s, Move(i, 0))
    ensures g < |s.frames|
    ensures var w, u := s.threads[i].w, Do(c, s, Move(i, 0));
      && Enabled(c, u, Move(i, 0)) && Enabled(c, Do(c, u, Move(i, 0)), Move(i, 0))
      && var v := Do(c, Do(c, u, Move(i, 0)), Move(i, 0));
         && i in v.threads && |v.frames| == |s.frames|
         && if s.frames[g].id == w then
              v.threads[i] == Using(w, g) && v.frames[g] == s.frames[g].(refs := s.frames[g].refs + 1)
            else
              v.threads[i] == Lookup(w) && v.frames[g] == s.frames[g]
  {
    hide ClaimsUnique, LatchesUnique, RefsOk, EntryOk, FrameOk, Latched, Claimed;
    assert ThreadOk(s, s.threads[i]);
  }

  /** A page that is in its frame is pinned there with three steps, and nothing is evicted. */
  lemma ResidentPinned(c: Config, s: State, i: nat, w: PageId, f: FrameId)
    requires i in s.threads && s.threads[i].Idle? && w != 0 && w in s.table && s.table[w] == f < |s.frames|
    requires s.frames[f].id == w
    ensures Along(c, s, [Move(i, w), Move(i, 0), Move(i, 0), Move(i, 0)],
      State(s.frames[f := s.frames[f].(refs := s.frames[f].refs + 1)], s.table, s.threads[i := Using(w, f)]))
  {
    var s1 := Do(c, s, Move(i, w));
    assert s1 == Go(s, i, Lookup(w));
    var s2 := Do(c, s1, Move(i, 0));
    assert s2 == Go(s, i, Visit(w, f, false));
    var s3 := Do(c, s2, Move(i, 0));
    assert s3 == Go(PinFrame(s, f, 1), i, Pinned(w, f, false));
    var s4 := Do(c, s3, Move(i, 0));
    assert s4 == Go(PinFrame(s, f, 1), i, Using(w, f));
    AlongFour(c, s, Move(i, w), Move(i, 0), Move(i, 0), Move(i, 0));
  }

  lemma AlongFour(c: Config, s: State, a: Step, b: Step, d: Step, e: Step)
    requires Enabled(c, s, a) && Enabled(c, Do(c, s, a), b) && Enabled(c, Do(c, Do(c, s, a), b), d)
    requires Enabled(c, Do(c, Do(c, Do(c, s, a), b), d), e)
    ensures Along(c, s, [a, b, d, e], Do(c, Do(c, Do(c, Do(c, s, a), b), d), e))
  {
    hide Enabled, Do;
    var s1, s2, s3 := Do(c, s, a), Do(c, Do(c, s, a), b), Do(c, Do(c, Do(c, s, a), b), d);
    var s4 := Do(c, s3, e);
    assert Along(c, s4, [], s4);
    assert [e][1..] == [] && Along(c, s3, [e], s4);
    assert [d, e][1..] == [e] && Along(c, s2, [d, e], s4);
    assert [b, d, e][1..] == [d, e] && Along(c, s1, [b, d, e], s4);
    assert [a, b, d, e][1..] == [b, d, e];
  }

  // ---- claims ----

  predicate OnFrame(th: Thread, f: FrameId) {
    (th.Taking? || th.Put?) && th.f == f
  }

  /** A frame is found for a claim only if nobody has pinned it, it is not dirty, no read into it is under way, and nobody
      else has latched or claimed it. */
  lemma VictimWasFree(c: Config, init: State, before: seq<Step>, s: State, step: Step, i: nat, f: FrameId)
    requires Runs(c, init, before, s) && Enabled(c, s, step) && i in s.threads && s.threads[i].FindVictim?
    requires i in Do(c, s, step).threads && OnFrame(Do(c, s, step).threads[i], f)
    ensures f < |s.frames| && !s.frames[f].dirty && !s.frames[f].io && Pinners(s, f) == {}
    ensures !Latched(s, f) && !Claimed(s, f)
  {
    hide Inv, Latched, Claimed, Pinners;
    RunKeeps(c, init, before, s);
    FoundFree(c, s, step, i, f);
    RefsOf(s);
    NobodyAt(s, f);
  }

  lemma FoundFree(c: Config, s: State, step: Step, i: nat, f: FrameId)
    requires Enabled(c, s, step) && i in s.threads && s.threads[i].FindVictim?
    requires i in Do(c, s, step).threads && OnFrame(Do(c, s, step).threads[i], f)
    ensures f < |s.frames| && !s.frames[f].dirty && !s.frames[f].io && s.frames[f].refs == 0 && !Latched(s, f)
  {
    hide Latched, Claimed;
  }

  lemma RefsOf(s: State)
    requires Inv(s)
    ensures RefsOk(s)
  {
  }

  lemma NobodyAt(s: State, f: FrameId)
    requires RefsOk(s) && f < |s.frames| && s.frames[f].refs == 0
    ensures Pinners(s, f) == {} && !Claimed(s, f)
  {
    assert |Pinners(s, f)| == 0;
    forall i | i in s.threads ensures !Pins(s.threads[i], f) {
      assert i !in Pinners(s, f);
    }
  }

  /** The frame of a claim is marked until its page is read: nobody takes what it holds for the page's content before. */
  ghost predicate ClaimsMarked(s: State) {
    forall f | 0 <= f < |s.frames| && Claimed(s, f) :: s.frames[f].io
  }

  /** Who claims a frame after the step did so before, or has taken it in the step; and only a claim, undone, takes the mark
      away. */
  lemma MarkStays(c: Config, s: State, step: Step, j: nat, f: FrameId)
    requires Enabled(c, s, step) && f < |s.frames| && j in Do(c, s, step).threads && Claims(Do(c, s, step).threads[j], f)
    requires Claimed(s, f) ==> s.frames[f].io
    requires step.Move? && j != step.i ==> !Claims(s.threads[step.i], f)
    ensures f < |Do(c, s, step).frames| && Do(c, s, step).frames[f].io
  {
    hide Latched;
    if j in s.threads && Claims(s.threads[j], f) {
      assert Claimed(s, f);
    }
  }

  lemma StepMarks(c: Config, s: State, step: Step)
    requires Inv(s) && Enabled(c, s, step) && ClaimsMarked(s)
    ensures ClaimsMarked(Do(c, s, step))
  {
    hide Inv, Enabled, Do;
    var u := Do(c, s, step);
    forall f | 0 <= f < |u.frames| && Claimed(u, f) ensures u.frames[f].io {
      var j :| j in u.threads && Claims(u.threads[j], f);
      OnlyMoved(c, s, step, j);
      if step.Move? && j != step.i {
        OtherClaims(c, s, step, j, f);
      }
      MarkStays(c, s, step, j, f);
    }
  }

  lemma OtherClaims(c: Config, s: State, step: Step, j: nat, f: FrameId)
    requires Inv(s) && Enabled(c, s, step) && step.Move? && j != step.i && j in s.threads && Claims(s.threads[j], f)
    ensures step.i in s.threads && !Claims(s.threads[step.i], f)
  {
    hide Latched, RefsOk, EntryOk, FrameOk, ThreadsOk;
  }

  lemma {:induction false} RunsMark(c: Config, init: State, steps: seq<Step>, s: State)
    requires Runs(c, init, steps, s)
    ensures ClaimsMarked(s)
    decreases |steps|
  {
    hide Enabled, Do, Inv;
    if steps != [] {
      var n := |steps| - 1;
      var mid :| Runs(c, init, steps[..n], mid) && Enabled(c, mid, steps[n]) && s == Do(c, mid, steps[n]);
      RunsMark(c, init, steps[..n], mid);
      RunKeeps(c, init, steps[..n], mid);
      StepMarks(c, mid, steps[n]);
    }
  }

  // ---- going on ----

  /** In every run a thread can go on, unless it looks for a frame and there is none to take. */
  lemma CanMoveIff(c: Config, init: State, before: seq<Step>, s: State, i: nat)
    requires Runs(c, init, before, s) && i in s.threads
    ensures (exists arg :: Enabled(c, s, Move(i, arg)))
      <==> (s.threads[i].FindVictim? ==> exists f: FrameId :: f < |s.frames| && Evictable(s.frames[f]) && !Latched(s, f))
  {
    RunKeeps(c, init, before, s);
    var th := s.threads[i];
    assert ThreadOk(s, th);
    if th.FindVictim? {
      if f: FrameId :| f < |s.frames| && Evictable(s.frames[f]) && !Latched(s, f) {
        assert Enabled(c, s, Move(i, f));
      }
    } else {
      if th.Undo? {
        UndoUnlatched(s, i);
      }
      assert Enabled(c, s, Move(i, 1));
    }
  }

  lemma UndoUnlatched(s: State, i: nat)
    requires Inv(s) && i in s.threads && s.threads[i].Undo?
    ensures !Latched(s, s.threads[i].f)
  {
    assert Claims(s.threads[i], s.threads[i].f);
    forall k | k in s.threads ensures !Latches(s.threads[k], s.threads[i].f) {
      assert ThreadOk(s, s.threads[k]);
    }
  }

  // ---- a claim that is undone ----

  /** Thread i claims frame f, and will give it back as page prev. */
  ghost predicate ClaimsFor(s: State, i: nat, f: FrameId, prev: PageId) {
    i in s.threads && Tentative(s.threads[i], f) && s.threads[i].prev == prev
  }

  lemma ClaimGoesOn(c: Config, s: State, step: Step, i: nat, f: FrameId, prev: PageId)
    requires Enabled(c, s, step) && ClaimsFor(s, i, f, prev)
    requires i in Do(c, s, step).threads && Tentative(Do(c, s, step).threads[i], f)
    ensures ClaimsFor(Do(c, s, step), i, f, prev)
  {
    hide Latched, Claimed;
  }

  /** Thread i is at its claim of frame f in all states along the steps. */
  ghost predicate ClaimAlong(c: Config, s: State, steps: seq<Step>, u: State, i: nat, f: FrameId)
    decreases |steps|
  {
    && i in s.threads && Tentative(s.threads[i], f)
    && if steps == [] then u == s
       else Enabled(c, s, steps[0]) && ClaimAlong(c, Do(c, s, steps[0]), steps[1..], u, i, f)
  }

  lemma {:induction false} ClaimLasts(c: Config, s: State, steps: seq<Step>, u: State, i: nat, f: FrameId, prev: PageId)
    requires Inv(s) && ClaimAlong(c, s, steps, u, i, f) && ClaimsFor(s, i, f, prev)
    ensures Inv(u) && ClaimsFor(u, i, f, prev)
    decreases |steps|
  {
    hide Inv, Enabled, Do, Tentative;
    if steps != [] {
      StepKeeps(c, s, steps[0]);
      assert ClaimAlong(c, Do(c, s, steps[0]), steps[1..], u, i, f);
      ClaimGoesOn(c, s, steps[0], i, f, prev);
      ClaimLasts(c, Do(c, s, steps[0]), steps[1..], u, i, f, prev);
    }
  }

  /** A claim that is undone gives the frame back as it was taken: with its old page, no read under way, and the pins of the
      others. */
  lemma UndoGivesBack(c: Config, init: State, before: seq<Step>, s: State, take: Step, i: nat, f: FrameId, steps: seq<Step>,
      u: State, arg: nat)
    requires Runs(c, init, before, s) && Enabled(c, s, take) && i in s.threads && !Tentative(s.threads[i], f)
    requires ClaimAlong(c, Do(c, s, take), steps, u, i, f) && i in u.threads && u.threads[i].Undo?
    ensures f < |s.frames| && Enabled(c, u, Move(i, arg))
    ensures var v := Do(c, u, Move(i, arg));
      && f < |v.frames| && f < |u.frames| && v.table == u.table
      && v.frames[f] == u.frames[f].(id := s.frames[f].id, io := false, refs := |Pinners(u, f) - {i}|)
  {
    hide Inv, Runs, ClaimAlong, Do, Enabled, Tentative;
    RunKeeps(c, init, before, s);
    StepKeeps(c, s, take);
    assert ClaimsFor(Do(c, s, take), i, f, s.frames[f].id) && f < |s.frames| by {
      assert Tentative(Do(c, s, take).threads[i], f) by { AtFirst(c, Do(c, s, take), steps, u, i, f); }
      TakesFrame(c, s, take, i, f);
    }
    ClaimLasts(c, Do(c, s, take), steps, u, i, f, s.frames[f].id);
    GivesBack(c, u, i, f, s.frames[f].id, arg);
  }

  lemma AtFirst(c: Config, s: State, steps: seq<Step>, u: State, i: nat, f: FrameId)
    requires ClaimAlong(c, s, steps, u, i, f)
    ensures i in s.threads && Tentative(s.threads[i], f)
  {
  }

  lemma TakesFrame(c: Config, s: State, step: Step, i: nat, f: FrameId)
    requires Enabled(c, s, step) && i in s.threads && !Tentative(s.threads[i], f)
    requires i in Do(c, s, step).threads && Tentative(Do(c, s, step).threads[i], f)
    ensures f < |s.frames| && ClaimsFor(Do(c, s, step), i, f, s.frames[f].id)
  {
    hide Latched, Claimed;
  }

  lemma GivesBack(c: Config, s: State, i: nat, f: FrameId, prev: PageId, arg: nat)
    requires Inv(s) && ClaimsFor(s, i, f, prev) && s.threads[i].Undo?
    ensures f < |s.frames| && Enabled(c, s, Move(i, arg))
    ensures var v := Do(c, s, Move(i, arg));
      f < |v.frames| && v.table == s.table
      && v.frames[f] == s.frames[f].(id := prev, io := false, refs := |Pinners(s, f) - {i}|)
  {
    hide ClaimsUnique, LatchesUnique, EntryOk, FrameOk, Latched, Claimed;
    assert ThreadOk(s, s.threads[i]);
    UndoUnlatched(s, i);
    assert i in Pinners(s, f);
  }
}
