/** What holds in every run of the pool, and two runs that show where it stops. */
module PoolTheorems {
  import opened PoolSteps
  import opened PoolSafety

  /** The map and the frames agree: an unclaimed frame holds a page just when the map sends the page to it. */
  lemma MapMatchesFrames(c: Config, init: State, steps: seq<Step>, s: State, f: FrameId, p: PageId)
    requires Runs(c, init, steps, s) && f < |s.frames| && !Claimed(s, f) && p != 0
    ensures s.frames[f].id == p <==> p in s.table && s.table[p] == f
  {
    RunKeeps(c, init, steps, s);
    assert EntryOk(s, p) && FrameOk(s, f);
  }

  /** No page is settled in two frames. */
  lemma NoPageTwice(c: Config, init: State, steps: seq<Step>, s: State, f: FrameId, g: FrameId)
    requires Runs(c, init, steps, s) && f < |s.frames| && g < |s.frames|
    requires !OnTentative(s, f) && !OnTentative(s, g) && s.frames[f].id == s.frames[g].id != 0
    ensures f == g
  {
    RunKeeps(c, init, steps, s);
    SettledInMap(s, f);
    SettledInMap(s, g);
  }

  lemma SettledInMap(s: State, f: FrameId)
    requires Inv(s) && f < |s.frames| && !OnTentative(s, f) && s.frames[f].id != 0
    ensures s.frames[f].id in s.table && s.table[s.frames[f].id] == f
  {
    assert FrameOk(s, f);
    if i :| i in s.threads && Claims(s.threads[i], f) {
      assert ThreadOk(s, s.threads[i]);
      assert !Tentative(s.threads[i], f);
    }
  }

  /** Pins are conserved: a frame's count is the number of threads that hold it. */
  lemma PinsConserved(c: Config, init: State, steps: seq<Step>, s: State, f: FrameId)
    requires Runs(c, init, steps, s) && f < |s.frames|
    ensures s.frames[f].refs == |set i | i in s.threads && Pins(s.threads[i], f)|
  {
    RunKeeps(c, init, steps, s);
    assert Pinners(s, f) == set i | i in s.threads && Pins(s.threads[i], f);
  }

  ghost predicate Along(c: Config, s: State, steps: seq<Step>, u: State)
    decreases |steps|
  {
    if steps == [] then u == s
    else Enabled(c, s, steps[0]) && Along(c, Do(c, s, steps[0]), steps[1..], u)
  }

  // ---- pins ----

  /** Thread j is about to give frame f a page other than w: it latched the frame for another page, or claimed it
      when it held another page, to which it goes back when the claim is undone. */
  predicate Threatens(th: Thread, f: FrameId, w: PageId) {
    (th.Taking? && th.f == f && th.w != w) || (Tentative(th, f) && th.prev != w)
  }

  ghost predicate Threatened(s: State, f: FrameId, w: PageId) {
    exists j :: j in s.threads && Threatens(s.threads[j], f, w)
  }

  /** Thread i has pinned frame f and found page w in it. */
  ghost predicate Has(s: State, i: nat, w: PageId, f: FrameId) {
    i in s.threads && s.threads[i] == Using(w, f) && f < |s.frames| && s.frames[f].id == w
  }

  /** The steps are those of other threads than i. */
  predicate Others(steps: seq<Step>, i: nat) {
    forall n | 0 <= n < |steps| && steps[n].Move? :: steps[n].i != i
  }

  ghost predicate Lost(c: Config, s: State, i: nat, w: PageId, f: FrameId) {
    exists steps, u :: Along(c, s, steps, u) && Others(steps, i) && f < |u.frames| && u.frames[f].id != w
  }

  /** A pin keeps its page until it is released if nobody was about to change the page when it was found. */
  lemma {:induction false} SafePinHolds(c: Config, s: State, steps: seq<Step>, u: State, i: nat, w: PageId, f: FrameId)
    requires Inv(s) && Along(c, s, steps, u) && Others(steps, i)
    requires Has(s, i, w, f) && !Threatened(s, f, w)
    ensures Has(u, i, w, f) && !Threatened(u, f, w)
    decreases |steps|
  {
    hide Inv, Has, Threatened;
    if steps != [] {
      StepKeeps(c, s, steps[0]);
      var mid := Do(c, s, steps[0]);
      StepKeepsPin(c, s, steps[0], i, w, f);
      forall n | 0 <= n < |steps[1..]| && steps[1..][n].Move? ensures steps[1..][n].i != i {
        assert steps[n + 1].i != i;
      }
      SafePinHolds(c, mid, steps[1..], u, i, w, f);
    }
  }

  lemma StepKeepsPin(c: Config, s: State, step: Step, i: nat, w: PageId, f: FrameId)
    requires Inv(s) && Enabled(c, s, step) && (step.Move? ==> step.i != i)
    requires Has(s, i, w, f) && !Threatened(s, f, w)
    ensures Has(Do(c, s, step), i, w, f) && !Threatened(Do(c, s, step), f, w)
  {
    hide ThreadOk, ClaimsUnique, LatchesUnique, RefsOk, EntryOk, FrameOk;
    var u := Do(c, s, step);
    if step.Move? {
      PinnedFrame(s, i, f);
      assert ThreadOk(s, s.threads[step.i]) && !Threatens(s.threads[step.i], f, w);
      MoverKeepsPin(c, s, step.i, step.arg, w, f);
    }
    hide Enabled, Do, Threatens;
    forall j | j in u.threads ensures !Threatens(u.threads[j], f, w) {
      OnlyMoved(c, s, step, j);
      assert !Threatens(s.threads[j], f, w);
    }
    assert Has(u, i, w, f) by { OnlyMoved(c, s, step, i); OnlyFlags(c, s, step, f); }
  }

  lemma OnlyMoved(c: Config, s: State, step: Step, j: nat)
    requires Enabled(c, s, step)
    ensures Do(c, s, step).threads.Keys == s.threads.Keys && |Do(c, s, step).frames| == |s.frames|
    ensures j in s.threads && (step.Move? ==> j != step.i) ==> Do(c, s, step).threads[j] == s.threads[j]
  {
  }

  lemma OnlyFlags(c: Config, s: State, step: Step, f: FrameId)
    requires Enabled(c, s, step) && f < |s.frames|
    ensures f < |Do(c, s, step).frames| && (!step.Move? ==> Do(c, s, step).frames[f].id == s.frames[f].id)
  {
  }

  /** The thread that moves writes no other page into a pinned frame that nobody threatens. */
  lemma MoverKeepsPin(c: Config, s: State, j: nat, arg: nat, w: PageId, f: FrameId)
    requires Enabled(c, s, Move(j, arg)) && f < |s.frames| && s.frames[f].refs > 0 && s.frames[f].id == w
    requires ThreadOk(s, s.threads[j]) && !Threatens(s.threads[j], f, w)
    ensures Do(c, s, Move(j, arg)).frames[f].id == w && !Threatens(Do(c, s, Move(j, arg)).threads[j], f, w)
  {
    hide Claimed, Latched;
    var u, th := Do(c, s, Move(j, arg)), s.threads[j];
    if th.FindVictim? {
      assert arg != f;
    }
  }

  lemma PinnedFrame(s: State, i: nat, f: FrameId)
    requires Inv(s) && i in s.threads && Pins(s.threads[i], f) && f < |s.frames|
    ensures s.frames[f].refs > 0
  {
    assert i in Pinners(s, f);
  }

  lemma LostNow(c: Config, s: State, i: nat, w: PageId, f: FrameId)
    requires f < |s.frames| && s.frames[f].id != w
    ensures Lost(c, s, i, w, f)
  {
    assert Along(c, s, [], s) && Others([], i);
  }

  lemma LostLater(c: Config, s: State, m: Step, i: nat, w: PageId, f: FrameId)
    requires m.Move? && m.i != i && Enabled(c, s, m) && Lost(c, Do(c, s, m), i, w, f)
    ensures Lost(c, s, i, w, f)
  {
    hide Enabled, Do;
    var steps, u :| Along(c, Do(c, s, m), steps, u) && Others(steps, i) && f < |u.frames| && u.frames[f].id != w;
    var more := [m] + steps;
    assert more[0] == m && more[1..] == steps;
    assert Along(c, s, more, u) && Others(more, i);
  }

  /** A sweeping thread that has latched the frame for another page writes that page with its next step. */
  lemma TakingSwitches(c: Config, s: State, j: nat, w: PageId, f: FrameId)
    requires Inv(s) && j in s.threads && s.threads[j].Taking? && s.threads[j].f == f && s.threads[j].w != w
    ensures Enabled(c, s, Move(j, 0)) && f < |Do(c, s, Move(j, 0)).frames| && Do(c, s, Move(j, 0)).frames[f].id != w
  {
    assert ThreadOk(s, s.threads[j]);
  }

  /** So does a claim that gives the frame back to another page. */
  lemma UndoSwitches(c: Config, s: State, j: nat, w: PageId, f: FrameId)
    requires Inv(s) && j in s.threads && s.threads[j].Undo? && s.threads[j].f == f && s.threads[j].prev != w
    ensures Enabled(c, s, Move(j, 0)) && f < |Do(c, s, Move(j, 0)).frames| && Do(c, s, Move(j, 0)).frames[f].id != w
  {
    assert ThreadOk(s, s.threads[j]);
    assert Claims(s.threads[j], f);
    forall k | k in s.threads ensures !Latches(s.threads[k], f) {
      assert ThreadOk(s, s.threads[k]);
    }
  }

  /** A claim for w on a frame that held another page is refused, and then undone, if w is in the map. */
  lemma PutSwitches(c: Config, s: State, i: nat, j: nat, w: PageId, f: FrameId)
    requires Inv(s) && i != j && j in s.threads && s.threads[j].Put? && s.threads[j].f == f
    requires s.threads[j].w == w != s.threads[j].prev && w in s.table
    ensures Lost(c, s, i, w, f)
  {
    hide Inv, Lost;
    var m := Move(j, 0);
    var u := Do(c, s, m);
    StepKeeps(c, s, m);
    assert u.threads[j].Undo?;
    UndoSwitches(c, u, j, w, f);
    LostNow(c, Do(c, u, m), i, w, f);
    LostLater(c, u, m, i, w, f);
    LostLater(c, s, m, i, w, f);
  }

  /** If w is not in the map, the claim settles w in the frame, and from then on the pin is safe. */
  lemma PutSettles(c: Config, s: State, i: nat, j: nat, w: PageId, f: FrameId)
    requires Inv(s) && Has(s, i, w, f) && j in s.threads && s.threads[j].Put? && s.threads[j].f == f && w !in s.table
    ensures Enabled(c, s, Move(j, 0)) && Has(Do(c, s, Move(j, 0)), i, w, f)
    ensures !Threatened(Do(c, s, Move(j, 0)), f, w)
  {
    var u := Do(c, s, Move(j, 0));
    assert ThreadOk(s, s.threads[j]) && Claims(s.threads[j], f);
    forall k | k in u.threads ensures !Threatens(u.threads[k], f, w) {
      assert ThreadOk(s, s.threads[k]);
      if k != j {
        OnlyClaim(s, j, k);
      }
    }
  }

  /** Thread k wants no page yet, and frame g can be taken. */
  ghost predicate Spare(s: State, k: nat, g: FrameId) {
    k in s.threads && s.threads[k].Idle? && g < |s.frames| && Evictable(s.frames[g]) && !Latched(s, g)
  }

  /** A third thread that brings w into a spare frame is in the map before the claim. */
  lemma RivalSwitches(c: Config, s: State, i: nat, j: nat, k: nat, g: FrameId, w: PageId, f: FrameId)
    requires Inv(s) && Has(s, i, w, f) && Spare(s, k, g) && w !in s.table
    requires j in s.threads && s.threads[j].Put? && s.threads[j].f == f && s.threads[j].prev != w
    ensures Lost(c, s, i, w, f)
  {
    hide Lost, Inv;
    assert w != 0 && s.threads[j].w == w by { ClaimHolds(s, j); }
    var a, b := Move(k, w), Move(k, 0);
    var s1 := Do(c, s, a);
    StepKeeps(c, s, a);
    assert s1 == Go(s, k, Lookup(w));
    var s2 := Do(c, s1, b);
    StepKeeps(c, s1, b);
    assert s2.threads[k] == FindVictim(w) && s2.threads[j] == s.threads[j] && s2.frames == s.frames;
    assert s2.table == s.table;
    forall h | h in s2.threads ensures !Latches(s2.threads[h], g) {
      assert !Latches(s.threads[h], g);
    }
    RivalTakes(c, s2, i, j, k, g, w, f);
    LostLater(c, s1, b, i, w, f);
    LostLater(c, s, a, i, w, f);
  }

  lemma ClaimHolds(s: State, j: nat)
    requires Inv(s) && j in s.threads && s.threads[j].Put?
    ensures s.threads[j].f < |s.frames| && s.frames[s.threads[j].f].id == s.threads[j].w != 0
  {
    assert ThreadOk(s, s.threads[j]) && Claims(s.threads[j], s.threads[j].f);
  }

  lemma RivalTakes(c: Config, s: State, i: nat, j: nat, k: nat, g: FrameId, w: PageId, f: FrameId)
    requires Inv(s) && i != j && i != k && j != k && k in s.threads && s.threads[k] == FindVictim(w) && w !in s.table
    requires g < |s.frames| && Evictable(s.frames[g]) && !Latched(s, g)
    requires j in s.threads && s.threads[j].Put? && s.threads[j].f == f
    requires s.threads[j].w == w != s.threads[j].prev
    ensures Lost(c, s, i, w, f)
  {
    hide Lost, Inv;
    var a, b := Move(k, g), Move(k, 0);
    var s1 := Do(c, s, a);
    StepKeeps(c, s, a);
    if c.atomicVictim {
      RivalPuts(c, s1, i, j, k, w, f);
    } else {
      assert s1 == Go(s, k, Taking(w, g));
      var s2 := Do(c, s1, b);
      StepKeeps(c, s1, b);
      RivalPuts(c, s2, i, j, k, w, f);
      LostLater(c, s1, b, i, w, f);
    }
    LostLater(c, s, a, i, w, f);
  }

  lemma RivalPuts(c: Config, s: State, i: nat, j: nat, k: nat, w: PageId, f: FrameId)
    requires Inv(s) && i != j && i != k && j != k && w !in s.table
    requires k in s.threads && s.threads[k].Put? && s.threads[k].w == w
    requires j in s.threads && s.threads[j].Put? && s.threads[j].f == f
    requires s.threads[j].w == w != s.threads[j].prev
    ensures Lost(c, s, i, w, f)
  {
    hide Lost, Inv;
    var m := Move(k, 0);
    StepKeeps(c, s, m);
    PutSwitches(c, Do(c, s, m), i, j, w, f);
    LostLater(c, s, m, i, w, f);
  }

  /** In every configuration, a pin can lose its page to the others just when somebody was about to change the page
      when it was found. Only if that is a claim for a page not in the map yet, losing it takes a third thread and
      a frame for it. */
  lemma PinLostIff(c: Config, s: State, i: nat, w: PageId, f: FrameId)
    requires Inv(s) && Has(s, i, w, f)
    ensures Lost(c, s, i, w, f) ==> Threatened(s, f, w)
    ensures w in s.table || !OnTentative(s, f) || (exists k, g :: Spare(s, k, g)) ==>
              (Lost(c, s, i, w, f) <==> Threatened(s, f, w))
  {
    hide Inv;
    if !Threatened(s, f, w) {
      forall steps, u | Along(c, s, steps, u) && Others(steps, i) ensures Has(u, i, w, f) {
        SafePinHolds(c, s, steps, u, i, w, f);
      }
    } else {
      var j :| j in s.threads && Threatens(s.threads[j], f, w);
      var m := Move(j, 0);
      if s.threads[j].Taking? {
        TakingSwitches(c, s, j, w, f);
        LostNow(c, Do(c, s, m), i, w, f);
        LostLater(c, s, m, i, w, f);
      } else if s.threads[j].Undo? {
        UndoSwitches(c, s, j, w, f);
        LostNow(c, Do(c, s, m), i, w, f);
        LostLater(c, s, m, i, w, f);
      } else {
        ClaimHolds(s, j);
        assert OnTentative(s, f);
        if w in s.table {
          PutSwitches(c, s, i, j, w, f);
        } else if k, g :| Spare(s, k, g) {
          RivalSwitches(c, s, i, j, k, g, w, f);
        }
      }
    }
  }

  // ---- runs ----

  lemma Extend(c: Config, init: State, steps: seq<Step>, s: State, step: Step) returns (more: seq<Step>, u: State)
    requires Runs(c, init, steps, s) && Enabled(c, s, step)
    ensures u == Do(c, s, step) && more == steps + [step] && Runs(c, init, more, u)
  {
    hide Enabled, Do;
    u, more := Do(c, s, step), steps + [step];
    assert more[..|steps|] == steps;
  }

  /** Nobody is at the frame but, perhaps, to visit it. */
  ghost predicate Free(s: State, f: FrameId) {
    forall i | i in s.threads :: !Claims(s.threads[i], f) && !Latches(s.threads[i], f)
  }

  /** Thread i brings page p into the unpinned frame f, and lets it go. */
  lemma LoadPage(c: Config, init: State, steps: seq<Step>, s: State, i: nat, p: PageId, f: FrameId)
    returns (more: seq<Step>, u: State)
    requires Runs(c, init, steps, s) && i in s.threads && s.threads[i].Idle? && p != 0 && p !in s.table
    requires f < |s.frames| && Evictable(s.frames[f]) && s.frames[f].id != p && Free(s, f)
    requires s.frames[f].id in s.table ==> s.table[s.frames[f].id] == f
    ensures Runs(c, init, more, u)
    ensures u == State(s.frames[f := Frame(p, 0, false, false)], (s.table - {s.frames[f].id})[p := f], s.threads)
  {
    hide Runs;
    var prev := s.frames[f].id;
    more, u := Extend(c, init, steps, s, Move(i, p));
    more, u := Extend(c, init, more, u, Move(i, 0));
    assert u == Go(s, i, FindVictim(p));
    assert Free(u, f);
    more, u := TakeFrame(c, init, more, u, i, p, f);
    more, u := Extend(c, init, more, u, Move(i, 0));
    more, u := Extend(c, init, more, u, Move(i, 0));
    assert u.threads[i] == Using(p, f);
    assert Free(u, f);
    more, u := Extend(c, init, more, u, ReadDone(f));
    more, u := Extend(c, init, more, u, Move(i, 0));
    assert u.threads == s.threads;
    assert u.frames == s.frames[f := Frame(p, 0, false, false)];
    assert u.table == (s.table - {prev})[p := f];
  }

  lemma TakeFrame(c: Config, init: State, steps: seq<Step>, s: State, i: nat, p: PageId, f: FrameId)
    returns (more: seq<Step>, u: State)
    requires Runs(c, init, steps, s) && i in s.threads && s.threads[i] == FindVictim(p)
    requires f < |s.frames| && Evictable(s.frames[f]) && Free(s, f)
    ensures Runs(c, init, more, u) && u == Take(s, i, p, f)
  {
    hide Runs;
    more, u := Extend(c, init, steps, s, Move(i, f));
    if !c.atomicVictim {
      more, u := Extend(c, init, more, u, Move(i, 0));
      assert s.threads[i := Taking(p, f)][i := Put(p, f, s.frames[f].id)] == s.threads[i := Put(p, f, s.frames[f].id)];
    }
  }

  /** A pin not on an undoable claim that the others can take the page from. */
  ghost predicate CanSwitch(c: Config) {
    exists init, steps, s, i, w, f ::
      Runs(c, init, steps, s) && Has(s, i, w, f) && !OnTentative(s, f) && Lost(c, s, i, w, f)
  }

  /** With GetVictim in two steps: a page is pinned between the test and the taking of its frame. */
  lemma SwitchRun() returns (init: State, steps: seq<Step>, s: State)
    ensures Runs(Config(false), init, steps, s)
    ensures s.frames == [Frame(1, 1, false, false)] && s.threads == map[0 := Using(1, 0), 1 := Taking(2, 0)]
  {
    hide Runs, CanSwitch;
    var c := Config(false);
    init := State([Frame(0, 0, false, false)], map[], map[0 := Idle, 1 := Idle]);
    steps, s := [], init;
    assert Runs(c, init, steps, s) by { NoSteps(c, init); }
    steps, s := LoadPage(c, init, steps, s, 0, 1, 0);
    assert s == State([Frame(1, 0, false, false)], map[1 := 0], map[0 := Idle, 1 := Idle]);
    steps, s := Extend(c, init, steps, s, Move(1, 2));
    steps, s := Extend(c, init, steps, s, Move(1, 0));
    steps, s := Extend(c, init, steps, s, Move(1, 0));
    assert s == State([Frame(1, 0, false, false)], map[1 := 0], map[0 := Idle, 1 := Taking(2, 0)]);
    steps, s := Extend(c, init, steps, s, Move(0, 1));
    steps, s := Extend(c, init, steps, s, Move(0, 0));
    steps, s := Extend(c, init, steps, s, Move(0, 0));
    steps, s := Extend(c, init, steps, s, Move(0, 0));
    assert s.frames == [Frame(1, 1, false, false)];
  }

  lemma NoSteps(c: Config, init: State)
    requires Init(init)
    ensures Runs(c, init, [], init)
  {
  }

  lemma {:induction false} NobodySweeps(c: Config, init: State, steps: seq<Step>, s: State, j: nat)
    requires c.atomicVictim && Runs(c, init, steps, s) && j in s.threads
    ensures !s.threads[j].Taking?
    decreases |steps|
  {
    hide Enabled, Do, Init;
    if steps == [] {
      assert s.threads[j] == Idle by { AllIdle(s, j); }
    } else {
      var n := |steps| - 1;
      var mid :| Runs(c, init, steps[..n], mid) && Enabled(c, mid, steps[n]) && s == Do(c, mid, steps[n]);
      SameThreads(c, mid, steps[n]);
      NobodySweeps(c, init, steps[..n], mid, j);
      AtomicStep(c, mid, steps[n], j);
    }
  }

  lemma AllIdle(s: State, j: nat)
    requires Init(s) && j in s.threads
    ensures s.threads[j] == Idle
  {
  }

  lemma SameThreads(c: Config, s: State, step: Step)
    requires Enabled(c, s, step)
    ensures Do(c, s, step).threads.Keys == s.threads.Keys
  {
  }

  lemma AtomicStep(c: Config, s: State, step: Step, j: nat)
    requires c.atomicVictim && Enabled(c, s, step) && j in s.threads && !s.threads[j].Taking?
    ensures !Do(c, s, step).threads[j].Taking?
  {
  }

  /** Pins that are not on an undoable claim lose their page just where GetVictim is not atomic. */
  lemma SwitchesIffVictimInTwoSteps(c: Config)
    ensures CanSwitch(c) <==> !c.atomicVictim
  {
    if c.atomicVictim {
      forall init, steps, s, i, w, f | Runs(c, init, steps, s) && Has(s, i, w, f) && !OnTentative(s, f)
        ensures !Lost(c, s, i, w, f)
      {
        RunKeeps(c, init, steps, s);
        forall j | j in s.threads ensures !Threatens(s.threads[j], f, w) {
          NobodySweeps(c, init, steps, s, j);
        }
        PinLostIff(c, s, i, w, f);
      }
    } else {
      assert c == Config(false);
      var init, steps, s := SwitchRun();
      RunKeeps(c, init, steps, s);
      assert Threatens(s.threads[1], 0, 1) && Has(s, 0, 1, 0);
      assert !OnTentative(s, 0);
      PinLostIff(c, s, 0, 1, 0);
    }
  }

  /** Also with an atomic GetVictim, a pin through a frame number that is out of date can land on another
      thread's claim; when the claim is undone, the pin holds another page. */
  lemma SlipRun() returns (init: State, steps: seq<Step>, s: State)
    ensures Runs(Config(true), init, steps, s)
    ensures s.threads.Keys == {0, 1, 2} && s.threads[0] == Using(1, 0) && |s.frames| == 2 && s.frames[0].id == 2
  {
    hide Runs;
    var c := Config(true);
    init := State([Frame(0, 0, false, false), Frame(0, 0, false, false)], map[], map[0 := Idle, 1 := Idle, 2 := Idle]);
    steps, s := [], init;
    assert Runs(c, init, steps, s) by { NoSteps(c, init); }
    steps, s := LoadPage(c, init, steps, s, 0, 1, 0);
    steps, s := Extend(c, init, steps, s, Move(0, 1));
    steps, s := Extend(c, init, steps, s, Move(0, 0));
    assert s == State([Frame(1, 0, false, false), Frame(0, 0, false, false)], map[1 := 0],
                  map[0 := Visit(1, 0, false), 1 := Idle, 2 := Idle]);
    steps, s := LoadPage(c, init, steps, s, 1, 2, 0);
    assert s == State([Frame(2, 0, false, false), Frame(0, 0, false, false)], map[2 := 0],
                  map[0 := Visit(1, 0, false), 1 := Idle, 2 := Idle]);
    steps, s := RivalClaims(init, steps, s);
    steps, s := PinOnClaim(init, steps, s);
  }

  /** Threads 1 and 2 both want page 1; thread 2 has it in the map first. */
  lemma RivalClaims(init: State, before: seq<Step>, start: State) returns (steps: seq<Step>, s: State)
    requires Runs(Config(true), init, before, start)
    requires start == State([Frame(2, 0, false, false), Frame(0, 0, false, false)], map[2 := 0],
                        map[0 := Visit(1, 0, false), 1 := Idle, 2 := Idle])
    ensures Runs(Config(true), init, steps, s)
    ensures s == State([Frame(2, 0, false, false), Frame(1, 1, true, false)], map[2 := 0, 1 := 1],
                   map[0 := Visit(1, 0, false), 1 := FindVictim(1), 2 := Stale(1, 1, 0)])
  {
    hide Runs;
    var c := Config(true);
    steps, s := before, start;
    steps, s := Extend(c, init, steps, s, Move(1, 1));
    steps, s := Extend(c, init, steps, s, Move(1, 0));
    steps, s := Extend(c, init, steps, s, Move(2, 1));
    steps, s := Extend(c, init, steps, s, Move(2, 0));
    assert s.threads == map[0 := Visit(1, 0, false), 1 := FindVictim(1), 2 := FindVictim(1)];
    steps, s := TakeFrame(c, init, steps, s, 2, 1, 1);
    steps, s := Extend(c, init, steps, s, Move(2, 0));
    assert s.threads == map[0 := Visit(1, 0, false), 1 := FindVictim(1), 2 := Stale(1, 1, 0)];
    assert s.frames == [Frame(2, 0, false, false), Frame(1, 1, true, false)];
  }

  /** Thread 0 pins the frame while thread 1 claims it in vain. */
  lemma PinOnClaim(init: State, before: seq<Step>, start: State) returns (steps: seq<Step>, s: State)
    requires Runs(Config(true), init, before, start)
    requires start == State([Frame(2, 0, false, false), Frame(1, 1, true, false)], map[2 := 0, 1 := 1],
                        map[0 := Visit(1, 0, false), 1 := FindVictim(1), 2 := Stale(1, 1, 0)])
    ensures Runs(Config(true), init, steps, s)
    ensures s.threads.Keys == {0, 1, 2} && s.threads[0] == Using(1, 0) && |s.frames| == 2 && s.frames[0].id == 2
  {
    hide Runs;
    var c := Config(true);
    steps, s := before, start;
    steps, s := TakeFrame(c, init, steps, s, 1, 1, 0);
    assert s.frames == [Frame(1, 1, true, false), Frame(1, 1, true, false)];
    steps, s := Extend(c, init, steps, s, Move(1, 0));
    assert s.threads == map[0 := Visit(1, 0, false), 1 := Undo(1, 0, 2, 1), 2 := Stale(1, 1, 0)];
    steps, s := UndoUnderPin(init, steps, s);
  }

  lemma UndoUnderPin(init: State, before: seq<Step>, start: State) returns (steps: seq<Step>, s: State)
    requires Runs(Config(true), init, before, start)
    requires start.frames == [Frame(1, 1, true, false), Frame(1, 1, true, false)]
    requires start.threads == map[0 := Visit(1, 0, false), 1 := Undo(1, 0, 2, 1), 2 := Stale(1, 1, 0)]
    ensures Runs(Config(true), init, steps, s)
    ensures s.threads.Keys == {0, 1, 2} && s.threads[0] == Using(1, 0) && |s.frames| == 2 && s.frames[0].id == 2
  {
    hide Runs;
    var c := Config(true);
    steps, s := before, start;
    steps, s := Extend(c, init, steps, s, Move(0, 0));
    assert Tentative(s.threads[1], 0) && OnTentative(s, 0);
    steps, s := Extend(c, init, steps, s, Move(0, 0));
    assert s.threads == map[0 := Using(1, 0), 1 := Undo(1, 0, 2, 1), 2 := Stale(1, 1, 0)];
    steps, s := Extend(c, init, steps, s, Move(1, 0));
  }
}
