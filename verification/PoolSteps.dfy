/** The buffer pool's claim and undo protocol, for any number of threads, frames and pages. One step is one
    latched or atomic action of Pin, PageVisit, GetVictim, the partition maps or UndoState. */
module PoolSteps {
  type PageId = nat     // 0: no page
  type FrameId = nat

  datatype Frame = Frame(id: PageId, refs: int, io: bool, dirty: bool)

  datatype Thread =
    | Idle
    | Lookup(w: PageId)
    // about to pin frame f; again: came here from an undone claim
    | Visit(w: PageId, f: FrameId, again: bool)
    // pinned, about to look at the frame's page id
    | Pinned(w: PageId, f: FrameId, again: bool)
    | FindVictim(w: PageId)
    // found f evictable, holds its latch, has not written it yet
    | Taking(w: PageId, f: FrameId)
    // claimed f, which held page old; about to enter w in the map
    | Put(w: PageId, f: FrameId, prev: PageId)
    // w is in the map; about to remove the entry of old
    | Stale(w: PageId, f: FrameId, prev: PageId)
    // w was in the map already, for frame g; about to give f back
    | Undo(w: PageId, f: FrameId, prev: PageId, g: FrameId)
    | Using(w: PageId, f: FrameId)

  datatype State = State(frames: seq<Frame>, table: map<PageId, FrameId>, threads: map<nat, Thread>)

  /** atomicVictim: GetVictim tests a frame and takes it in one step, as in the TLA+ specification; otherwise
      in two, as in the code, where only the frame's latch is held, and PageVisit pins without the latch. */
  datatype Config = Config(atomicVictim: bool)

  datatype Step =
    | Move(i: nat, arg: nat)              // arg: the page wanted, or the frame GetVictim's sweep is at
    | ReadDone(f: FrameId)
    | SetDirty(f: FrameId, on: bool)

  predicate Evictable(fr: Frame) {
    fr.refs == 0 && !fr.dirty && !fr.io
  }

  predicate Tentative(th: Thread, f: FrameId) {
    (th.Put? || th.Undo?) && th.f == f
  }

  predicate Claims(th: Thread, f: FrameId) {
    (th.Put? || th.Undo? || th.Stale?) && th.f == f
  }

  predicate Pins(th: Thread, f: FrameId) {
    (th.Put? || th.Undo? || th.Stale? || th.Pinned? || th.Using?) && th.f == f
  }

  predicate Latches(th: Thread, f: FrameId) {
    th.Taking? && th.f == f
  }

  ghost predicate Claimed(s: State, f: FrameId) {
    exists i :: i in s.threads && Claims(s.threads[i], f)
  }

  ghost predicate OnTentative(s: State, f: FrameId) {
    exists i :: i in s.threads && Tentative(s.threads[i], f)
  }

  ghost predicate Latched(s: State, f: FrameId) {
    exists i :: i in s.threads && Latches(s.threads[i], f)
  }

  ghost predicate Enabled(c: Config, s: State, step: Step) {
    match step
    case Move(i, arg) =>
      i in s.threads &&
      (match s.threads[i]
       case Idle => arg != 0
       case Visit(w, f, again) => f < |s.frames|
       case Pinned(w, f, again) => f < |s.frames|
       case FindVictim(w) => arg < |s.frames| && Evictable(s.frames[arg]) && !Latched(s, arg)
       case Taking(w, f) => f < |s.frames|
       case Undo(w, f, prev, g) => f < |s.frames| && !Latched(s, f)
       case Using(w, f) => f < |s.frames|
       case _ => true)
    case ReadDone(f) => f < |s.frames| && s.frames[f].io && !Claimed(s, f) && !Latched(s, f)
    case SetDirty(f, on) => f < |s.frames|
  }

  ghost function Do(c: Config, s: State, step: Step): State
    requires Enabled(c, s, step)
  {
    match step
    case ReadDone(f) => s.(frames := s.frames[f := s.frames[f].(io := false)])
    case SetDirty(f, on) => s.(frames := s.frames[f := s.frames[f].(dirty := on)])
    case Move(i, arg) =>
      match s.threads[i]
      case Idle => Go(s, i, Lookup(arg))
      case Lookup(w) => Go(s, i, if w in s.table then Visit(w, s.table[w], false) else FindVictim(w))
      case Visit(w, f, again) => Go(PinFrame(s, f, 1), i, Pinned(w, f, again))
      case Pinned(w, f, again) =>
        if s.frames[f].id == w then Go(s, i, Using(w, f))
        else Go(PinFrame(s, f, -1), i, if again then Lookup(w) else FindVictim(w))
      case FindVictim(w) =>
        if c.atomicVictim then Take(s, i, w, arg) else Go(s, i, Taking(w, arg))
      case Taking(w, f) => Take(s, i, w, f)
      case Put(w, f, prev) =>
        if w in s.table then Go(s, i, Undo(w, f, prev, s.table[w]))
        else Go(s.(table := s.table[w := f]), i, Stale(w, f, prev))
      case Stale(w, f, prev) =>
        var table := if prev in s.table && s.table[prev] == f then s.table - {prev} else s.table;
        Go(s.(table := table), i, Using(w, f))
      case Undo(w, f, prev, g) =>
        Go(s.(frames := s.frames[f := s.frames[f].(id := prev, refs := s.frames[f].refs - 1, io := false)]),
          i, Visit(w, g, true))
      case Using(w, f) => Go(PinFrame(s, f, -1), i, Idle)
  }

  function Go(s: State, i: nat, th: Thread): State {
    s.(threads := s.threads[i := th])
  }

  function PinFrame(s: State, f: FrameId, n: int): State
    requires f < |s.frames|
  {
    s.(frames := s.frames[f := s.frames[f].(refs := s.frames[f].refs + n)])
  }

  function Take(s: State, i: nat, w: PageId, f: FrameId): State
    requires f < |s.frames|
  {
    Go(s.(frames := s.frames[f := s.frames[f].(id := w, refs := s.frames[f].refs + 1, io := true)]),
      i, Put(w, f, s.frames[f].id))
  }

  ghost predicate Init(s: State) {
    && (forall f | 0 <= f < |s.frames| :: s.frames[f] == Frame(0, 0, false, false))
    && s.table == map[]
    && forall i | i in s.threads :: s.threads[i] == Idle
  }

  ghost predicate Runs(c: Config, init: State, steps: seq<Step>, s: State)
    decreases |steps|
  {
    if steps == [] then s == init && Init(init)
    else
      var n := |steps| - 1;
      exists mid :: Runs(c, init, steps[..n], mid) && Enabled(c, mid, steps[n]) && s == Do(c, mid, steps[n])
  }

  // ---- invariant ----

  ghost function Pinners(s: State, f: FrameId): set<nat> {
    set i | i in s.threads && Pins(s.threads[i], f)
  }

  /** The frame a thread is at exists; the page it wants is a page. */
  ghost predicate ThreadOk(s: State, th: Thread) {
    && (!th.Idle? ==> th.w != 0)
    && (th.Idle? || th.Lookup? || th.FindVictim? || th.f < |s.frames|)
    && (th.Undo? ==> th.g < |s.frames|)
    && (th.Taking? ==> !Claimed(s, th.f))
    // a claimed frame has the wanted id, and its old page still leads to it
    && (Claims(th, if th.Put? || th.Undo? || th.Stale? then th.f else 0) ==>
          s.frames[th.f].id == th.w && (th.prev != 0 ==> th.prev in s.table && s.table[th.prev] == th.f))
    && (th.Stale? ==> th.prev != th.w && th.w in s.table && s.table[th.w] == th.f)
  }

  ghost predicate ThreadsOk(s: State) {
    forall i | i in s.threads :: ThreadOk(s, s.threads[i])
  }

  ghost predicate ClaimsUnique(s: State) {
    forall i, j | i in s.threads && j in s.threads && i != j && (s.threads[i].Put? || s.threads[i].Undo?
      || s.threads[i].Stale?) ::
      !Claims(s.threads[j], s.threads[i].f)
  }

  /** A frame is latched by one sweeping thread at a time. */
  ghost predicate LatchesUnique(s: State) {
    forall i, j | i in s.threads && j in s.threads && i != j && s.threads[i].Taking? ::
      !Latches(s.threads[j], s.threads[i].f)
  }

  /** Every pin is counted. */
  ghost predicate RefsOk(s: State) {
    forall f | 0 <= f < |s.frames| :: s.frames[f].refs == |Pinners(s, f)|
  }

  /** The map sends p to f because f holds p, or because a claim of f is under way. */
  ghost predicate EntryOk(s: State, p: PageId) {
    p in s.table ==>
      && p != 0 && s.table[p] < |s.frames|
      && (!Claimed(s, s.table[p]) ==> s.frames[s.table[p]].id == p)
      && forall i | i in s.threads && Claims(s.threads[i], s.table[p]) ::
           p == s.threads[i].prev || (s.threads[i].Stale? && p == s.threads[i].w)
  }

  /** An unclaimed frame that holds a page is where the map sends that page. */
  ghost predicate FrameOk(s: State, f: FrameId)
    requires f < |s.frames|
  {
    !Claimed(s, f) && s.frames[f].id != 0 ==> s.frames[f].id in s.table && s.table[s.frames[f].id] == f
  }

  ghost predicate Inv(s: State) {
    && ThreadsOk(s) && ClaimsUnique(s) && LatchesUnique(s) && RefsOk(s)
    && (forall p :: EntryOk(s, p))
    && (forall f | 0 <= f < |s.frames| :: FrameOk(s, f))
  }
}
