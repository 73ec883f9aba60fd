/** Page sections under the version lock: read without a lock and validated, or under the shared lock after
    a failed try. Any number of threads and pages; memory is sequentially consistent. */
module OptimisticLock {
  type PageNo = nat
  type Content = int

  const MAX_OPTIMISTIC_TRIES := 1

  datatype Mutex = Shared(readers: set<nat>) | Exclusive(writer: nat)

  datatype Page = Page(version: nat, mutex: Mutex, content: Content)

  datatype Place =
    | Outside
    | Trying(p: PageNo)                // in Lock, about to look at tries and the version
    | Waiting(p: PageNo)               // about to take the shared lock
    // in a section; at: the content when it began, seen: what was read (for the proofs only)
    | Inside(p: PageNo, at: Content, seen: seq<Content>)
    | HasMutex(p: PageNo)              // WriteLock: the mutex is taken, the version still even
    | Writing(p: PageNo)
    | Releasing(p: PageNo)             // WriteUnlock: the version is even again

  datatype Thread = Thread(tries: nat, version: nat, place: Place)

  datatype State = State(pages: map<PageNo, Page>, threads: map<nat, Thread>)

  datatype Step =
    | Clear(t: nat) | BeginLock(t: nat, p: PageNo) | LockStep(t: nat) | Read(t: nat) | Unlock(t: nat)
    | WriteMutex(t: nat, p: PageNo) | WriteBegin(t: nat) | Write(t: nat, content: Content) | WriteEnd(t: nat)
    | WriteRelease(t: nat)

  ghost predicate Enabled(s: State, step: Step) {
    step.t in s.threads &&
    var th := s.threads[step.t];
    match step
    case Clear(t) => th.place.Outside?
    case BeginLock(t, p) => th.place.Outside? && p in s.pages
    case LockStep(t) =>
      || (th.place.Trying? && th.place.p in s.pages)
      || (th.place.Waiting? && th.place.p in s.pages && s.pages[th.place.p].mutex.Shared?)
    case Read(t) => th.place.Inside? && th.place.p in s.pages
    case Unlock(t) => th.place.Inside? && th.place.p in s.pages
    case WriteMutex(t, p) => th.place.Outside? && p in s.pages && s.pages[p].mutex == Shared({})
    case WriteBegin(t) => th.place.HasMutex? && th.place.p in s.pages
    case Write(t, content) => th.place.Writing? && th.place.p in s.pages
    case WriteEnd(t) => th.place.Writing? && th.place.p in s.pages
    case WriteRelease(t) => th.place.Releasing? && th.place.p in s.pages
  }

  function Move(s: State, t: nat, th: Thread): State {
    s.(threads := s.threads[t := th])
  }

  function SetPage(s: State, p: PageNo, page: Page): State {
    s.(pages := s.pages[p := page])
  }

  function Readers(m: Mutex): set<nat> {
    if m.Shared? then m.readers else {}
  }

  /** What Unlock of a section tells its caller. */
  ghost predicate UnlockResult(s: State, t: nat)
    requires Enabled(s, Unlock(t))
  {
    var th := s.threads[t];
    th.tries >= MAX_OPTIMISTIC_TRIES || s.pages[th.place.p].version == th.version
  }

  ghost function Do(s: State, step: Step): State
    requires Enabled(s, step)
  {
    var t := step.t;
    var th := s.threads[t];
    match step
    case Clear(_) => Move(s, t, Thread(0, 0, Outside))
    case BeginLock(_, p) => Move(s, t, th.(place := Trying(p)))
    case LockStep(_) =>
      var p := th.place.p;
      var page := s.pages[p];
      if th.place.Waiting? then
        Move(SetPage(s, p, page.(mutex := Shared(page.mutex.readers + {t}))), t, th.(place := Inside(p, page.content, [])))
      else if th.tries >= MAX_OPTIMISTIC_TRIES then Move(s, t, th.(place := Waiting(p)))
      else if page.version % 2 == 0 then Move(s, t, th.(version := page.version, place := Inside(p, page.content, [])))
      else Move(s, t, th.(tries := th.tries + 1, version := page.version))
    case Read(_) =>
      Move(s, t, th.(place := th.place.(seen := th.place.seen + [s.pages[th.place.p].content])))
    case Unlock(_) =>
      var p := th.place.p;
      if th.tries >= MAX_OPTIMISTIC_TRIES then
        Move(SetPage(s, p, s.pages[p].(mutex := Shared(Readers(s.pages[p].mutex) - {t}))), t, th.(place := Outside))
      else if s.pages[p].version == th.version then Move(s, t, th.(place := Outside))
      else Move(s, t, th.(tries := th.tries + 1, place := Outside))
    case WriteMutex(_, p) => Move(SetPage(s, p, s.pages[p].(mutex := Exclusive(t))), t, th.(place := HasMutex(p)))
    case WriteBegin(_) =>
      var p := th.place.p;
      Move(SetPage(s, p, s.pages[p].(version := s.pages[p].version + 1)), t, th.(place := Writing(p)))
    case Write(_, content) => SetPage(s, th.place.p, s.pages[th.place.p].(content := content))
    case WriteEnd(_) =>
      var p := th.place.p;
      Move(SetPage(s, p, s.pages[p].(version := s.pages[p].version + 1)), t, th.(place := Releasing(p)))
    case WriteRelease(_) =>
      Move(SetPage(s, th.place.p, s.pages[th.place.p].(mutex := Shared({}))), t, th.(place := Outside))
  }

  ghost predicate Init(s: State) {
    && (forall p | p in s.pages :: s.pages[p].version == 0 && s.pages[p].mutex == Shared({}))
    && (forall t | t in s.threads :: s.threads[t] == Thread(0, 0, Outside))
  }

  ghost predicate Runs(init: State, steps: seq<Step>, s: State)
    decreases |steps|
  {
    if steps == [] then s == init && Init(init)
    else
      var n := |steps| - 1;
      exists mid :: Runs(init, steps[..n], mid) && Enabled(mid, steps[n]) && s == Do(mid, steps[n])
  }

  // ---- invariant ----

  ghost predicate InShared(th: Thread, p: PageNo) {
    th.place.Inside? && th.place.p == p && th.tries >= MAX_OPTIMISTIC_TRIES
  }

  ghost predicate Holds(th: Thread, p: PageNo) {
    (th.place.HasMutex? || th.place.Writing? || th.place.Releasing?) && th.place.p == p
  }

  /** Locks are paired: who holds the mutex of a page is just who is at a place that releases it. */
  ghost predicate MutexOk(s: State, p: PageNo)
    requires p in s.pages
  {
    forall t | t in s.threads ::
      && (InShared(s.threads[t], p) <==> t in Readers(s.pages[p].mutex))
      && (Holds(s.threads[t], p) <==> s.pages[p].mutex == Exclusive(t))
  }

  ghost predicate VersionOk(s: State, p: PageNo)
    requires p in s.pages
  {
    s.pages[p].version % 2 == 1 <==>
      s.pages[p].mutex.Exclusive? && s.pages[p].mutex.writer in s.threads
        && s.threads[s.pages[p].mutex.writer].place.Writing?
  }

  ghost predicate AllRead(seen: seq<Content>, c: Content) {
    forall i | 0 <= i < |seen| :: seen[i] == c
  }

  /** A section whose version still stands, or that holds the shared lock, has seen one content only. */
  ghost predicate SectionOk(s: State, t: nat)
    requires t in s.threads
  {
    var th := s.threads[t];
    && (!th.place.Outside? ==> th.place.p in s.pages)
    && (th.place.Waiting? ==> th.tries >= MAX_OPTIMISTIC_TRIES)
    && (th.place.Inside? ==>
          var page := s.pages[th.place.p];
          if th.tries >= MAX_OPTIMISTIC_TRIES then page.content == th.place.at && AllRead(th.place.seen, th.place.at)
          else th.version % 2 == 0 && th.version <= page.version
               && (page.version == th.version ==> page.content == th.place.at && AllRead(th.place.seen, th.place.at)))
  }

  ghost predicate Inv(s: State) {
    && (forall p | p in s.pages :: MutexOk(s, p) && VersionOk(s, p))
    && (forall t | t in s.threads :: SectionOk(s, t))
    && (forall p | p in s.pages && s.pages[p].mutex.Exclusive? :: s.pages[p].mutex.writer in s.threads)
    && (forall p | p in s.pages :: Readers(s.pages[p].mutex) <= s.threads.Keys)
  }

  lemma InitOk(s: State)
    requires Init(s)
    ensures Inv(s)
  {
  }

  lemma StepMutex(s: State, step: Step, p: PageNo)
    requires Inv(s) && Enabled(s, step) && p in s.pages
    ensures p in Do(s, step).pages && MutexOk(Do(s, step), p)
  {
    hide Inv, SectionOk, VersionOk, MutexOk;
    var u := Do(s, step);
    assert MutexOk(u, p) by {
      forall v | v in u.threads ensures ThreadMutex(u, p, v) {
        StepMutexAt(s, step, p, v);
      }
      MutexFrom(u, p);
    }
  }

  /** What a thread holds of the page is what its place says. */
  ghost predicate ThreadMutex(s: State, p: PageNo, t: nat)
    requires p in s.pages && t in s.threads
  {
    && (InShared(s.threads[t], p) <==> t in Readers(s.pages[p].mutex))
    && (Holds(s.threads[t], p) <==> s.pages[p].mutex == Exclusive(t))
  }

  lemma MutexFrom(s: State, p: PageNo)
    requires p in s.pages && forall t | t in s.threads :: ThreadMutex(s, p, t)
    ensures MutexOk(s, p)
  {
  }

  lemma StepMutexAt(s: State, step: Step, p: PageNo, v: nat)
    requires Inv(s) && Enabled(s, step) && p in s.pages && v in s.threads
    ensures p in Do(s, step).pages && v in Do(s, step).threads && ThreadMutex(Do(s, step), p, v)
  {
    hide VersionOk, Do;
    assert MutexOk(s, p) && SectionOk(s, step.t);
    assert ThreadMutex(s, p, v) && ThreadMutex(s, p, step.t);
    hide Inv, MutexOk, ThreadMutex, SectionOk;
    if v == step.t {
      OwnMutex(s, step, p);
    } else {
      OtherMutex(s, step, p, v);
    }
  }

  lemma OwnMutex(s: State, step: Step, p: PageNo)
    requires Enabled(s, step) && p in s.pages && ThreadMutex(s, p, step.t) && SectionOk(s, step.t)
    ensures p in Do(s, step).pages && step.t in Do(s, step).threads && ThreadMutex(Do(s, step), p, step.t)
  {
  }

  lemma OtherMutex(s: State, step: Step, p: PageNo, v: nat)
    requires Enabled(s, step) && p in s.pages && v in s.threads && v != step.t
    requires ThreadMutex(s, p, step.t) && ThreadMutex(s, p, v) && SectionOk(s, step.t)
    ensures p in Do(s, step).pages && v in Do(s, step).threads && ThreadMutex(Do(s, step), p, v)
  {
  }

  lemma StepVersion(s: State, step: Step, p: PageNo)
    requires Inv(s) && Enabled(s, step) && p in s.pages
    ensures p in Do(s, step).pages && VersionOk(Do(s, step), p)
  {
    hide Inv, SectionOk, Do;
    PageOf(s, p);
    VersionStep(s, step, p);
  }

  lemma PageOf(s: State, p: PageNo)
    requires Inv(s) && p in s.pages
    ensures MutexOk(s, p) && VersionOk(s, p)
    ensures s.pages[p].mutex.Exclusive? ==> s.pages[p].mutex.writer in s.threads
  {
  }

  lemma VersionStep(s: State, step: Step, p: PageNo)
    requires Enabled(s, step) && p in s.pages && MutexOk(s, p) && VersionOk(s, p)
    requires s.pages[p].mutex.Exclusive? ==> s.pages[p].mutex.writer in s.threads
    ensures p in Do(s, step).pages && VersionOk(Do(s, step), p)
  {
  }

  ghost predicate PageOk(s: State, p: PageNo) {
    p in s.pages && MutexOk(s, p) && VersionOk(s, p)
  }

  lemma OwnSection(s: State, step: Step)
    requires Enabled(s, step) && step.t in s.threads && SectionOk(s, step.t)
    requires !s.threads[step.t].place.Outside? ==> PageOk(s, s.threads[step.t].place.p)
    ensures step.t in Do(s, step).threads && SectionOk(Do(s, step), step.t)
  {
  }

  lemma OtherSection(s: State, step: Step, v: nat)
    requires Enabled(s, step) && v in s.threads && v != step.t && SectionOk(s, v) && SectionOk(s, step.t)
    requires s.threads[v].place.Inside? ==> PageOk(s, s.threads[v].place.p)
    ensures v in Do(s, step).threads && SectionOk(Do(s, step), v)
  {
    hide AllRead;
  }

  lemma StepSection(s: State, step: Step, v: nat)
    requires Inv(s) && Enabled(s, step) && v in s.threads
    ensures v in Do(s, step).threads && SectionOk(Do(s, step), v)
  {
    hide MutexOk, VersionOk, Enabled, Do, AllRead;
    assert step.t in s.threads by { StepOf(s, step); }
    assert SectionOk(s, v) && SectionOk(s, step.t);
    if v == step.t {
      OwnSection(s, step);
    } else {
      OtherSection(s, step, v);
    }
  }

  lemma StepOf(s: State, step: Step)
    requires Enabled(s, step)
    ensures step.t in s.threads
  {
  }

  lemma StepKeeps(s: State, step: Step)
    requires Inv(s) && Enabled(s, step)
    ensures Inv(Do(s, step))
  {
    hide MutexOk, VersionOk, SectionOk;
    var u := Do(s, step);
    forall p | p in u.pages ensures MutexOk(u, p) && VersionOk(u, p) {
      StepMutex(s, step, p);
      StepVersion(s, step, p);
    }
    forall t | t in u.threads ensures SectionOk(u, t) {
      StepSection(s, step, t);
    }
  }

  lemma {:induction false} RunKeeps(init: State, steps: seq<Step>, s: State)
    requires Runs(init, steps, s)
    ensures Inv(s)
    decreases |steps|
  {
    hide Inv, Enabled, Do, Init;
    if steps == [] {
      InitOk(s);
    } else {
      var n := |steps| - 1;
      var mid :| Runs(init, steps[..n], mid) && Enabled(mid, steps[n]) && s == Do(mid, steps[n]);
      RunKeeps(init, steps[..n], mid);
      StepKeeps(mid, steps[n]);
    }
  }

  // ---- what a reader and a writer may rely on ----

  /** When Unlock returns true, everything read since Lock is the content the page had at Lock and has still:
      no write came in between. */
  lemma SectionConsistent(init: State, steps: seq<Step>, s: State, t: nat)
    requires Runs(init, steps, s) && Enabled(s, Unlock(t)) && UnlockResult(s, t)
    ensures var place := s.threads[t].place;
      AllRead(place.seen, place.at) && s.pages[place.p].content == place.at
  {
    RunKeeps(init, steps, s);
    assert SectionOk(s, t);
  }

  /** No section counts that began or ended inside a write. */
  lemma NoWriteUnderway(init: State, steps: seq<Step>, s: State, t: nat, w: nat)
    requires Runs(init, steps, s) && Enabled(s, Unlock(t)) && UnlockResult(s, t)
    requires w in s.threads && s.threads[w].place.Writing?
    ensures s.threads[w].place.p != s.threads[t].place.p
  {
    RunKeeps(init, steps, s);
    var p := s.threads[t].place.p;
    assert SectionOk(s, t) && SectionOk(s, w) && MutexOk(s, p) && VersionOk(s, p);
    assert Holds(s.threads[w], s.threads[w].place.p);
  }

  /** Shared locks are paired: a thread that releases one holds it, a thread outside holds none. */
  lemma SharedLocksPaired(init: State, steps: seq<Step>, s: State, t: nat, p: PageNo)
    requires Runs(init, steps, s) && t in s.threads && p in s.pages
    ensures t in Readers(s.pages[p].mutex) <==>
      s.threads[t].place.Inside? && s.threads[t].place.p == p && s.threads[t].tries >= MAX_OPTIMISTIC_TRIES
  {
    RunKeeps(init, steps, s);
    assert MutexOk(s, p);
  }

  ghost predicate Along(s: State, steps: seq<Step>, u: State)
    decreases |steps|
  {
    if steps == [] then u == s
    else Enabled(s, steps[0]) && Along(Do(s, steps[0]), steps[1..], u)
  }

  lemma {:induction false} TriesStay(s: State, steps: seq<Step>, u: State, t: nat)
    requires Inv(s) && Along(s, steps, u) && t in s.threads && s.threads[t].tries >= MAX_OPTIMISTIC_TRIES
    requires forall i | 0 <= i < |steps| :: steps[i] != Clear(t)
    ensures Inv(u) && t in u.threads && u.threads[t].tries >= MAX_OPTIMISTIC_TRIES
    decreases |steps|
  {
    hide Inv;
    if steps != [] {
      StepKeeps(s, steps[0]);
      forall i | 0 <= i < |steps[1..]| ensures steps[1..][i] != Clear(t) {
        assert steps[i + 1] != Clear(t);
      }
      TriesStay(Do(s, steps[0]), steps[1..], u, t);
    }
  }

  /** A section fails at most once: until the thread clears its state, it is in a section only with the shared lock,
      and its Unlock returns true. */
  lemma FailsOnce(init: State, before: seq<Step>, s: State, t: nat, steps: seq<Step>, u: State)
    requires Runs(init, before, s) && Enabled(s, Unlock(t)) && !UnlockResult(s, t)
    requires Along(Do(s, Unlock(t)), steps, u) && forall i | 0 <= i < |steps| :: steps[i] != Clear(t)
    ensures t in u.threads && u.threads[t].tries >= MAX_OPTIMISTIC_TRIES
    ensures var place := u.threads[t].place;
      place.Inside? ==> place.p in u.pages && t in Readers(u.pages[place.p].mutex)
    ensures Enabled(u, Unlock(t)) ==> UnlockResult(u, t)
  {
    hide Along, Runs;
    RunKeeps(init, before, s);
    StepKeeps(s, Unlock(t));
    TriesStay(Do(s, Unlock(t)), steps, u, t);
    assert SectionOk(u, t);
    if u.threads[t].place.Inside? {
      assert MutexOk(u, u.threads[t].place.p);
    }
  }

  /** Writers exclude each other and the sections under the shared lock. */
  lemma WritersAlone(init: State, steps: seq<Step>, s: State, w: nat, t: nat, p: PageNo)
    requires Runs(init, steps, s) && w in s.threads && t in s.threads && w != t && p in s.pages && Holds(s.threads[w], p)
    ensures !Holds(s.threads[t], p) && !InShared(s.threads[t], p)
  {
    RunKeeps(init, steps, s);
    assert MutexOk(s, p);
  }

  // ---- when a section counts ----

  /** The step begins a write of page p. */
  ghost predicate BeginsWrite(s: State, step: Step, p: PageNo) {
    step.WriteBegin? && step.t in s.threads && s.threads[step.t].place == HasMutex(p)
  }

  ghost predicate NoWriteBegins(s: State, steps: seq<Step>, p: PageNo)
    decreases |steps|
  {
    steps != [] ==>
      Enabled(s, steps[0]) && !BeginsWrite(s, steps[0], p) && NoWriteBegins(Do(s, steps[0]), steps[1..], p)
  }

  lemma VersionMoves(s: State, step: Step, p: PageNo)
    requires Inv(s) && Enabled(s, step) && p in s.pages
    ensures p in Do(s, step).pages && Do(s, step).pages[p].version >= s.pages[p].version
    ensures s.pages[p].version % 2 == 0 ==>
      (Do(s, step).pages[p].version == s.pages[p].version <==> !BeginsWrite(s, step, p))
  {
    hide SectionOk;
    PageOf(s, p);
    assert step.t in s.threads by { StepOf(s, step); }
    assert ThreadMutex(s, p, step.t);
  }

  /** From an even version on, the version stands just as long as no write begins. */
  lemma {:induction false} VersionStands(s: State, steps: seq<Step>, u: State, p: PageNo)
    requires Inv(s) && Along(s, steps, u) && p in s.pages
    ensures Inv(u) && p in u.pages && u.pages[p].version >= s.pages[p].version
    ensures s.pages[p].version % 2 == 0 ==>
      (u.pages[p].version == s.pages[p].version <==> NoWriteBegins(s, steps, p))
    decreases |steps|
  {
    hide Inv, Enabled, Do, BeginsWrite;
    if steps != [] {
      StepKeeps(s, steps[0]);
      VersionMoves(s, steps[0], p);
      VersionStands(Do(s, steps[0]), steps[1..], u, p);
    }
  }

  /** Thread t is in a section of page p, with this version and number of tries. */
  ghost predicate InSection(s: State, t: nat, p: PageNo, version: nat, tries: nat) {
    && t in s.threads && s.threads[t].place.Inside? && s.threads[t].place.p == p
    && s.threads[t].version == version && s.threads[t].tries == tries
  }

  lemma SectionGoesOn(s: State, step: Step, t: nat, p: PageNo, version: nat, tries: nat)
    requires Enabled(s, step) && InSection(s, t, p, version, tries) && step != Unlock(t)
    ensures InSection(Do(s, step), t, p, version, tries)
  {
  }

  lemma {:induction false} SectionLasts(s: State, steps: seq<Step>, u: State, t: nat, p: PageNo, version: nat, tries: nat)
    requires Along(s, steps, u) && InSection(s, t, p, version, tries)
    requires forall i | 0 <= i < |steps| :: steps[i] != Unlock(t)
    ensures InSection(u, t, p, version, tries)
    decreases |steps|
  {
    hide Enabled, Do, InSection;
    if steps != [] {
      SectionGoesOn(s, steps[0], t, p, version, tries);
      forall i | 0 <= i < |steps[1..]| ensures steps[1..][i] != Unlock(t) {
        assert steps[i + 1] != Unlock(t);
      }
      SectionLasts(Do(s, steps[0]), steps[1..], u, t, p, version, tries);
    }
  }

  /** A thread about to look at the version enters its section if and only if nobody is writing the page; otherwise it has
      failed once more. It takes no lock. */
  lemma EntersIff(init: State, before: seq<Step>, s: State, t: nat)
    requires Runs(init, before, s) && Enabled(s, LockStep(t))
    requires s.threads[t].place.Trying? && s.threads[t].tries < MAX_OPTIMISTIC_TRIES
    ensures var u := Do(s, LockStep(t)); var p := s.threads[t].place.p;
      && u.pages == s.pages && t in u.threads
      && ((exists w :: w in s.threads && s.threads[w].place == Writing(p)) <==>
            u.threads[t] == s.threads[t].(tries := s.threads[t].tries + 1, version := s.pages[p].version))
      && (!(exists w :: w in s.threads && s.threads[w].place == Writing(p)) <==>
            InSection(u, t, p, s.pages[p].version, s.threads[t].tries))
  {
    RunKeeps(init, before, s);
    var p := s.threads[t].place.p;
    PageOf(s, p);
    forall w | w in s.threads && s.threads[w].place == Writing(p) ensures s.pages[p].version % 2 == 1 {
      assert Holds(s.threads[w], p);
    }
  }

  /** The Unlock of a section without a lock is true if and only if no write of the page has begun since it was entered; then
      it leaves the thread's tries as they were, and otherwise it adds one. */
  lemma CountsIff(init: State, before: seq<Step>, s: State, t: nat, steps: seq<Step>, u: State)
    requires Runs(init, before, s) && Enabled(s, LockStep(t)) && s.threads[t].tries < MAX_OPTIMISTIC_TRIES
    requires var v := Do(s, LockStep(t)); t in v.threads && v.threads[t].place.Inside? && Along(v, steps, u)
    requires forall i | 0 <= i < |steps| :: steps[i] != Unlock(t)
    ensures Enabled(u, Unlock(t))
    ensures var p := s.threads[t].place.p; var quiet := NoWriteBegins(Do(s, LockStep(t)), steps, p);
      && (UnlockResult(u, t) <==> quiet)
      && var v := Do(u, Unlock(t));
         v.pages == u.pages && t in v.threads && v.threads[t].place == Outside
         && v.threads[t].tries == s.threads[t].tries + (if quiet then 0 else 1)
  {
    hide Inv, Along, NoWriteBegins, Runs;
    RunKeeps(init, before, s);
    StepKeeps(s, LockStep(t));
    if s.threads[t].place.Waiting? {
      WaitersHaveTried(s, t);
      assert false;
    }
    var v, p := Do(s, LockStep(t)), s.threads[t].place.p;
    SectionLasts(v, steps, u, t, p, s.pages[p].version, s.threads[t].tries);
    VersionStands(v, steps, u, p);
  }

  lemma WaitersHaveTried(s: State, t: nat)
    requires Inv(s) && t in s.threads && s.threads[t].place.Waiting?
    ensures s.threads[t].tries >= MAX_OPTIMISTIC_TRIES
  {
    assert SectionOk(s, t);
  }

  /** Such a section holds no lock, of this page or any other, and keeps nobody from writing. */
  lemma OptimisticHoldsNothing(init: State, steps: seq<Step>, s: State, t: nat, p: PageNo)
    requires Runs(init, steps, s) && t in s.threads && p in s.pages
    requires s.threads[t].place.Inside? && s.threads[t].tries < MAX_OPTIMISTIC_TRIES
    ensures t !in Readers(s.pages[p].mutex) && s.pages[p].mutex != Exclusive(t)
  {
    hide VersionOk, SectionOk;
    RunKeeps(init, steps, s);
    assert MutexOk(s, p);
  }

  // ---- what is read ----

  /** No write of page p goes through along the steps. */
  ghost predicate NothingWritten(s: State, steps: seq<Step>, p: PageNo)
    decreases |steps|
  {
    steps != [] ==>
      && Enabled(s, steps[0]) && !(steps[0].Write? && s.threads[steps[0].t].place == Writing(p))
      && NothingWritten(Do(s, steps[0]), steps[1..], p)
  }

  lemma ContentStays(s: State, step: Step, p: PageNo)
    requires Enabled(s, step) && p in s.pages && !(step.Write? && s.threads[step.t].place == Writing(p))
    ensures p in Do(s, step).pages && Do(s, step).pages[p].content == s.pages[p].content
  {
  }

  lemma {:induction false} ContentLasts(s: State, steps: seq<Step>, u: State, p: PageNo)
    requires Along(s, steps, u) && p in s.pages && NothingWritten(s, steps, p)
    ensures p in u.pages && u.pages[p].content == s.pages[p].content
    decreases |steps|
  {
    hide Enabled, Do;
    if steps != [] {
      ContentStays(s, steps[0], p);
      ContentLasts(Do(s, steps[0]), steps[1..], u, p);
    }
  }

  /** A read sees what was written to the page last. */
  lemma ReadsLastWritten(s: State, w: nat, content: Content, steps: seq<Step>, u: State, r: nat)
    requires Enabled(s, Write(w, content)) && Along(Do(s, Write(w, content)), steps, u) && Enabled(u, Read(r))
    requires u.threads[r].place.p == s.threads[w].place.p
    requires NothingWritten(Do(s, Write(w, content)), steps, s.threads[w].place.p)
    ensures var v := Do(u, Read(r));
      && r in v.threads && v.threads[r].place.Inside? && v.pages == u.pages
      && v.threads[r].place.seen == u.threads[r].place.seen + [content]
  {
    hide Along, NothingWritten;
    ContentLasts(Do(s, Write(w, content)), steps, u, s.threads[w].place.p);
  }

  /** Once a thread has cleared its state, it enters its next section without a lock again, if nobody is writing the page. */
  lemma ClearForgets(init: State, before: seq<Step>, s: State, t: nat, p: PageNo)
    requires Runs(init, before, s) && Enabled(s, Clear(t)) && p in s.pages
    requires forall w | w in s.threads :: s.threads[w].place != Writing(p)
    ensures Enabled(Do(s, Clear(t)), BeginLock(t, p))
    ensures var u := Do(Do(s, Clear(t)), BeginLock(t, p));
      && Enabled(u, LockStep(t)) && InSection(Do(u, LockStep(t)), t, p, s.pages[p].version, 0)
  {
    RunKeeps(init, before, s);
    PageOf(s, p);
  }
}
