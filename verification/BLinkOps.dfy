/** Operations from beginning to end, over whole runs: what a thread does to the contents of the tree is what it was asked
    to do, once, whatever the others do; and a thread can always go on. */
module BLinkOps {
  import opened ByteOrder
  import opened PageLayout
  import opened LeafScan
  import opened BLinkTree
  import opened BLinkSteps
  import opened BLinkSafety
  import opened BLinkRuns
  import opened BLinkTheorems

  ghost predicate StepBy(c: Config, s: State, u: State, i: nat) {
    i in s.threads && ThreadStep(c, s, u, i)
  }

  /** A run with the thread of each step. */
  ghost predicate RunBy(c: Config, run: seq<State>, who: seq<nat>) {
    && run != [] && Init(run[0]) && |who| + 1 == |run|
    && forall j | 0 <= j < |who| :: StepBy(c, run[j], run[j + 1], who[j])
  }

  predicate Ended(th: Thread) {
    th.Idle? || th.Got?
  }

  /** The operation on the set of stored keys. */
  ghost predicate Effect(before: iset<Bytes>, after: iset<Bytes>, op: Op, k: Bytes) {
    match op
    case Insert => k !in before && after == before + iset{k}
    case Delete => k in before && after == before - iset{k}
    case Get => after == before
  }

  /** Thread i takes up the operation in step a and is at it until state b. */
  ghost predicate Operates(run: seq<State>, who: seq<nat>, i: nat, a: nat, b: nat, op: Op, k: Bytes) {
    && a < b < |run| == |who| + 1 && who[a] == i && (forall j | a <= j <= b :: i in run[j].threads)
    && run[a].threads[i].Idle? && run[a + 1].threads[i].Descending?
    && run[a + 1].threads[i].op == op && run[a + 1].threads[i].key == k
    && forall j | a < j < b :: !Ended(run[j].threads[i])
  }

  /** No step of thread i between the states a and b changes the contents, except perhaps step m. */
  ghost predicate QuietBut(run: seq<State>, who: seq<nat>, i: nat, a: nat, b: nat, m: nat) {
    && b < |run| == |who| + 1
    && forall j | a <= j < b && who[j] == i && j != m :: Contents(run[j + 1].tree) == Contents(run[j].tree)
  }

  /** Step m of thread i is the operation. */
  ghost predicate DoneAt(run: seq<State>, who: seq<nat>, i: nat, a: nat, b: nat, m: nat, op: Op, k: Bytes) {
    && a < m < b < |run| == |who| + 1 && who[m] == i
    && Effect(Contents(run[m].tree), Contents(run[m + 1].tree), op, k) && QuietBut(run, who, i, a, b, m)
  }

  ghost predicate Does(run: seq<State>, who: seq<nat>, i: nat, a: nat, b: nat, op: Op, k: Bytes) {
    exists m :: DoneAt(run, who, i, a, b, m, op, k)
  }

  // ---- one step ----

  /** The thread has the operation before it. */
  predicate Before(th: Thread, op: Op, k: Bytes, start: nat) {
    match th
    case Descending(o, q, _, _, st) => o == op && q == k && st == start
    case AtLeaf(o, q, _, _) => o == op && q == k && !op.Get?
    case Getting(q, _, st, _) => op.Get? && q == k && st == start
    case Linking(q, _, st, _, _, _) => op.Get? && q == k && st == start
    case _ => false
  }

  /** It has done its write, and perhaps a separator is on its way. */
  predicate After(th: Thread) {
    th.Idle? || Pending(th).Some?
  }

  /** A step before the write, or a read's. */
  ghost predicate GoesOn(s: State, u: State, th: Thread, op: Op, k: Bytes, start: nat) {
    && Contents(u.tree) == Contents(s.tree)
    && (Before(th, op, k, start) || (op.Get? && th.Got? && th.key == k && th.start == start && th.stop == |s.hist|))
  }

  ghost predicate TakesEffect(s: State, u: State, th: Thread, op: Op, k: Bytes) {
    !op.Get? && After(th) && Effect(Contents(s.tree), Contents(u.tree), op, k)
  }

  lemma WriteEffect(c: Config, s: State, u: State, i: nat, op: Op, k: Bytes, start: nat)
    requires Inv(c, s) && StepBy(c, s, u, i) && Before(s.threads[i], op, k, start)
    requires LeafInsert(s, u, i) || LeafDelete(s, u, i) || LeafSplit(c, s, u, i)
    ensures i in u.threads && TakesEffect(s, u, u.threads[i], op, k)
  {
    hide Inv, Contents, ThreadStep, Put, Remove, SplitPut, HasSplit, HasKey, NewRoot;
    WritesAreAtomic(c, s, u, i);
  }

  /** Steps that only walk or read. */
  lemma WalkEffect(c: Config, s: State, u: State, i: nat, op: Op, k: Bytes, start: nat)
    requires StepBy(c, s, u, i) && Before(s.threads[i], op, k, start)
    requires !LeafInsert(s, u, i) && !LeafDelete(s, u, i) && !LeafSplit(c, s, u, i)
    ensures i in u.threads && GoesOn(s, u, u.threads[i], op, k, start)
  {
    hide Contents, LeafInsert, LeafDelete, LeafSplit, PageMatches, HasSplit, UpperBound, HighPrefixCmp;
  }

  lemma StepEffect(c: Config, s: State, u: State, i: nat, op: Op, k: Bytes, start: nat)
    requires Inv(c, s) && StepBy(c, s, u, i) && Before(s.threads[i], op, k, start)
    ensures i in u.threads
    ensures GoesOn(s, u, u.threads[i], op, k, start) || TakesEffect(s, u, u.threads[i], op, k)
  {
    hide Inv, Before, GoesOn, TakesEffect, ThreadStep, LeafInsert, LeafDelete, LeafSplit;
    if LeafInsert(s, u, i) || LeafDelete(s, u, i) || LeafSplit(c, s, u, i) {
      WriteEffect(c, s, u, i, op, k, start);
    } else {
      WalkEffect(c, s, u, i, op, k, start);
    }
  }

  /** The steps that take a separator up change no contents. */
  lemma StepAfter(c: Config, s: State, u: State, i: nat)
    requires Inv(c, s) && StepBy(c, s, u, i) && After(s.threads[i]) && !s.threads[i].Idle?
    ensures i in u.threads && After(u.threads[i]) && Contents(u.tree) == Contents(s.tree)
  {
    hide Inv, Contents, Put, Remove, SplitPut, HasSplit, HasKey, NewRoot, UpperBound;
    WritesAreAtomic(c, s, u, i);
  }

  /** The others leave the thread where it is. */
  lemma StepOther(c: Config, s: State, u: State, i: nat, j: nat)
    requires Inv(c, s) && StepBy(c, s, u, j) && i in s.threads && i != j
    ensures i in u.threads && u.threads[i] == s.threads[i]
  {
    hide Inv, ThreadStep;
    StepGrows(c, s, u, j);
  }

  // ---- runs ----

  lemma {:induction false} InvAt(c: Config, run: seq<State>, who: seq<nat>, n: nat)
    requires PrefixFree(c.space) && RunBy(c, run, who) && n < |run|
    ensures Inv(c, run[n]) && run[n].threads.Keys == run[0].threads.Keys
    ensures |run[n].hist| == n + 1
    ensures forall j | 0 <= j <= n :: run[n].hist[j] == Contents(run[j].tree)
  {
    hide Inv, ThreadStep, PrefixFree, Contents;
    if n == 0 {
      InitInv(c, run[0]);
      assert run[0].hist[0] == Contents(run[0].tree) by { NothingStored(run[0]); }
    } else {
      InvAt(c, run, who, n - 1);
      var s, u := run[n - 1], run[n - 1 + 1];
      assert StepBy(c, s, u, who[n - 1]);
      assert Next(c, s, u);
      NextKeeps(c, s, u);
      StepGrows(c, s, u, who[n - 1]);
      StepRecords(c, s, u, who[n - 1]);
    }
  }

  lemma NothingStored(s: State)
    requires Init(s)
    ensures s.hist == [Contents(s.tree)]
  {
    assert forall k :: !Has(s.tree, k);
    assert Contents(s.tree) == iset{};
  }

  lemma StepRecords(c: Config, s: State, u: State, i: nat)
    requires StepBy(c, s, u, i)
    ensures u.hist == s.hist + [Contents(u.tree)]
  {
    hide Contents, PageMatches, HasSplit, UpperBound, Put, Remove, SplitPut, HighPrefixCmp, HasKey, NewRoot;
  }

  /** Where the thread is at state n: still before its write, or behind it. */
  ghost predicate Reached(run: seq<State>, who: seq<nat>, i: nat, a: nat, n: nat, op: Op, k: Bytes) {
    && a < n < |run| && i in run[n].threads
    && var th := run[n].threads[i];
    || (Before(th, op, k, a + 1) && QuietBut(run, who, i, a, n, n))
    || (op.Get? && th.Got? && th.key == k && th.start == a + 1 && th.stop == n && QuietBut(run, who, i, a, n, n))
    || (!op.Get? && After(th) && Does(run, who, i, a, n, op, k))
  }

  lemma {:induction false} ReachedAt(c: Config, run: seq<State>, who: seq<nat>, i: nat, a: nat, b: nat, n: nat, op: Op,
      k: Bytes)
    requires PrefixFree(c.space) && RunBy(c, run, who) && Operates(run, who, i, a, b, op, k) && a < n <= b
    ensures Reached(run, who, i, a, n, op, k)
    decreases n
  {
    hide Inv, StepBy, PrefixFree, Contents, Before, After, Effect, QuietBut, DoneAt;
    assert StepBy(c, run[n - 1], run[n - 1 + 1], who[n - 1]);
    InvAt(c, run, who, n - 1);
    if n == a + 1 {
      StartStep(c, run, who, i, a, op, k);
    } else {
      ReachedAt(c, run, who, i, a, b, n - 1, op, k);
      if who[n - 1] == i {
        OwnReached(c, run, who, i, a, n - 1, op, k);
      } else {
        StepOther(c, run[n - 1], run[n], i, who[n - 1]);
        OtherReached(run, who, i, a, n, op, k);
      }
    }
  }

  lemma StartStep(c: Config, run: seq<State>, who: seq<nat>, i: nat, a: nat, op: Op, k: Bytes)
    requires a + 1 < |run| == |who| + 1 && who[a] == i && StepBy(c, run[a], run[a + 1], i) && |run[a].hist| == a + 1
    requires run[a].threads[i].Idle? && i in run[a + 1].threads && run[a + 1].threads[i].Descending?
    requires run[a + 1].threads[i].op == op && run[a + 1].threads[i].key == k
    ensures Reached(run, who, i, a, a + 1, op, k)
  {
    hide Contents, Effect;
  }

  /** A further step of the thread leaves the contents, or is one of the others. */
  lemma DoneStays(run: seq<State>, who: seq<nat>, i: nat, a: nat, p: nat, op: Op, k: Bytes)
    requires p + 1 < |run| == |who| + 1 && Does(run, who, i, a, p, op, k)
    requires who[p] == i ==> Contents(run[p + 1].tree) == Contents(run[p].tree)
    ensures Does(run, who, i, a, p + 1, op, k)
  {
    hide Contents, Effect;
    var m :| DoneAt(run, who, i, a, p, m, op, k);
    assert DoneAt(run, who, i, a, p + 1, m, op, k);
  }

  lemma OtherReached(run: seq<State>, who: seq<nat>, i: nat, a: nat, n: nat, op: Op, k: Bytes)
    requires a + 1 < n < |run| == |who| + 1 && who[n - 1] != i && i in run[n - 1].threads && i in run[n].threads
    requires Reached(run, who, i, a, n - 1, op, k) && run[n].threads[i] == run[n - 1].threads[i]
    requires !Ended(run[n - 1].threads[i])
    ensures Reached(run, who, i, a, n, op, k)
  {
    hide Contents, Before, After, Effect;
    if Does(run, who, i, a, n - 1, op, k) {
      DoneStays(run, who, i, a, n - 1, op, k);
    }
  }

  lemma OwnBefore(c: Config, run: seq<State>, who: seq<nat>, i: nat, a: nat, n: nat, op: Op, k: Bytes)
    requires a + 1 < n < |run| == |who| + 1 && who[n - 1] == i && i in run[n - 1].threads && i in run[n].threads
    requires |run[n - 1].hist| == n && QuietBut(run, who, i, a, n - 1, n - 1)
    requires var s, u := run[n - 1], run[n];
      GoesOn(s, u, u.threads[i], op, k, a + 1) || TakesEffect(s, u, u.threads[i], op, k)
    ensures Reached(run, who, i, a, n, op, k)
  {
    hide Contents, Before, After, Effect;
    var s, u := run[n - 1], run[n];
    if TakesEffect(s, u, u.threads[i], op, k) {
      assert DoneAt(run, who, i, a, n, n - 1, op, k);
    }
  }

  lemma ReachedCases(run: seq<State>, who: seq<nat>, i: nat, a: nat, n: nat, op: Op, k: Bytes)
    requires n < |run| && i in run[n].threads && !Ended(run[n].threads[i]) && Reached(run, who, i, a, n, op, k)
    ensures a < n
    ensures
      || (Before(run[n].threads[i], op, k, a + 1) && QuietBut(run, who, i, a, n, n))
      || (!op.Get? && After(run[n].threads[i]) && !run[n].threads[i].Idle? && Does(run, who, i, a, n, op, k))
  {
    hide Before, After, QuietBut, Does;
  }

  lemma OwnReached(c: Config, run: seq<State>, who: seq<nat>, i: nat, a: nat, p: nat, op: Op, k: Bytes)
    requires p + 1 < |run| == |who| + 1 && who[p] == i && |run[p].hist| == p + 1 && i in run[p].threads
    requires !Ended(run[p].threads[i]) && Reached(run, who, i, a, p, op, k)
    requires StepBy(c, run[p], run[p + 1], i) && Inv(c, run[p])
    ensures Reached(run, who, i, a, p + 1, op, k)
  {
    hide *;
    ReachedCases(run, who, i, a, p, op, k);
    if Before(run[p].threads[i], op, k, a + 1) && QuietBut(run, who, i, a, p, p) {
      StepEffect(c, run[p], run[p + 1], i, op, k, a + 1);
      OwnBefore(c, run, who, i, a, p + 1, op, k);
    } else {
      StepAfter(c, run[p], run[p + 1], i);
      DoneStays(run, who, i, a, p, op, k);
      ReachedAfter(run, who, i, a, p + 1, op, k);
    }
  }

  lemma ReachedAfter(run: seq<State>, who: seq<nat>, i: nat, a: nat, n: nat, op: Op, k: Bytes)
    requires a < n < |run| && i in run[n].threads && After(run[n].threads[i]) && !op.Get?
    requires Does(run, who, i, a, n, op, k)
    ensures Reached(run, who, i, a, n, op, k)
  {
  }

  /** A thread that is asked to insert or delete k ends idle, and just one of its steps has changed the contents, by k. */
  lemma WriterDoesOneThing(c: Config, run: seq<State>, who: seq<nat>, i: nat, a: nat, b: nat, op: Op, k: Bytes)
    requires PrefixFree(c.space) && RunBy(c, run, who) && Operates(run, who, i, a, b, op, k) && !op.Get?
    requires Ended(run[b].threads[i])
    ensures run[b].threads[i].Idle? && exists m :: DoneAt(run, who, i, a, b, m, op, k)
  {
    hide RunBy, Operates, DoneAt, Contents, QuietBut, PrefixFree;
    EndsThere(c, run, who, i, a, b, op, k);
  }

  lemma EndsThere(c: Config, run: seq<State>, who: seq<nat>, i: nat, a: nat, b: nat, op: Op, k: Bytes)
    requires PrefixFree(c.space) && RunBy(c, run, who) && Operates(run, who, i, a, b, op, k)
    ensures Reached(run, who, i, a, b, op, k)
  {
    hide RunBy, PrefixFree;
    ReachedAt(c, run, who, i, a, b, b, op, k);
  }

  /** A thread that is asked for the keys with the columns of k changes nothing, and ends with all keys with these columns
      that were stored in every state meanwhile, and with none that was stored in no state meanwhile. */
  lemma ReaderReads(c: Config, run: seq<State>, who: seq<nat>, i: nat, a: nat, b: nat, k: Bytes)
    requires PrefixFree(c.space) && RunBy(c, run, who) && Operates(run, who, i, a, b, Get, k)
    requires Ended(run[b].threads[i])
    ensures QuietBut(run, who, i, a, b, b) && run[b].threads[i].Got?
    ensures var found := run[b].threads[i].found;
      && (forall x | SamePrefix(k, x) && (forall j | a < j < b :: x in Contents(run[j].tree)) :: x in found)
      && (forall x | x in found :: SamePrefix(k, x) && exists j :: a < j < b && x in Contents(run[j].tree))
  {
    hide RunBy, QuietBut, PrefixFree, SamePrefix, Contents, Inv;
    EndsThere(c, run, who, i, a, b, Get, k);
    InvAt(c, run, who, b);
    GotRegular(c, run[b], i);
    var Got(q, start, stop, found) := run[b].threads[i];
    var hist := run[b].hist;
    assert forall j | a < j < b :: hist[j] == Contents(run[j].tree);
    forall x | x in found ensures SamePrefix(k, x) && exists j :: a < j < b && x in Contents(run[j].tree) {
      var j :| start <= j < stop && x in hist[j];
      assert x in Contents(run[j].tree);
    }
  }

  // ---- a thread can go on ----

  ghost predicate CanMove(c: Config, s: State, i: nat) {
    exists u :: StepBy(c, s, u, i)
  }

  /** An idle thread can be asked for anything. */
  lemma CanStart(c: Config, s: State, i: nat, op: Op, k: Bytes) returns (u: State)
    requires i in s.threads && s.threads[i].Idle? && k in c.space && (op.Get? ==> IsSearchKey(k))
    ensures StepBy(c, s, u, i) && u.tree == s.tree && i in u.threads && u.threads[i].Descending?
    ensures u.threads[i].op == op && u.threads[i].key == k
  {
    hide Contents, IsSearchKey;
    u := Record(s, i, s.tree, Descending(op, k, s.tree.root, [], |s.hist|));
    assert Start(c, s, u, i);
  }

  /** At its leaf, with nothing to do there: the key to insert is stored already, or the one to delete is not. */
  ghost predicate NothingToDo(s: State, th: Thread) {
    && th.AtLeaf? && th.cur in s.tree.nodes && !HasSplit(s.tree.nodes[th.cur], th.key)
    && match th.op
       case Insert => th.key in Contents(s.tree)
       case Delete => th.key !in Contents(s.tree)
       case Get => true
  }

  ghost function Above(pages: set<Pid>): (p: Pid)
    ensures p != 0 && p !in pages
  {
    1 + Greatest(pages)
  }

  ghost function Greatest(pages: set<Pid>): (g: nat)
    ensures forall p | p in pages :: p <= g
  {
    if pages == {} then 0
    else
      var p :| p in pages;
      var g := Greatest(pages - {p});
      assert forall q | q in pages :: q == p || q in pages - {p};
      if p > g then p else g
  }

  lemma GoesRight(t: Tree, p: Pid, k: Bytes)
    requires TreeOk(t) && p in t.nodes && HasSplit(t.nodes[p], k)
    ensures t.nodes[p].rlink.Some?
  {
    hide Rank, TreeOk;
    RightStep(t, p, k);
  }

  lemma DescendingMoves(c: Config, s: State, i: nat)
    requires TreeOk(s.tree) && i in s.threads && s.threads[i].Descending? && ThreadOk(c, s.tree, s.hist, s.threads[i])
    ensures CanMove(c, s, i)
  {
    hide TreeOk, Contents, HasSplit, UpperBound, Rank, PathOk;
    var Descending(op, k, cur, stack, start) := s.threads[i];
    assert PathOk(s.tree, stack, cur);
    PathPage(s.tree, stack, cur);
    var n := s.tree.nodes[cur];
    var th: Thread;
    if n.level == 0 {
      th := if op.Get? then Getting(k, cur, start, []) else AtLeaf(op, k, cur, stack);
    } else if HasSplit(n, k) {
      GoesRight(s.tree, cur, k);
      th := Descending(op, k, n.rlink.value, stack, start);
    } else {
      WalkDown(s.tree, stack, cur, k);
      th := Descending(op, k, ChildFor(n, k), stack + [cur], start);
    }
    assert Down(s, Record(s, i, s.tree, th), i);
    assert StepBy(c, s, Record(s, i, s.tree, th), i);
  }

  lemma PathPage(t: Tree, stack: seq<Pid>, cur: Pid)
    requires PathOk(t, stack, cur)
    ensures cur in t.nodes && cur in t.low
  {
  }

  lemma RedescendingMoves(c: Config, s: State, i: nat)
    requires TreeOk(s.tree) && i in s.threads && s.threads[i].Redescending? && ThreadOk(c, s.tree, s.hist, s.threads[i])
    ensures CanMove(c, s, i)
  {
    hide TreeOk, Contents, HasSplit, UpperBound, Rank, PathOk, ChildAt;
    var Redescending(target, sep, child, cur, stack) := s.threads[i];
    PathPage(s.tree, stack, cur);
    var n := s.tree.nodes[cur];
    var th: Thread;
    if n.level <= target {
      th := Propagating(sep, child, cur, stack);
    } else if HasSplit(n, sep) {
      GoesRight(s.tree, cur, sep);
      th := Redescending(target, sep, child, n.rlink.value, stack);
    } else {
      WalkDown(s.tree, stack, cur, sep);
      th := Redescending(target, sep, child, ChildFor(n, sep), stack + [cur]);
    }
    assert RedescendDown(s, Record(s, i, s.tree, th), i);
    assert StepBy(c, s, Record(s, i, s.tree, th), i);
  }

  lemma PropagatingMoves(c: Config, s: State, i: nat)
    requires TreeOk(s.tree) && i in s.threads && s.threads[i].Propagating? && ThreadOk(c, s.tree, s.hist, s.threads[i])
    ensures CanMove(c, s, i)
  {
    hide TreeOk, Contents, HasSplit, Rank, PathOk, ChildAt, Put;
    var Propagating(sep, child, cur, stack) := s.threads[i];
    PathPage(s.tree, stack, cur);
    if HasSplit(s.tree.nodes[cur], sep) {
      GoesRight(s.tree, cur, sep);
      var u := Record(s, i, s.tree, Propagating(sep, child, s.tree.nodes[cur].rlink.value, stack));
      assert ParentRight(s, u, i);
      assert StepBy(c, s, u, i);
    } else {
      var u := Record(s, i, Put(s.tree, cur, Entry(sep, child)), Idle);
      assert ParentInsert(s, u, i);
      assert StepBy(c, s, u, i);
    }
  }

  lemma RootCheckMoves(c: Config, s: State, i: nat)
    requires i in s.threads && s.threads[i].RootCheck? && s.tree.root in s.tree.nodes && s.threads[i].pid in s.tree.nodes
    ensures CanMove(c, s, i)
  {
    hide Contents, NewRoot;
    var RootCheck(pid, sep, child) := s.threads[i];
    var r := Above(s.tree.nodes.Keys);
    assert Fresh(s.tree, r);
    var u := if s.tree.root == pid then Record(s, i, NewRoot(s.tree, r, sep, child), Idle)
      else Record(s, i, s.tree, Restart(s.tree.nodes[pid].level, sep, child));
    assert CheckRoot(s, u, i);
    assert StepBy(c, s, u, i);
  }

  lemma RestartMoves(c: Config, s: State, i: nat)
    requires i in s.threads && s.threads[i].Restart? && s.tree.root in s.tree.nodes
    ensures CanMove(c, s, i)
  {
    hide Contents;
    var Restart(level, sep, child) := s.threads[i];
    var u := Record(s, i, s.tree, if s.tree.nodes[s.tree.root].level <= level then Lost(sep, child, s.tree.root)
      else Redescending(level + 1, sep, child, s.tree.root, []));
    assert Redescend(s, u, i);
    assert StepBy(c, s, u, i);
  }

  lemma ReaderMoves(c: Config, s: State, i: nat)
    requires TreeOk(s.tree) && i in s.threads && (s.threads[i].Getting? || s.threads[i].Linking?)
    requires ThreadOk(c, s.tree, s.hist, s.threads[i])
    ensures CanMove(c, s, i)
  {
    hide TreeOk, Contents, HasSplit, Rank, PageMatches, AllBelow, OnlyStored, HighPrefixCmp, Sought;
    if s.threads[i].Getting? {
      var Getting(k, cur, start, found) := s.threads[i];
      var n := s.tree.nodes[cur];
      var th: Thread;
      if HasSplit(n, k) {
        GoesRight(s.tree, cur, k);
        th := Getting(k, n.rlink.value, start, found);
      } else {
        FenceOfPrefix(n, k);
        var more := found + PageMatches(n, k);
        th := if HighPrefixCmp(n, k) then Linking(k, cur, start, more, n.high.value, n.rlink)
          else Got(k, start, |s.hist|, more);
      }
      assert ReadLeaf(s, Record(s, i, s.tree, th), i);
      assert StepBy(c, s, Record(s, i, s.tree, th), i);
    } else {
      var Linking(k, cur, start, found, bound, link) := s.threads[i];
      var next := if c.snapshotLink then link else s.tree.nodes[cur].rlink;
      var th := if next.None? then Got(k, start, |s.hist|, found) else Getting(k, next.value, start, found);
      assert FollowLink(c, s, Record(s, i, s.tree, th), i);
      assert StepBy(c, s, Record(s, i, s.tree, th), i);
    }
  }

  lemma FenceOfPrefix(n: Node, k: Bytes)
    ensures HighPrefixCmp(n, k) ==> n.high.Some?
  {
  }

  /** A writer at a leaf goes right, or writes, unless there is nothing to do. */
  lemma LeafMovesIff(c: Config, s: State, i: nat)
    requires Inv(c, s) && i in s.threads && s.threads[i].AtLeaf?
    ensures CanMove(c, s, i) <==> !NothingToDo(s, s.threads[i])
  {
    hide Inv, TreeOk, Contents, HasSplit, Rank, PathOk, Put, Remove, SplitPut, LeavesIn, AfterSplit, HasKey;
    InvReader(c, s, i);
    var AtLeaf(op, k, cur, stack) := s.threads[i];
    PathPage(s.tree, stack, cur);
    var n := s.tree.nodes[cur];
    if HasSplit(n, k) {
      GoesRight(s.tree, cur, k);
      var u := Record(s, i, s.tree, AtLeaf(op, k, n.rlink.value, stack));
      assert LeafRight(s, u, i);
      assert StepBy(c, s, u, i);
    } else {
      StoredThere(s.tree, cur, k);
      WriterMovesIff(c, s, i);
    }
  }

  lemma StoredThere(t: Tree, p: Pid, k: Bytes)
    requires TreeOk(t) && p in t.nodes && p in t.low && t.nodes[p].level == 0 && Leq(t.low[p], k) && !HasSplit(t.nodes[p], k)
    ensures HasKey(t.nodes[p].entries, k) <==> k in Contents(t)
  {
    hide TreeOk, Rank;
    assert Covers(t, p, k);
    if k in Contents(t) {
      StoredInCover(t, p, k);
    }
  }

  lemma WriterMovesIff(c: Config, s: State, i: nat)
    requires i in s.threads && s.threads[i].AtLeaf? && s.threads[i].cur in s.tree.nodes
    requires !HasSplit(s.tree.nodes[s.threads[i].cur], s.threads[i].key)
    requires HasKey(s.tree.nodes[s.threads[i].cur].entries, s.threads[i].key) <==> s.threads[i].key in Contents(s.tree)
    ensures CanMove(c, s, i) <==> !NothingToDo(s, s.threads[i])
  {
    hide Contents, HasSplit, Rank, Put, Remove, SplitPut, AfterSplit;
    var AtLeaf(op, k, cur, stack) := s.threads[i];
    var n := s.tree.nodes[cur];
    if op.Insert? && !HasKey(n.entries, k) {
      var u := Record(s, i, Put(s.tree, cur, Entry(k, 0)), Idle);
      assert LeafInsert(s, u, i);
      assert StepBy(c, s, u, i);
    } else if op.Delete? && HasKey(n.entries, k) {
      var e :| e in n.entries && e.key == k;
      var j: nat :| j < |n.entries| && n.entries[j] == e;
      var u := Record(s, i, Remove(s.tree, cur, j), Idle);
      assert LeafDelete(s, u, i);
      assert StepBy(c, s, u, i);
    } else if u :| StepBy(c, s, u, i) {
      NoWriterStep(c, s, u, i);
    }
  }

  lemma NoWriterStep(c: Config, s: State, u: State, i: nat)
    requires StepBy(c, s, u, i) && s.threads[i].AtLeaf? && s.threads[i].cur in s.tree.nodes
    requires !HasSplit(s.tree.nodes[s.threads[i].cur], s.threads[i].key)
    ensures s.threads[i].op.Insert? ==> !HasKey(s.tree.nodes[s.threads[i].cur].entries, s.threads[i].key)
    ensures s.threads[i].op.Delete? ==> HasKey(s.tree.nodes[s.threads[i].cur].entries, s.threads[i].key)
    ensures !s.threads[i].op.Get?
  {
    hide Contents, HasSplit, Rank, Put, Remove, SplitPut, AfterSplit;
    if LeafDelete(s, u, i) {
      var n := s.tree.nodes[s.threads[i].cur];
      var j: nat :| j < |n.entries| && n.entries[j].key == s.threads[i].key;
      assert n.entries[j] in n.entries;
    }
  }

  /** In every state of every run, a thread that is at an operation can move, if and only if its separator is not lost, and
      it is not at the leaf of a key it has nothing to do for. */
  lemma CanMoveIff(c: Config, run: seq<State>, who: seq<nat>, i: nat)
    requires PrefixFree(c.space) && run != [] && RunBy(c, run, who) && i in run[|run| - 1].threads
    requires !Ended(run[|run| - 1].threads[i])
    ensures var s := run[|run| - 1];
      CanMove(c, s, i) <==> !s.threads[i].Lost? && !NothingToDo(s, s.threads[i])
  {
    hide Inv, TreeOk, Contents, CanMove, PrefixFree, RunBy, LeavesIn, WalkOk, ChildAt, StepBy;
    InvAt(c, run, who, |run| - 1);
    var s := run[|run| - 1];
    InvReader(c, s, i);
    RootThere(s.tree);
    match s.threads[i]
    case Descending(_, _, _, _, _) => DescendingMoves(c, s, i);
    case AtLeaf(_, _, _, _) => LeafMovesIff(c, s, i);
    case RootCheck(_, _, _) => RootCheckMoves(c, s, i);
    case Restart(_, _, _) => RestartMoves(c, s, i);
    case Redescending(_, _, _, _, _) => RedescendingMoves(c, s, i);
    case Propagating(_, _, _, _) => PropagatingMoves(c, s, i);
    case Lost(_, _, _) => LostStands(c, s, i);
    case Getting(_, _, _, _) => ReaderMoves(c, s, i);
    case Linking(_, _, _, _, _, _) => ReaderMoves(c, s, i);
  }

  lemma LostStands(c: Config, s: State, i: nat)
    requires i in s.threads && s.threads[i].Lost?
    ensures !CanMove(c, s, i)
  {
    hide Contents;
  }
}
