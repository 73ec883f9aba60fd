/** The tree under any number of threads. One step is one latched (or validated) page operation;
    whether a page has room is left open, so the results hold for every page size. */
module BLinkSteps {
  import opened ByteOrder
  import opened PageLayout
  import opened LeafScan
  import opened BLinkTree

  datatype Op = Insert | Delete | Get

  datatype Thread =
    | Idle
    // DropToLevel on the way to a leaf; stack holds the inner pages passed, topmost last
    | Descending(op: Op, key: Bytes, cur: Pid, stack: seq<Pid>, start: nat)
    // about to latch the leaf
    | AtLeaf(op: Op, key: Bytes, cur: Pid, stack: seq<Pid>)
    // a page without a known parent was split and released; root_mtx_ not yet taken
    | RootCheck(pid: Pid, sep: Bytes, child: Pid)
    // the split page was no longer the root: about to read the root again
    | Restart(level: nat, sep: Bytes, child: Pid)
    // DropToLevel(sentinel, target)
    | Redescending(target: nat, sep: Bytes, child: Pid, cur: Pid, stack: seq<Pid>)
    // about to latch the parent
    | Propagating(sep: Bytes, child: Pid, cur: Pid, stack: seq<Pid>)
    // re-descended into a root that is too low: cur, the root, is on the level of the child itself
    | Lost(sep: Bytes, child: Pid, cur: Pid)
    | Getting(key: Bytes, cur: Pid, start: nat, found: seq<Bytes>)
    // the page was read and validated, its fence has the key's columns; about to read the right link
    | Linking(key: Bytes, cur: Pid, start: nat, found: seq<Bytes>, bound: Bytes, link: Option<Pid>)
    | Got(key: Bytes, start: nat, stop: nat, found: seq<Bytes>)

  /** hist records the contents of the leaves after every step. */
  datatype State = State(tree: Tree, threads: map<nat, Thread>, hist: seq<iset<Bytes>>)

  /** atomicRoot: splitting the root and installing the new root are one step, as in the TLA+ specification;
      otherwise they are two, as in the code. snapshotLink: a reader follows the link of the page it
      validated; otherwise it reads the link again, as the code does. */
  datatype Config = Config(atomicRoot: bool, snapshotLink: bool, space: iset<Bytes>)

  ghost predicate Init(s: State) {
    && s.tree == Tree(map[1 := EmptyLeaf()], map[1 := []], 1)
    && (forall i | i in s.threads :: s.threads[i] == Idle)
    && s.hist == [iset{}]
  }

  ghost function Record(s: State, i: nat, t: Tree, th: Thread): State {
    State(t, s.threads[i := th], s.hist + [Contents(t)])
  }

  ghost predicate Start(c: Config, s: State, u: State, i: nat)
    requires i in s.threads
  {
    && s.threads[i].Idle?
    && exists op: Op, k: Bytes ::
         && k in c.space && (op.Get? ==> IsSearchKey(k))
         && u == Record(s, i, s.tree, Descending(op, k, s.tree.root, [], |s.hist|))
  }

  ghost predicate Down(s: State, u: State, i: nat)
    requires i in s.threads
  {
    && s.threads[i].Descending?
    && var Descending(op, k, cur, stack, start) := s.threads[i];
    && cur in s.tree.nodes
    && var n := s.tree.nodes[cur];
    if n.level == 0 then
      u == Record(s, i, s.tree, if op.Get? then Getting(k, cur, start, []) else AtLeaf(op, k, cur, stack))
    else if HasSplit(n, k) then
      n.rlink.Some? && u == Record(s, i, s.tree, Descending(op, k, n.rlink.value, stack, start))
    else
      UpperBound(n.entries, k) > 0
      && u == Record(s, i, s.tree, Descending(op, k, ChildFor(n, k), stack + [cur], start))
  }

  ghost predicate LeafRight(s: State, u: State, i: nat)
    requires i in s.threads
  {
    && s.threads[i].AtLeaf?
    && var AtLeaf(op, k, cur, stack) := s.threads[i];
    && cur in s.tree.nodes && HasSplit(s.tree.nodes[cur], k) && s.tree.nodes[cur].rlink.Some?
    && u == Record(s, i, s.tree, AtLeaf(op, k, s.tree.nodes[cur].rlink.value, stack))
  }

  /** The latched leaf of a writer: covered, and for an insert without the key. */
  ghost predicate LeafReady(s: State, i: nat, op: Op)
    requires i in s.threads
  {
    && s.threads[i].AtLeaf? && s.threads[i].op == op
    && s.threads[i].cur in s.tree.nodes
    && var n := s.tree.nodes[s.threads[i].cur];
       !HasSplit(n, s.threads[i].key) && (op.Insert? ==> !HasKey(n.entries, s.threads[i].key))
  }

  ghost predicate LeafInsert(s: State, u: State, i: nat)
    requires i in s.threads
  {
    && LeafReady(s, i, Insert)
    && u == Record(s, i, Put(s.tree, s.threads[i].cur, Entry(s.threads[i].key, 0)), Idle)
  }

  ghost predicate LeafDelete(s: State, u: State, i: nat)
    requires i in s.threads
  {
    && LeafReady(s, i, Delete)
    && var n := s.tree.nodes[s.threads[i].cur];
       exists j: nat :: j < |n.entries| && n.entries[j].key == s.threads[i].key
                        && u == Record(s, i, Remove(s.tree, s.threads[i].cur, j), Idle)
  }

  /** What a thread does once it has released the page cur it split. */
  ghost predicate AfterSplit(c: Config, s: State, u: State, i: nat, t: Tree, cur: Pid, sep: Bytes, child: Pid,
      stack: seq<Pid>) {
    if stack != [] then
      u == Record(s, i, t, Propagating(sep, child, stack[|stack| - 1], stack[..|stack| - 1]))
    else if c.atomicRoot && cur == t.root then
      exists r: Pid :: Fresh(t, r) && t.root in t.nodes && u == Record(s, i, NewRoot(t, r, sep, child), Idle)
    else
      u == Record(s, i, t, RootCheck(cur, sep, child))
  }

  ghost predicate LeafSplit(c: Config, s: State, u: State, i: nat)
    requires i in s.threads
  {
    && LeafReady(s, i, Insert)
    && var AtLeaf(_, k, cur, stack) := s.threads[i];
       exists sp: nat, q: Pid ::
         && Fresh(s.tree, q) && 1 <= sp < |s.tree.nodes[cur].entries|
         && var t := SplitPut(s.tree, cur, sp, q, Entry(k, 0));
            AfterSplit(c, s, u, i, t, cur, t.low[q], q, stack)
  }

  ghost predicate CheckRoot(s: State, u: State, i: nat)
    requires i in s.threads
  {
    && s.threads[i].RootCheck?
    && var RootCheck(pid, sep, child) := s.threads[i];
    && pid in s.tree.nodes && s.tree.root in s.tree.nodes
    && if s.tree.root == pid then
         exists r: Pid :: Fresh(s.tree, r) && u == Record(s, i, NewRoot(s.tree, r, sep, child), Idle)
       else
         u == Record(s, i, s.tree, Restart(s.tree.nodes[pid].level, sep, child))
  }

  /** DropToLevel(sentinel, level + 1) from the current root. */
  ghost predicate Redescend(s: State, u: State, i: nat)
    requires i in s.threads
  {
    && s.threads[i].Restart?
    && var Restart(level, sep, child) := s.threads[i];
    && s.tree.root in s.tree.nodes
    && u == Record(s, i, s.tree,
                   if s.tree.nodes[s.tree.root].level <= level then Lost(sep, child, s.tree.root)
                   else Redescending(level + 1, sep, child, s.tree.root, []))
  }

  ghost predicate RedescendDown(s: State, u: State, i: nat)
    requires i in s.threads
  {
    && s.threads[i].Redescending?
    && var Redescending(target, sep, child, cur, stack) := s.threads[i];
    && cur in s.tree.nodes
    && var n := s.tree.nodes[cur];
    if n.level <= target then
      u == Record(s, i, s.tree, Propagating(sep, child, cur, stack))
    else if HasSplit(n, sep) then
      n.rlink.Some? && u == Record(s, i, s.tree, Redescending(target, sep, child, n.rlink.value, stack))
    else
      UpperBound(n.entries, sep) > 0
      && u == Record(s, i, s.tree, Redescending(target, sep, child, ChildFor(n, sep), stack + [cur]))
  }

  ghost predicate ParentRight(s: State, u: State, i: nat)
    requires i in s.threads
  {
    && s.threads[i].Propagating?
    && var Propagating(sep, child, cur, stack) := s.threads[i];
    && cur in s.tree.nodes && HasSplit(s.tree.nodes[cur], sep) && s.tree.nodes[cur].rlink.Some?
    && u == Record(s, i, s.tree, Propagating(sep, child, s.tree.nodes[cur].rlink.value, stack))
  }

  ghost predicate ParentInsert(s: State, u: State, i: nat)
    requires i in s.threads
  {
    && s.threads[i].Propagating?
    && var Propagating(sep, child, cur, stack) := s.threads[i];
    && cur in s.tree.nodes && !HasSplit(s.tree.nodes[cur], sep)
    && u == Record(s, i, Put(s.tree, cur, Entry(sep, child)), Idle)
  }

  ghost predicate ParentSplit(c: Config, s: State, u: State, i: nat)
    requires i in s.threads
  {
    && s.threads[i].Propagating?
    && var Propagating(sep, child, cur, stack) := s.threads[i];
    && cur in s.tree.nodes && !HasSplit(s.tree.nodes[cur], sep)
    && exists sp: nat, q: Pid ::
         && Fresh(s.tree, q) && 1 <= sp < |s.tree.nodes[cur].entries|
         && var t := SplitPut(s.tree, cur, sp, q, Entry(sep, child));
            AfterSplit(c, s, u, i, t, cur, t.low[q], q, stack)
  }

  ghost predicate ReadLeaf(s: State, u: State, i: nat)
    requires i in s.threads
  {
    && s.threads[i].Getting?
    && var Getting(k, cur, start, found) := s.threads[i];
    && cur in s.tree.nodes
    && var n := s.tree.nodes[cur];
    if HasSplit(n, k) then
      n.rlink.Some? && u == Record(s, i, s.tree, Getting(k, n.rlink.value, start, found))
    else
      var more := found + PageMatches(n, k);
      u == Record(s, i, s.tree,
                  if HighPrefixCmp(n, k) then Linking(k, cur, start, more, n.high.value, n.rlink)
                  else Got(k, start, |s.hist|, more))
  }

  ghost predicate FollowLink(c: Config, s: State, u: State, i: nat)
    requires i in s.threads
  {
    && s.threads[i].Linking?
    && var Linking(k, cur, start, found, bound, link) := s.threads[i];
    && cur in s.tree.nodes
    && var next := if c.snapshotLink then link else s.tree.nodes[cur].rlink;
       u == Record(s, i, s.tree,
                   if next.None? then Got(k, start, |s.hist|, found) else Getting(k, next.value, start, found))
  }

  ghost predicate Next(c: Config, s: State, u: State) {
    exists i :: i in s.threads && ThreadStep(c, s, u, i)
  }

  ghost predicate ThreadStep(c: Config, s: State, u: State, i: nat)
    requires i in s.threads
  {
    || Start(c, s, u, i) || Down(s, u, i) || LeafRight(s, u, i) || LeafInsert(s, u, i) || LeafDelete(s, u, i)
    || LeafSplit(c, s, u, i) || CheckRoot(s, u, i) || Redescend(s, u, i) || RedescendDown(s, u, i)
    || ParentRight(s, u, i) || ParentInsert(s, u, i) || ParentSplit(c, s, u, i)
    || ReadLeaf(s, u, i) || FollowLink(c, s, u, i)
  }

  ghost predicate IsRun(c: Config, run: seq<State>) {
    run != [] && Init(run[0]) && forall j | 0 <= j < |run| - 1 :: Next(c, run[j], run[j + 1])
  }

  ghost predicate Reachable(c: Config, s: State) {
    exists run :: IsRun(c, run) && run[|run| - 1] == s
  }

  /** What the code goes on to do with a separator that has no page to go to: it inserts the separator, as an
      entry of an inner page, into the page it was led to or into one right of it. Which one is left open, as
      the fences of a leaf are read there in the format of an inner page. */
  ghost predicate LostWrite(c: Config, s: State, u: State, i: nat)
    requires i in s.threads
  {
    && s.threads[i].Lost?
    && var Lost(sep, child, cur) := s.threads[i];
    && cur in s.tree.nodes
    && exists p: Pid ::
      && p in s.tree.nodes && s.tree.nodes[p].level == s.tree.nodes[cur].level
      && (|| u == Record(s, i, Put(s.tree, p, Entry(sep, child)), Idle)
          || exists sp: nat, q: Pid :: LostSplit(c, s, u, i, p, sp, q, Entry(sep, child)))
  }

  ghost predicate LostSplit(c: Config, s: State, u: State, i: nat, p: Pid, sp: nat, q: Pid, e: Entry) {
    && p in s.tree.nodes && Fresh(s.tree, q) && 1 <= sp < |s.tree.nodes[p].entries|
    && var t := SplitPut(s.tree, p, sp, q, e);
       AfterSplit(c, s, u, i, t, p, t.low[q], q, [])
  }

  /** All runs of the code: those above, and those in which lost separators are written. */
  ghost predicate IsFullRun(c: Config, run: seq<State>) {
    && run != [] && Init(run[0])
    && forall j | 0 <= j < |run| - 1 :: Next(c, run[j], run[j + 1]) || WritesLost(c, run[j], run[j + 1])
  }

  ghost predicate WritesLost(c: Config, s: State, u: State) {
    exists i :: i in s.threads && LostWrite(c, s, u, i)
  }
}
