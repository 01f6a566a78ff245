/**
 * The generation compare-and-swap of trie/ctrie/ctrie.go: gcas, gcasRead and
 * gcasComplete, run by any number of threads on any number of I-nodes while snapshots
 * change root generations. Each atomic load, store or CAS is one step.
 *
 * Main nodes and I-nodes are named by the order of their allocation. `values`,
 * `attempts`, `installed`, `matched` and `mismatched` are history variables: no step reads them.
 */
module Gcas {

  /** The `prev` field of a main node: nil, the node it replaces, or a failed node around it. */
  datatype Prev = Committed | Pending(was: nat) | Failed(was: nat)

  datatype INode = INode(main: nat, gen: nat)

  /** What a thread can see of a Ctrie's root. */
  datatype Root = Root(gen: nat, readOnly: bool)

  /** Who called gcasComplete: gcasRead (begun when its I-node had had `since` + 1 values) or gcas. */
  datatype Caller = Reading(since: nat) | Writing(node: nat)

  datatype Thread =
    | Idle
    | ReadMain(i: nat, since: nat)                          // gcasRead: load in.main
    | ReadPrev(i: nat, m: nat, since: nat)                  // gcasRead: load m.prev
    | Holds(i: nat, m: nat, since: nat)                     // gcasRead returned m
    | HoldsRaw(i: nat, m: nat)                              // m loaded without gcasRead
    | Install(i: nat, expected: nat, node: nat)             // gcas: CAS in.main
    | LoadPrev(i: nat, m: nat, caller: Caller)              // gcasComplete: load m.prev
    | LoadRoot(i: nat, m: nat, prev: Prev, caller: Caller)  // gcasComplete: read the root
    | SwapBack(i: nat, m: nat, was: nat, caller: Caller)    // gcasComplete: CAS in.main back
    | Commit(i: nat, m: nat, was: nat, caller: Caller)      // gcasComplete: CAS m.prev to nil
    | Abort(i: nat, m: nat, was: nat, caller: Caller)       // gcasComplete: CAS m.prev to failed
    | Reload(i: nat, caller: Caller)                        // gcasComplete: load in.main again
    | Check(i: nat, node: nat)                              // gcas: load n.prev
    | Wrote(i: nat, node: nat, ok: bool)                    // gcas returned ok
  {
    /** Inside gcasComplete, at a point where the thread works on node `m` of I-node `i`. */
    predicate Completes() { LoadPrev? || LoadRoot? || SwapBack? || Commit? || Abort? }
  }

  datatype State = State(
    nodes: seq<Prev>,
    inodes: seq<INode>,
    roots: seq<Root>,
    threads: seq<Thread>,
    values: seq<seq<nat>>,     // per I-node, the committed nodes it has held, in order
    attempts: set<nat>,        // nodes allocated by gcas
    installed: set<nat>,       // nodes some I-node has pointed to
    matched: set<nat>,         // nodes a helper found the root generation equal for
    mismatched: set<nat>       // nodes a helper found it different, or the trie read-only, for
  )

  /** One trie: a single I-node pointing to a committed node. */
  function Initial(gen: nat, count: nat): (s: State) {
    State([Committed], [INode(0, gen)], [Root(gen, false)], seq(count, _ => Idle), [[0]], {}, {0}, {}, {})
  }

  // ---------------------------------------------------------------- steps

  /** gcasComplete returns `m`: gcasRead passes it on, gcas looks at its own node. */
  function Return(i: nat, m: nat, caller: Caller): (t: Thread) {
    match caller
    case Reading(since) => Holds(i, m, since)
    case Writing(node) => Check(i, node)
  }

  ghost predicate InRange(s: State, t: Thread) {
    && |s.values| == |s.inodes|
    && (!t.Idle? ==> t.i < |s.inodes|)
    && (t.ReadPrev? || t.Completes() ==> t.m < |s.nodes|)
    && (t.Install? || t.Check? ==> t.node < |s.nodes|)
  }

  /** The next atomic action of a running thread; `root` is the trie it works for. */
  ghost function Act(s: State, t: Thread, root: Root): (r: (State, Thread))
    requires InRange(s, t)
  {
    match t
    case Idle => (s, t)
    case Holds(_, _, _) => (s, t)
    case HoldsRaw(_, _) => (s, t)
    case Wrote(_, _, _) => (s, t)
    case ReadMain(i, since) => (s, ReadPrev(i, s.inodes[i].main, since))
    case ReadPrev(i, m, since) =>
      (s, if s.nodes[m].Committed? then Holds(i, m, since) else LoadPrev(i, m, Reading(since)))
    case Install(i, expected, node) =>
      if s.inodes[i].main == expected
      then (s.(inodes := s.inodes[i := s.inodes[i].(main := node)], installed := s.installed + {node}),
            LoadPrev(i, node, Writing(node)))
      else (s, Wrote(i, node, false))
    case LoadPrev(i, m, caller) => (s, LoadRoot(i, m, s.nodes[m], caller))
    case LoadRoot(i, m, prev, caller) =>
      (match prev
       case Committed => (s, Return(i, m, caller))
       case Failed(was) => (s, SwapBack(i, m, was, caller))
       case Pending(was) =>
         if root.gen == s.inodes[i].gen && !root.readOnly
         then (s.(matched := s.matched + {m}), Commit(i, m, was, caller))
         else (s.(mismatched := s.mismatched + {m}), Abort(i, m, was, caller)))
    case SwapBack(i, m, was, caller) =>
      if s.inodes[i].main == m
      then (s.(inodes := s.inodes[i := s.inodes[i].(main := was)]), Return(i, was, caller))
      else (s, Reload(i, caller))
    case Commit(i, m, was, caller) =>
      if s.nodes[m] == Pending(was)
      then (s.(nodes := s.nodes[m := Committed], values := s.values[i := s.values[i] + [m]]), Return(i, m, caller))
      else (s, LoadPrev(i, m, caller))
    case Abort(i, m, was, caller) =>
      (if s.nodes[m] == Pending(was) then s.(nodes := s.nodes[m := Failed(was)]) else s, Reload(i, caller))
    case Reload(i, caller) => (s, LoadPrev(i, s.inodes[i].main, caller))
    case Check(i, node) => (s, Wrote(i, node, s.nodes[node].Committed?))
  }

  ghost predicate Moves(s: State, s': State, k: nat, root: Root) {
    && k < |s.threads| && root in s.roots && InRange(s, s.threads[k])
    && var (mid, t) := Act(s, s.threads[k], root);
       s' == mid.(threads := s.threads[k := t])
  }

  /** A thread outside gcas and gcasRead starts a gcasRead of I-node `i`. */
  ghost predicate BeginsRead(s: State, s': State, k: nat, i: nat) {
    && k < |s.threads| && i < |s.inodes| && i < |s.values| && |s.values[i]| > 0
    && (s.threads[k].Idle? || s.threads[k].Holds? || s.threads[k].HoldsRaw? || s.threads[k].Wrote?)
    && s' == s.(threads := s.threads[k := ReadMain(i, |s.values[i]| - 1)])
  }

  /** As cleanParent does, a thread loads in.main without going through gcasRead. */
  ghost predicate LoadsRaw(s: State, s': State, k: nat, i: nat) {
    && k < |s.threads| && i < |s.inodes|
    && (s.threads[k].Idle? || s.threads[k].Holds? || s.threads[k].HoldsRaw? || s.threads[k].Wrote?)
    && s' == s.(threads := s.threads[k := HoldsRaw(i, s.inodes[i].main)])
  }

  /** gcas begins: a new node is allocated and its `prev` set to the node it should replace. */
  ghost predicate BeginsWrite(s: State, s': State, k: nat) {
    && k < |s.threads| && (s.threads[k].Holds? || s.threads[k].HoldsRaw?)
    && var t := s.threads[k];
       s' == s.(nodes := s.nodes + [Pending(t.m)], attempts := s.attempts + {|s.nodes|},
                threads := s.threads[k := Install(t.i, t.m, |s.nodes|)])
  }

  /** copyToGen: a new I-node shares the node a gcasRead returned. */
  ghost predicate CopiesINode(s: State, s': State, k: nat, gen: nat) {
    && k < |s.threads| && s.threads[k].Holds?
    && s' == s.(inodes := s.inodes + [INode(s.threads[k].m, gen)], values := s.values + [[s.threads[k].m]])
  }

  /** newMainNode: a new I-node over a new main node. */
  ghost predicate NewINode(s: State, s': State, gen: nat) {
    s' == s.(nodes := s.nodes + [Committed], inodes := s.inodes + [INode(|s.nodes|, gen)],
             values := s.values + [[|s.nodes|]], installed := s.installed + {|s.nodes|})
  }

  /** A snapshot: some trie's root changes, or another trie appears. */
  ghost predicate RootsChange(s: State, s': State) {
    s' == s.(roots := s'.roots)
  }

  /** Direct loads of in.main happen at all times; `raw` says whether they may meet a node that is not committed. */
  ghost predicate Next(s: State, s': State, raw: bool) {
    || (exists k, root :: Moves(s, s', k, root))
    || (exists k, i :: BeginsRead(s, s', k, i))
    || (exists k :: BeginsWrite(s, s', k))
    || (exists k, gen :: CopiesINode(s, s', k, gen))
    || (exists gen :: NewINode(s, s', gen))
    || RootsChange(s, s')
    || (exists k: nat, i: nat :: LoadsRaw(s, s', k, i) && (raw || IsCommitted(s, s.inodes[i].main)))
  }

  ghost predicate IsCommitted(s: State, n: nat) {
    n < |s.nodes| && s.nodes[n].Committed?
  }

  ghost predicate IsRun(run: seq<State>, raw: bool) {
    && |run| > 0
    && |run[0].inodes| == 1 && run[0] == Initial(run[0].inodes[0].gen, |run[0].threads|)
    && forall k: nat :: k + 1 < |run| ==> StepAt(run, raw, k)
  }

  ghost predicate StepAt(run: seq<State>, raw: bool, k: nat)
    requires k + 1 < |run|
  {
    Next(run[k], run[k + 1], raw)
  }

  // ------------------------------------------- what holds with raw loads too

  /** `now` is a later value of a `prev` field that was once `before`. */
  predicate Later(before: Prev, now: Prev) {
    now == before || (before.Pending? && (now == Committed || now == Failed(before.was)))
  }

  /** The node a gcas in progress or just over is for. */
  function Mine(t: Thread): (n: set<nat>) {
    match t
    case Install(_, _, node) => {node}
    case Check(_, node) => {node}
    case Wrote(_, node, _) => {node}
    case LoadPrev(_, _, Writing(node)) => {node}
    case LoadRoot(_, _, _, Writing(node)) => {node}
    case SwapBack(_, _, _, Writing(node)) => {node}
    case Commit(_, _, _, Writing(node)) => {node}
    case Abort(_, _, _, Writing(node)) => {node}
    case Reload(_, Writing(node)) => {node}
    case _ => {}
  }

  ghost predicate Known(s: State, i: nat, m: nat) {
    i < |s.inodes| && m in s.installed && m < |s.nodes|
  }

  /** The node of a gcas that is inside gcasComplete: being completed or already resolved. */
  ghost predicate CallerInv(s: State, caller: Caller, resolved: bool) {
    caller.Writing? ==>
      caller.node < |s.nodes| && caller.node in s.installed && (resolved ==> !s.nodes[caller.node].Pending?)
  }

  ghost predicate ThreadInv(s: State, t: Thread) {
    Mine(t) <= s.attempts &&
    match t
    case Idle => true
    case ReadMain(i, _) => i < |s.inodes|
    case ReadPrev(i, m, _) => Known(s, i, m)
    case Holds(i, m, _) => Known(s, i, m)
    case HoldsRaw(i, m) => Known(s, i, m)
    case Install(i, expected, node) =>
      Known(s, i, expected) && node < |s.nodes| && node !in s.installed && s.nodes[node] == Pending(expected)
    case LoadPrev(i, m, caller) => Known(s, i, m) && CallerInv(s, caller, caller != Writing(m))
    case LoadRoot(i, m, prev, caller) =>
      Known(s, i, m) && Later(prev, s.nodes[m]) && CallerInv(s, caller, caller != Writing(m))
      && (!prev.Committed? ==> Known(s, i, prev.was))
    case SwapBack(i, m, was, caller) =>
      Known(s, i, m) && Known(s, i, was) && s.nodes[m] == Failed(was) && CallerInv(s, caller, true)
    case Commit(i, m, was, caller) =>
      Known(s, i, m) && Known(s, i, was) && Later(Pending(was), s.nodes[m]) && m in s.matched
      && CallerInv(s, caller, caller != Writing(m))
    case Abort(i, m, was, caller) =>
      Known(s, i, m) && Known(s, i, was) && Later(Pending(was), s.nodes[m]) && m in s.mismatched
      && CallerInv(s, caller, caller != Writing(m))
    case Reload(i, caller) => i < |s.inodes| && CallerInv(s, caller, true)
    case Check(i, node) => Known(s, i, node) && !s.nodes[node].Pending?
    case Wrote(i, node, ok) =>
      i < |s.inodes| && node < |s.nodes| && (ok <==> s.nodes[node].Committed?)
      && (node in s.installed ==> !s.nodes[node].Pending?)
  }

  ghost predicate NodeInv(s: State, n: nat)
    requires n < |s.nodes|
  {
    && (!s.nodes[n].Committed? ==> s.nodes[n].was < |s.nodes| && s.nodes[n].was in s.installed)
    && (n !in s.installed ==> s.nodes[n].Pending?)
    && (s.nodes[n].Failed? ==> n in s.mismatched)
    && (s.nodes[n].Committed? && n in s.attempts ==> n in s.matched)
  }

  ghost predicate Inv(s: State) {
    && |s.values| == |s.inodes|
    && (forall i :: 0 <= i < |s.inodes| ==> Known(s, i, s.inodes[i].main))
    && (forall i :: 0 <= i < |s.values| ==> |s.values[i]| > 0)
    && (forall n :: n in s.installed ==> n < |s.nodes|)
    && (forall n :: n in s.attempts ==> n < |s.nodes|)
    && (forall n :: 0 <= n < |s.nodes| ==> NodeInv(s, n))
    && (forall k :: 0 <= k < |s.threads| ==> ThreadInv(s, s.threads[k]))
    && (forall j, k :: 0 <= j < k < |s.threads| ==> Mine(s.threads[j]) !! Mine(s.threads[k]))
  }

  // -------------------------------------------------- keeping the invariant

  /** What no step undoes: prev fields only move on, and everything else only grows. */
  ghost predicate Extends(s: State, s': State) {
    && |s.nodes| <= |s'.nodes| && |s.inodes| <= |s'.inodes|
    && (forall n :: 0 <= n < |s.nodes| ==> Later(s.nodes[n], s'.nodes[n]))
    && s.attempts <= s'.attempts && s.installed <= s'.installed
    && s.matched <= s'.matched && s.mismatched <= s'.mismatched
  }

  /** A node that is not yet installed is still only its writer's. */
  ghost predicate StaysPrivate(s: State, s': State, n: nat) {
    n < |s.nodes| && n !in s.installed ==>
      n !in s'.installed && n < |s'.nodes| && s'.nodes[n] == s.nodes[n]
  }

  lemma {:induction false} ThreadStable(s: State, s': State, t: Thread)
    requires Extends(s, s') && ThreadInv(s, t)
    requires forall n :: n in Mine(t) ==> StaysPrivate(s, s', n)
    ensures ThreadInv(s', t)
  {
    if t.Install? || t.Wrote? {
      assert t.node in Mine(t);
    }
  }

  ghost predicate OnlyThread(s: State, s': State, k: nat) {
    k < |s.threads| && |s'.threads| == |s.threads| &&
    forall j :: 0 <= j < |s.threads| && j != k ==> s'.threads[j] == s.threads[j]
  }

  /** The shared part of the invariant. */
  ghost predicate StoreInv(s: State) {
    && |s.values| == |s.inodes|
    && (forall i :: 0 <= i < |s.inodes| ==> Known(s, i, s.inodes[i].main))
    && (forall i :: 0 <= i < |s.values| ==> |s.values[i]| > 0)
    && (forall n :: n in s.installed ==> n < |s.nodes|)
    && (forall n :: n in s.attempts ==> n < |s.nodes|)
    && (forall n :: 0 <= n < |s.nodes| ==> NodeInv(s, n))
  }

  lemma {:induction false} MineInRange(s: State, t: Thread, n: nat)
    requires ThreadInv(s, t) && n in Mine(t)
    ensures n < |s.nodes|
  {
  }

  /** A step of thread `k`: what has to be checked is the store and thread `k` itself. */
  lemma {:induction false} StepOf(s: State, s': State, k: nat)
    requires Inv(s) && Extends(s, s') && OnlyThread(s, s', k) && StoreInv(s')
    requires ThreadInv(s', s'.threads[k])
    requires forall n :: n in Mine(s'.threads[k]) ==> n in Mine(s.threads[k]) || n >= |s.nodes|
    requires forall n :: 0 <= n < |s.nodes| && n !in Mine(s.threads[k]) ==> StaysPrivate(s, s', n)
    ensures Inv(s')
  {
    forall j | 0 <= j < |s.threads| && j != k ensures ThreadInv(s', s'.threads[j]) {
      assert Mine(s.threads[j]) !! Mine(s.threads[k]) by { assert j < k || k < j; }
      forall n | n in Mine(s.threads[j]) ensures StaysPrivate(s, s', n) {
        MineInRange(s, s.threads[j], n);
      }
      ThreadStable(s, s', s.threads[j]);
    }
    forall i, j | 0 <= i < j < |s'.threads| ensures Mine(s'.threads[i]) !! Mine(s'.threads[j]) {
      assert Mine(s.threads[i]) !! Mine(s.threads[j]);
      forall n | n in Mine(s'.threads[i]) && n in Mine(s'.threads[j]) ensures false {
        if i != k { MineInRange(s, s.threads[i], n); }
        if j != k { MineInRange(s, s.threads[j], n); }
      }
    }
  }

  lemma {:induction false} InstallKeepsInv(s: State, s': State, k: nat, root: Root)
    requires Inv(s) && Moves(s, s', k, root) && s.threads[k].Install?
    ensures Extends(s, s') && Inv(s')
  {
    var t := s.threads[k];
    assert ThreadInv(s, t);
    assert StoreInv(s') by {
      forall n | 0 <= n < |s'.nodes| ensures NodeInv(s', n) { assert NodeInv(s, n); }
    }
    StepOf(s, s', k);
  }

  lemma {:induction false} ResolveKeepsInv(s: State, s': State, k: nat, root: Root)
    requires Inv(s) && Moves(s, s', k, root) && (s.threads[k].Commit? || s.threads[k].Abort?)
    ensures Extends(s, s') && Inv(s')
  {
    var t := s.threads[k];
    assert ThreadInv(s, t);
    assert StoreInv(s') by {
      forall n | 0 <= n < |s'.nodes| ensures NodeInv(s', n) { assert NodeInv(s, n); }
    }
    StepOf(s, s', k);
  }

  lemma {:induction false} SwapBackKeepsInv(s: State, s': State, k: nat, root: Root)
    requires Inv(s) && Moves(s, s', k, root) && s.threads[k].SwapBack?
    ensures Extends(s, s') && Inv(s')
  {
    var t := s.threads[k];
    assert ThreadInv(s, t);
    assert StoreInv(s') by {
      forall n | 0 <= n < |s'.nodes| ensures NodeInv(s', n) { assert NodeInv(s, n); }
    }
    StepOf(s, s', k);
  }

  lemma {:induction false} LoadKeepsInv(s: State, s': State, k: nat, root: Root)
    requires Inv(s) && Moves(s, s', k, root)
    requires !s.threads[k].Install? && !s.threads[k].SwapBack? && !s.threads[k].Commit? && !s.threads[k].Abort?
    ensures Extends(s, s') && Inv(s')
  {
    LoadThread(s, s', k, root);
    assert StoreInv(s') by {
      forall n | 0 <= n < |s'.nodes| ensures NodeInv(s', n) { assert NodeInv(s, n); }
    }
    StepOf(s, s', k);
  }

  lemma {:induction false} LoadThread(s: State, s': State, k: nat, root: Root)
    requires Inv(s) && Moves(s, s', k, root)
    requires !s.threads[k].Install? && !s.threads[k].SwapBack? && !s.threads[k].Commit? && !s.threads[k].Abort?
    ensures s' == s.(threads := s'.threads, matched := s'.matched, mismatched := s'.mismatched)
    ensures s.matched <= s'.matched && s.mismatched <= s'.mismatched
    ensures OnlyThread(s, s', k) && ThreadInv(s', s'.threads[k])
    ensures forall n :: n in Mine(s'.threads[k]) ==> n in Mine(s.threads[k])
  {
    var t := s.threads[k];
    assert ThreadInv(s, t);
    if t.LoadPrev? || t.LoadRoot? { assert NodeInv(s, t.m); }
  }

  lemma {:induction false} MoveKeepsInv(s: State, s': State, k: nat, root: Root)
    requires Inv(s) && Moves(s, s', k, root)
    ensures Extends(s, s') && Inv(s')
  {
    var t := s.threads[k];
    if t.Install? { InstallKeepsInv(s, s', k, root); }
    else if t.SwapBack? { SwapBackKeepsInv(s, s', k, root); }
    else if t.Commit? || t.Abort? { ResolveKeepsInv(s, s', k, root); }
    else { LoadKeepsInv(s, s', k, root); }
  }

  /** Beginning a read, a raw load or a write. */
  lemma {:induction false} BeginKeepsInv(s: State, s': State, k: nat, i: nat)
    requires Inv(s) && (BeginsRead(s, s', k, i) || LoadsRaw(s, s', k, i) || BeginsWrite(s, s', k))
    ensures Extends(s, s') && Inv(s')
  {
    assert ThreadInv(s, s.threads[k]);
    assert StoreInv(s') by {
      forall n | 0 <= n < |s'.nodes| ensures NodeInv(s', n) { if n < |s.nodes| { assert NodeInv(s, n); } }
    }
    StepOf(s, s', k);
  }

  /** New I-nodes and changed roots: no thread moves. */
  lemma {:induction false} OutsideKeepsInv(s: State, s': State, k: nat, gen: nat)
    requires Inv(s) && (CopiesINode(s, s', k, gen) || NewINode(s, s', gen) || RootsChange(s, s'))
    ensures Extends(s, s') && Inv(s')
  {
    forall n | 0 <= n < |s'.nodes| ensures NodeInv(s', n) { if n < |s.nodes| { assert NodeInv(s, n); } }
    forall j | 0 <= j < |s.threads| ensures ThreadInv(s', s'.threads[j]) {
      assert ThreadInv(s, s.threads[j]);
      forall n | n in Mine(s.threads[j]) ensures StaysPrivate(s, s', n) { MineInRange(s, s.threads[j], n); }
      ThreadStable(s, s', s.threads[j]);
    }
    if k < |s.threads| { assert ThreadInv(s, s.threads[k]); }
  }

  lemma {:induction false} StepKeepsInv(s: State, s': State, raw: bool)
    requires Inv(s) && Next(s, s', raw)
    ensures Extends(s, s') && Inv(s')
  {
    if k, root :| Moves(s, s', k, root) { MoveKeepsInv(s, s', k, root); }
    else if k, i :| BeginsRead(s, s', k, i) { BeginKeepsInv(s, s', k, i); }
    else if k :| BeginsWrite(s, s', k) { BeginKeepsInv(s, s', k, 0); }
    else if k, gen :| CopiesINode(s, s', k, gen) { OutsideKeepsInv(s, s', k, gen); }
    else if gen :| NewINode(s, s', gen) { OutsideKeepsInv(s, s', 0, gen); }
    else if RootsChange(s, s') { OutsideKeepsInv(s, s', 0, 0); }
    else if k, i :| LoadsRaw(s, s', k, i) { BeginKeepsInv(s, s', k, i); }
  }

  lemma {:induction false} RunInv(run: seq<State>, raw: bool, k: nat)
    requires IsRun(run, raw) && k < |run|
    ensures Inv(run[k])
  {
    if k > 0 {
      RunInv(run, raw, k - 1);
      assert StepAt(run, raw, k - 1);
      StepKeepsInv(run[k - 1], run[k], raw);
    }
  }

  lemma {:induction false} OneStepOn(run: seq<State>, raw: bool, k: nat)
    requires IsRun(run, raw) && k + 1 < |run|
    ensures Extends(run[k], run[k + 1])
  {
    RunInv(run, raw, k);
    assert StepAt(run, raw, k);
    StepKeepsInv(run[k], run[k + 1], raw);
  }

  lemma {:induction false} PrevMovesOn(run: seq<State>, raw: bool, a: nat, b: nat, n: nat)
    requires IsRun(run, raw) && a <= b < |run| && n < |run[a].nodes|
    ensures n < |run[b].nodes| && Later(run[a].nodes[n], run[b].nodes[n])
    decreases b - a
  {
    if a < b {
      PrevMovesOn(run, raw, a, b - 1, n);
      OneStepOn(run, raw, b - 1);
      assert Later(run[b - 1].nodes[n], run[b].nodes[n]);
    }
  }

  /**
   * Every attempt is resolved at most once, for good, and as an answer to the node it
   * meant to replace: a prev field that has left its first value never changes again.
   */
  lemma {:induction false} ResolvesOnce(run: seq<State>, raw: bool, a: nat, b: nat, n: nat)
    requires IsRun(run, raw) && a <= b < |run| && n < |run[a].nodes|
    ensures n < |run[b].nodes| && Later(run[a].nodes[n], run[b].nodes[n])
    ensures !run[a].nodes[n].Pending? ==> run[b].nodes[n] == run[a].nodes[n]
  {
    PrevMovesOn(run, raw, a, b, n);
  }

  /** A node that was never installed, and that no gcas is going to install. */
  ghost predicate Refused(s: State, n: nat) {
    n < |s.nodes| && n !in s.installed &&
    forall k :: 0 <= k < |s.threads| && s.threads[k].Install? ==> s.threads[k].node != n
  }

  lemma {:induction false} MoveKeepsRefused(s: State, s': State, k: nat, root: Root, n: nat)
    requires Inv(s) && Moves(s, s', k, root) && Refused(s, n)
    ensures Refused(s', n)
  {
    var t := s.threads[k];
    forall j | 0 <= j < |s'.threads| && s'.threads[j].Install? ensures s'.threads[j].node != n {
      assert j != k ==> s'.threads[j] == s.threads[j];
    }
  }

  lemma {:induction false} StepKeepsRefused(s: State, s': State, raw: bool, n: nat)
    requires Inv(s) && Next(s, s', raw) && Refused(s, n)
    ensures Refused(s', n)
  {
    if k, root :| Moves(s, s', k, root) { MoveKeepsRefused(s, s', k, root, n); }
  }

  lemma {:induction false} RefusedForGood(run: seq<State>, raw: bool, a: nat, b: nat, n: nat)
    requires IsRun(run, raw) && a <= b < |run| && Refused(run[a], n)
    ensures Refused(run[b], n)
    decreases b - a
  {
    if a < b {
      RefusedForGood(run, raw, a, b - 1, n);
      RefusedOneStepOn(run, raw, b - 1, n);
    }
  }

  lemma {:induction false} RefusedOneStepOn(run: seq<State>, raw: bool, k: nat, n: nat)
    requires IsRun(run, raw) && k + 1 < |run| && Refused(run[k], n)
    ensures Refused(run[k + 1], n)
  {
    RunInv(run, raw, k);
    assert StepAt(run, raw, k);
    StepKeepsRefused(run[k], run[k + 1], raw, n);
  }

  lemma {:induction false} WroteIsResolved(s: State, k: nat)
    requires Inv(s) && k < |s.threads| && s.threads[k].Wrote?
    ensures var t := s.threads[k];
      && t.node < |s.nodes| && (t.ok <==> s.nodes[t.node].Committed?)
      && (!s.nodes[t.node].Pending? || Refused(s, t.node))
  {
    var t := s.threads[k];
    assert ThreadInv(s, t);
    forall j | 0 <= j < |s.threads| && s.threads[j].Install? ensures s.threads[j].node != t.node {
      assert t.node in Mine(t) && s.threads[j].node in Mine(s.threads[j]);
      assert j < k ==> Mine(s.threads[j]) !! Mine(s.threads[k]);
      assert k < j ==> Mine(s.threads[k]) !! Mine(s.threads[j]);
    }
  }

  /** gcas answers true exactly when its node is committed, then and ever after. */
  lemma {:induction false} TrueIffCommitted(run: seq<State>, raw: bool, a: nat, b: nat, k: nat)
    requires IsRun(run, raw) && a <= b < |run|
    requires k < |run[a].threads| && run[a].threads[k].Wrote?
    ensures run[a].threads[k].node < |run[b].nodes|
    ensures run[a].threads[k].ok <==> run[b].nodes[run[a].threads[k].node].Committed?
  {
    var n := run[a].threads[k].node;
    RunInv(run, raw, a);
    WroteIsResolved(run[a], k);
    ResolvesOnce(run, raw, a, b, n);
    if run[a].nodes[n].Pending? {
      RefusedForGood(run, raw, a, b, n);
      RunInv(run, raw, b);
      assert NodeInv(run[b], n);
    }
  }

  // ------------------------- what holds while direct loads meet committed nodes

  /** The value of an I-node: its main node, or the one a pending or failed attempt displaced. */
  ghost function Value(s: State, i: nat): (v: nat)
    requires i < |s.inodes| && s.inodes[i].main < |s.nodes|
  {
    var m := s.inodes[i].main;
    if s.nodes[m].Committed? then m else s.nodes[m].was
  }

  /** `m` was the value of I-node `i` at some moment since it had had `since` + 1 values. */
  ghost predicate SeenSince(s: State, i: nat, m: nat, since: nat) {
    i < |s.values| && since < |s.values[i]| && m in s.values[i][since..]
  }

  /** A reader's `m`: once committed, it has been the value since the read began. */
  ghost predicate ReaderInv(s: State, i: nat, m: nat, caller: Caller) {
    caller.Reading? ==>
      i < |s.values| && caller.since < |s.values[i]| && (IsCommitted(s, m) ==> SeenSince(s, i, m, caller.since))
  }

  /** A pending node a thread works on is where it was installed. */
  ghost predicate StillThere(s: State, i: nat, m: nat) {
    i < |s.inodes| && m < |s.nodes| && (s.nodes[m].Pending? ==> s.inodes[i].main == m)
  }

  ghost predicate StrictThread(s: State, t: Thread) {
    match t
    case ReadMain(i, since) => i < |s.values| && since < |s.values[i]|
    case ReadPrev(i, m, since) => StillThere(s, i, m) && ReaderInv(s, i, m, Reading(since))
    case Holds(i, m, since) => IsCommitted(s, m) && SeenSince(s, i, m, since)
    case HoldsRaw(_, m) => IsCommitted(s, m)
    case Install(_, expected, _) => IsCommitted(s, expected)
    case LoadPrev(i, m, caller) => StillThere(s, i, m) && ReaderInv(s, i, m, caller)
    case LoadRoot(i, m, prev, caller) =>
      StillThere(s, i, m) && ReaderInv(s, i, m, caller) && (!prev.Committed? ==> IsCommitted(s, prev.was))
    case SwapBack(i, m, was, caller) => ReaderInv(s, i, m, caller) && IsCommitted(s, was)
    case Commit(i, m, was, caller) => StillThere(s, i, m) && ReaderInv(s, i, m, caller) && IsCommitted(s, was)
    case Abort(i, m, was, caller) => StillThere(s, i, m) && ReaderInv(s, i, m, caller) && IsCommitted(s, was)
    case Reload(i, caller) => caller.Reading? ==> i < |s.values| && caller.since < |s.values[i]|
    case _ => true
  }

  /** Only committed nodes are displaced, and only committed nodes are shared. */
  ghost predicate StrictStore(s: State) {
    && (forall n :: 0 <= n < |s.nodes| && !s.nodes[n].Committed? ==> IsCommitted(s, s.nodes[n].was))
    && (forall i, j :: 0 <= i < j < |s.inodes| && s.inodes[i].main == s.inodes[j].main
          ==> IsCommitted(s, s.inodes[i].main))
    && (forall i :: 0 <= i < |s.inodes| ==>
          i < |s.values| && |s.values[i]| > 0 && s.inodes[i].main < |s.nodes|
          && s.values[i][|s.values[i]| - 1] == Value(s, i))
  }

  ghost predicate Strict(s: State) {
    Inv(s) && StrictStore(s) && forall k :: 0 <= k < |s.threads| ==> StrictThread(s, s.threads[k])
  }

  /** What a step does to attempts that sit pending in their I-node. */
  ghost predicate Orderly(s: State, s': State) {
    && |s.inodes| <= |s.values| <= |s'.values|
    && |s.inodes| <= |s'.inodes| && |s.nodes| <= |s'.nodes|
    && (forall i :: 0 <= i < |s.values| ==> s.values[i] <= s'.values[i])
    && (forall i :: 0 <= i < |s.inodes| && s.inodes[i].main < |s.nodes| && s.nodes[s.inodes[i].main].Pending? ==>
          var m := s.inodes[i].main;
          && (s'.nodes[m].Pending? ==> s'.inodes[i].main == m)
          && (s'.nodes[m].Committed? ==> m in s'.values[i][|s.values[i]|..]))
  }

  lemma {:induction false} SeenStable(s: State, s': State, i: nat, m: nat, since: nat)
    requires Orderly(s, s') && i < |s.values| && since < |s.values[i]|
    ensures since < |s'.values[i]|
    ensures SeenSince(s, i, m, since) ==> SeenSince(s', i, m, since)
    ensures m in s'.values[i][|s.values[i]|..] ==> SeenSince(s', i, m, since)
  {
    var a, b := s.values[i], s'.values[i];
    assert a <= b;
    if m in a[since..] {
      var x :| 0 <= x < |a[since..]| && a[since..][x] == m;
      assert b[since..][x] == m;
    }
    if m in b[|a|..] {
      var x :| 0 <= x < |b[|a|..]| && b[|a|..][x] == m;
      assert b[since..][|a| - since + x] == m;
    }
  }

  lemma {:induction false} ReaderStable(s: State, s': State, i: nat, m: nat, caller: Caller)
    requires Extends(s, s') && Orderly(s, s') && m < |s.nodes|
    requires StillThere(s, i, m) || s.nodes[m].Failed?
    requires ReaderInv(s, i, m, caller)
    ensures ReaderInv(s', i, m, caller)
    ensures StillThere(s, i, m) ==> StillThere(s', i, m)
  {
    if caller.Reading? { SeenStable(s, s', i, m, caller.since); }
  }

  lemma {:induction false} StrictThreadStable(s: State, s': State, t: Thread)
    requires Extends(s, s') && Orderly(s, s') && ThreadInv(s, t) && StrictThread(s, t)
    ensures StrictThread(s', t)
  {
    match t
    case ReadMain(i, since) => SeenStable(s, s', i, 0, since);
    case ReadPrev(i, m, since) => ReaderStable(s, s', i, m, Reading(since));
    case Holds(i, m, since) => SeenStable(s, s', i, m, since);
    case LoadPrev(i, m, caller) => ReaderStable(s, s', i, m, caller);
    case LoadRoot(i, m, prev, caller) => ReaderStable(s, s', i, m, caller);
    case SwapBack(i, m, was, caller) => ReaderStable(s, s', i, m, caller);
    case Commit(i, m, was, caller) => ReaderStable(s, s', i, m, caller);
    case Abort(i, m, was, caller) => ReaderStable(s, s', i, m, caller);
    case Reload(i, caller) => if caller.Reading? { SeenStable(s, s', i, 0, caller.since); }
    case _ =>
  }

  lemma {:induction false} StrictStepOf(s: State, s': State, k: nat)
    requires Strict(s) && Extends(s, s') && Inv(s') && StrictStore(s') && Orderly(s, s')
    requires OnlyThread(s, s', k) && StrictThread(s', s'.threads[k])
    ensures Strict(s')
  {
    forall j | 0 <= j < |s.threads| && j != k ensures StrictThread(s', s'.threads[j]) {
      assert ThreadInv(s, s.threads[j]);
      StrictThreadStable(s, s', s.threads[j]);
    }
  }

  lemma {:induction false} InstallStore(s: State, s': State, i: nat, node: nat)
    requires StrictStore(s) && i < |s.inodes| <= |s.values| && node < |s.nodes| && IsCommitted(s, s.inodes[i].main)
    requires s.nodes[node] == Pending(s.inodes[i].main) && (forall j :: 0 <= j < |s.inodes| ==> s.inodes[j].main != node)
    requires s'.nodes == s.nodes && s'.values == s.values && s'.inodes == s.inodes[i := s.inodes[i].(main := node)]
    ensures StrictStore(s') && Orderly(s, s')
  {
    assert Value(s', i) == Value(s, i);
    forall j | 0 <= j < |s.inodes| && j != i ensures s'.inodes[j] == s.inodes[j] && Value(s', j) == Value(s, j) {
    }
  }

  lemma {:induction false} StrictInstall(s: State, s': State, k: nat, root: Root)
    requires Strict(s) && Moves(s, s', k, root) && s.threads[k].Install?
    ensures Strict(s')
  {
    var t := s.threads[k];
    MoveKeepsInv(s, s', k, root);
    assert ThreadInv(s, t) && StrictThread(s, t);
    if s.inodes[t.i].main == t.expected {
      forall j | 0 <= j < |s.inodes| ensures s.inodes[j].main != t.node { assert Known(s, j, s.inodes[j].main); }
      InstallStore(s, s', t.i, t.node);
    } else {
      UnchangedStore(s, s');
    }
    StrictStepOf(s, s', k);
  }

  lemma {:induction false} UnchangedStore(s: State, s': State)
    requires StrictStore(s) && s'.nodes == s.nodes && s'.inodes == s.inodes && s'.values == s.values && |s.inodes| <= |s.values|
    ensures StrictStore(s') && Orderly(s, s')
  {
    forall i | 0 <= i < |s.inodes| ensures Value(s', i) == Value(s, i) {}
  }

  /** The value of an I-node is the last of its values, so it has been seen. */
  lemma {:induction false} ValueSeen(s: State, i: nat, since: nat)
    requires StrictStore(s) && i < |s.inodes| && i < |s.values| && since < |s.values[i]|
    ensures SeenSince(s, i, Value(s, i), since)
  {
    var v := s.values[i];
    assert v[since..][|v| - 1 - since] == v[|v| - 1];
  }

  lemma {:induction false} SwapBackStore(s: State, s': State, i: nat, m: nat, was: nat)
    requires StrictStore(s) && i < |s.inodes| <= |s.values|
    requires m < |s.nodes| && s.inodes[i].main == m && s.nodes[m] == Failed(was)
    requires s'.nodes == s.nodes && s'.values == s.values
    requires s'.inodes == s.inodes[i := s.inodes[i].(main := was)]
    ensures StrictStore(s') && Orderly(s, s') && Value(s, i) == was
  {
    assert IsCommitted(s, was);
    assert Value(s', i) == was;
    forall j | 0 <= j < |s.inodes| && j != i ensures s'.inodes[j] == s.inodes[j] && Value(s', j) == Value(s, j) {
    }
  }

  lemma {:induction false} StrictSwapBack(s: State, s': State, k: nat, root: Root)
    requires Strict(s) && Moves(s, s', k, root) && s.threads[k].SwapBack?
    ensures Strict(s')
  {
    MoveKeepsInv(s, s', k, root);
    SwapBackThread(s, s', k, root);
    StrictStepOf(s, s', k);
  }

  lemma {:induction false} SwapBackThread(s: State, s': State, k: nat, root: Root)
    requires Strict(s) && Moves(s, s', k, root) && s.threads[k].SwapBack?
    ensures StrictStore(s') && Orderly(s, s') && OnlyThread(s, s', k) && StrictThread(s', s'.threads[k])
  {
    var t := s.threads[k];
    assert ThreadInv(s, t) && StrictThread(s, t);
    if s.inodes[t.i].main == t.m {
      SwapBackStore(s, s', t.i, t.m, t.was);
      if t.caller.Reading? { ValueSeen(s, t.i, t.caller.since); }
    } else {
      UnchangedStore(s, s');
    }
  }

  lemma {:induction false} AbortStore(s: State, s': State, m: nat, was: nat)
    requires StrictStore(s) && |s.inodes| <= |s.values| && m < |s.nodes| && s.nodes[m] == Pending(was)
    requires s'.inodes == s.inodes && s'.values == s.values && s'.nodes == s.nodes[m := Failed(was)]
    ensures StrictStore(s') && Orderly(s, s')
  {
    forall i | 0 <= i < |s.inodes| ensures Value(s', i) == Value(s, i) {}
    forall n: nat | IsCommitted(s, n) ensures IsCommitted(s', n) {}
  }

  lemma {:induction false} StrictAbort(s: State, s': State, k: nat, root: Root)
    requires Strict(s) && Moves(s, s', k, root) && s.threads[k].Abort?
    ensures Strict(s')
  {
    var t := s.threads[k];
    MoveKeepsInv(s, s', k, root);
    assert ThreadInv(s, t) && StrictThread(s, t);
    if s.nodes[t.m] == Pending(t.was) {
      AbortStore(s, s', t.m, t.was);
    } else {
      UnchangedStore(s, s');
    }
    StrictStepOf(s, s', k);
  }

  lemma {:induction false} CommitStore(s: State, s': State, i: nat, m: nat, was: nat)
    requires StrictStore(s) && i < |s.inodes| <= |s.values|
    requires m < |s.nodes| && s.inodes[i].main == m && s.nodes[m] == Pending(was)
    requires s'.inodes == s.inodes && s'.nodes == s.nodes[m := Committed]
    requires s'.values == s.values[i := s.values[i] + [m]]
    ensures StrictStore(s') && Orderly(s, s') && s'.values[i][|s.values[i]|..] == [m]
  {
    assert s'.values[i][|s.values[i]|..] == [m];
    forall j | 0 <= j < |s.inodes| && j != i
      ensures s.inodes[j].main != m && Value(s', j) == Value(s, j) {
      assert i < j || j < i;
    }
  }

  lemma {:induction false} StrictCommit(s: State, s': State, k: nat, root: Root)
    requires Strict(s) && Moves(s, s', k, root) && s.threads[k].Commit?
    ensures Strict(s')
  {
    var t := s.threads[k];
    MoveKeepsInv(s, s', k, root);
    assert ThreadInv(s, t) && StrictThread(s, t);
    if s.nodes[t.m] == Pending(t.was) {
      CommitStore(s, s', t.i, t.m, t.was);
      if t.caller.Reading? {
        SeenStable(s, s', t.i, t.m, t.caller.since);
      }
    }
    StrictStepOf(s, s', k);
  }

  /** Loads change no node and no I-node, and the loader learns what it must know next. */
  lemma {:induction false} StrictLoadThread(s: State, k: nat, root: Root)
    requires Strict(s) && k < |s.threads| && InRange(s, s.threads[k])
    requires var t := s.threads[k]; !t.Install? && !t.SwapBack? && !t.Commit? && !t.Abort?
    ensures var (s', t') := Act(s, s.threads[k], root);
      s'.nodes == s.nodes && s'.inodes == s.inodes && s'.values == s.values && StrictThread(s, t')
  {
    var t := s.threads[k];
    assert ThreadInv(s, t) && StrictThread(s, t);
    match t
    case ReadMain(i, since) => ValueSeen(s, i, since);
    case Reload(i, caller) => if caller.Reading? { ValueSeen(s, i, caller.since); }
    case _ =>
  }

  lemma {:induction false} StrictLoad(s: State, s': State, k: nat, root: Root)
    requires Strict(s) && Moves(s, s', k, root)
    requires !s.threads[k].Install? && !s.threads[k].SwapBack? && !s.threads[k].Commit? && !s.threads[k].Abort?
    ensures Strict(s')
  {
    MoveKeepsInv(s, s', k, root);
    StrictLoadThread(s, k, root);
    SameStore(s, s', s'.threads[k]);
    StrictStepOf(s, s', k);
  }

  lemma {:induction false} SameThread(s: State, s': State, t: Thread)
    requires s'.nodes == s.nodes && s'.inodes == s.inodes && s'.values == s.values && StrictThread(s, t)
    ensures StrictThread(s', t)
  {
  }

  lemma {:induction false} SameStore(s: State, s': State, t: Thread)
    requires StrictStore(s) && s'.nodes == s.nodes && s'.inodes == s.inodes && s'.values == s.values
    requires |s.inodes| <= |s.values|
    requires StrictThread(s, t)
    ensures StrictStore(s') && Orderly(s, s') && StrictThread(s', t)
  {
    UnchangedStore(s, s');
    SameThread(s, s', t);
  }

  /** Beginning a read, or loading a committed node directly. */
  lemma {:induction false} StrictBegin(s: State, s': State, k: nat, i: nat)
    requires Strict(s)
    requires BeginsRead(s, s', k, i) || (LoadsRaw(s, s', k, i) && IsCommitted(s, s.inodes[i].main))
    ensures Strict(s')
  {
    BeginKeepsInv(s, s', k, i);
    UnchangedStore(s, s');
    StrictStepOf(s, s', k);
  }

  lemma {:induction false} NewNodeStore(s: State, s': State, was: nat)
    requires StrictStore(s) && |s.inodes| <= |s.values| && IsCommitted(s, was)
    requires forall i :: 0 <= i < |s.inodes| ==> s.inodes[i].main < |s.nodes|
    requires s'.inodes == s.inodes && s'.values == s.values && s'.nodes == s.nodes + [Pending(was)]
    ensures StrictStore(s') && Orderly(s, s')
  {
    forall i | 0 <= i < |s.inodes| ensures Value(s', i) == Value(s, i) {}
    forall n: nat | IsCommitted(s, n) ensures IsCommitted(s', n) {}
    forall n | 0 <= n < |s'.nodes| && !s'.nodes[n].Committed? ensures IsCommitted(s', s'.nodes[n].was) {
      if n < |s.nodes| { assert s'.nodes[n] == s.nodes[n]; }
    }
  }

  /** Beginning a write. */
  lemma {:induction false} StrictBeginWrite(s: State, s': State, k: nat)
    requires Strict(s) && BeginsWrite(s, s', k)
    ensures Strict(s')
  {
    var t := s.threads[k];
    BeginKeepsInv(s, s', k, 0);
    assert StrictThread(s, t);
    NewNodeStore(s, s', t.m);
    StrictStepOf(s, s', k);
  }

  /** Appending I-nodes that point to committed nodes, and nodes. */
  lemma {:induction false} GrownStore(s: State, s': State)
    requires StrictStore(s) && |s.inodes| == |s.values|
    requires s.nodes <= s'.nodes && s.inodes <= s'.inodes && s.values <= s'.values
    requires |s'.inodes| == |s'.values|
    requires forall n :: |s.nodes| <= n < |s'.nodes| ==> s'.nodes[n].Committed?
    requires forall i :: |s.inodes| <= i < |s'.inodes| ==>
      IsCommitted(s', s'.inodes[i].main) && s'.values[i] == [s'.inodes[i].main]
    ensures StrictStore(s') && Orderly(s, s')
  {
    forall j | 0 <= j < |s.inodes| ensures s'.inodes[j] == s.inodes[j] && Value(s', j) == Value(s, j) {}
    forall i, j | 0 <= i < j < |s'.inodes| && s'.inodes[i].main == s'.inodes[j].main
      ensures IsCommitted(s', s'.inodes[i].main)
    {
      if j < |s.inodes| { assert IsCommitted(s, s.inodes[i].main); }
    }
  }

  lemma {:induction false} StrictOutside(s: State, s': State, k: nat, gen: nat)
    requires Strict(s) && (CopiesINode(s, s', k, gen) || NewINode(s, s', gen) || RootsChange(s, s'))
    ensures Strict(s')
  {
    OutsideKeepsInv(s, s', k, gen);
    if k < |s.threads| { assert StrictThread(s, s.threads[k]); }
    GrownStore(s, s');
    forall j | 0 <= j < |s.threads| ensures StrictThread(s', s'.threads[j]) {
      assert ThreadInv(s, s.threads[j]);
      StrictThreadStable(s, s', s.threads[j]);
    }
  }

  lemma {:induction false} StepKeepsStrict(s: State, s': State)
    requires Strict(s) && Next(s, s', false)
    ensures Strict(s')
  {
    if k: nat, root: Root :| Moves(s, s', k, root) {
      var t := s.threads[k];
      if t.Install? { StrictInstall(s, s', k, root); }
      else if t.SwapBack? { StrictSwapBack(s, s', k, root); }
      else if t.Commit? { StrictCommit(s, s', k, root); }
      else if t.Abort? { StrictAbort(s, s', k, root); }
      else { StrictLoad(s, s', k, root); }
    }
    else if k, i :| BeginsRead(s, s', k, i) { StrictBegin(s, s', k, i); }
    else if k :| BeginsWrite(s, s', k) { StrictBeginWrite(s, s', k); }
    else if k, gen :| CopiesINode(s, s', k, gen) { StrictOutside(s, s', k, gen); }
    else if gen :| NewINode(s, s', gen) { StrictOutside(s, s', 0, gen); }
    else if RootsChange(s, s') { StrictOutside(s, s', 0, 0); }
    else if k: nat, i: nat :| LoadsRaw(s, s', k, i) && IsCommitted(s, s.inodes[i].main) { StrictBegin(s, s', k, i); }
  }

  lemma {:induction false} RunStrict(run: seq<State>, k: nat)
    requires IsRun(run, false) && k < |run|
    ensures Strict(run[k])
  {
    if k > 0 {
      RunStrict(run, k - 1);
      assert StepAt(run, false, k - 1);
      StepKeepsStrict(run[k - 1], run[k]);
    } else {
      RunInv(run, false, 0);
    }
  }

  /**
   * A gcasRead only ever returns a committed node, and that node was the I-node's value
   * at some moment between the call and the return.
   */
  lemma {:induction false} ReadIsLinearizable(run: seq<State>, k: nat, t: nat)
    requires IsRun(run, false) && k < |run| && t < |run[k].threads| && run[k].threads[t].Holds?
    ensures var h := run[k].threads[t];
      IsCommitted(run[k], h.m) && SeenSince(run[k], h.i, h.m, h.since)
  {
    RunStrict(run, k);
    assert StrictThread(run[k], run[k].threads[t]);
  }

  /** A failed attempt leaves its I-node only for the committed node it had displaced. */
  lemma {:induction false} FailureRestores(run: seq<State>, k: nat, i: nat)
    requires IsRun(run, false) && k + 1 < |run| && i < |run[k].inodes| && run[k].inodes[i].main < |run[k].nodes|
    requires run[k].nodes[run[k].inodes[i].main].Failed?
    ensures i < |run[k + 1].inodes|
    ensures run[k + 1].inodes[i].main == run[k].inodes[i].main
         || (run[k + 1].inodes[i].main == run[k].nodes[run[k].inodes[i].main].was
             && IsCommitted(run[k + 1], run[k + 1].inodes[i].main))
  {
    var s, s' := run[k], run[k + 1];
    RunStrict(run, k);
    RunStrict(run, k + 1);
    assert StepAt(run, false, k);
    if t: nat, root: Root :| Moves(s, s', t, root) {
      assert ThreadInv(s, s.threads[t]) && StrictThread(s, s.threads[t]);
    }
  }

  /** Winning the commit CAS is what changes an I-node's value, from the node the attempt expected. */
  ghost predicate CommitsAt(s: State, s': State, i: nat, n: nat) {
    && i < |s.inodes| && n < |s.nodes| && s.inodes[i].main == n
    && s.nodes[n] == Pending(Value(s, i)) && n < |s'.nodes| && s'.nodes[n] == Committed
    && i < |s'.inodes| && s'.inodes[i].main == n && Value(s', i) == n
  }

  ghost predicate ValuesKept(s: State, s': State, but: int) {
    forall j :: 0 <= j < |s.inodes| && j != but ==>
      && j < |s'.inodes| && s.inodes[j].main < |s.nodes| && s'.inodes[j].main < |s'.nodes|
      && Value(s', j) == Value(s, j)
  }

  ghost predicate CommitsSomewhere(s: State, s': State) {
    exists i: nat, n: nat :: CommitsAt(s, s', i, n) && ValuesKept(s, s', i)
  }

  lemma {:induction false} CommitIsAtomicCas(s: State, s': State, k: nat, root: Root)
    requires Strict(s) && Moves(s, s', k, root) && s.threads[k].Commit? && s.nodes[s.threads[k].m] == Pending(s.threads[k].was)
    ensures CommitsSomewhere(s, s')
  {
    var t := s.threads[k];
    assert ThreadInv(s, t) && StrictThread(s, t);
    assert forall i :: 0 <= i < |s.inodes| ==> Known(s, i, s.inodes[i].main);
    forall j | 0 <= j < |s.inodes| && j != t.i ensures s.inodes[j].main != t.m {
      assert t.i < j || j < t.i;
    }
    assert CommitsAt(s, s', t.i, t.m) && ValuesKept(s, s', t.i);
  }

  lemma {:induction false} OtherMovesKeepValues(s: State, s': State, k: nat, root: Root)
    requires Strict(s) && Moves(s, s', k, root)
    requires !(s.threads[k].Commit? && s.nodes[s.threads[k].m] == Pending(s.threads[k].was))
    ensures ValuesKept(s, s', -1)
  {
    var t := s.threads[k];
    assert ThreadInv(s, t) && StrictThread(s, t);
    assert forall i :: 0 <= i < |s.inodes| ==> Known(s, i, s.inodes[i].main);
  }

  lemma {:induction false} MoveIsAtomicCas(s: State, s': State, k: nat, root: Root)
    requires Strict(s) && Moves(s, s', k, root)
    ensures ValuesKept(s, s', -1) || CommitsSomewhere(s, s')
  {
    var t := s.threads[k];
    if t.Commit? && s.nodes[t.m] == Pending(t.was) {
      CommitIsAtomicCas(s, s', k, root);
    } else {
      OtherMovesKeepValues(s, s', k, root);
    }
  }

  /**
   * Each I-node is an atomic compare-and-swap register: a step either changes no value at
   * all, or commits one attempt, replacing exactly the value that attempt expected.
   */
  lemma {:induction false} StepIsAtomicCas(run: seq<State>, k: nat)
    requires IsRun(run, false) && k + 1 < |run|
    ensures ValuesKept(run[k], run[k + 1], -1) || CommitsSomewhere(run[k], run[k + 1])
  {
    var s, s' := run[k], run[k + 1];
    RunStrict(run, k);
    assert StepAt(run, false, k);
    assert forall i :: 0 <= i < |s.inodes| ==> Known(s, i, s.inodes[i].main);
    if t: nat, root: Root :| Moves(s, s', t, root) {
      MoveIsAtomicCas(s, s', t, root);
    } else {
      assert ValuesKept(s, s', -1);
    }
  }

  // ----------------------------------------------------- with raw loads

  /** Every gcasRead of the run returned a committed node. */
  ghost predicate ReadsCommitted(run: seq<State>) {
    forall k, t :: 0 <= k < |run| && 0 <= t < |run[k].threads| && run[k].threads[t].Holds? ==>
      IsCommitted(run[k], run[k].threads[t].m)
  }

  ghost predicate AlwaysReadsCommitted(raw: bool) {
    forall run: seq<State> :: IsRun(run, raw) ==> ReadsCommitted(run)
  }

  /** Thread 0 has installed node 1 over node 0 and has not yet completed it. */
  function OnePending(t1: Thread): (s: State) {
    State([Committed, Pending(0)], [INode(1, 0)], [Root(0, false)],
          [LoadPrev(0, 1, Writing(1)), t1, Idle], [[0]], {1}, {0, 1}, {}, {})
  }

  /** Thread 1 has loaded node 1 directly and installed node 2 over it; then a snapshot is taken. */
  function TwoPending(gen: nat, t2: Thread): (s: State) {
    State([Committed, Pending(0), Pending(1)], [INode(2, 0)], [Root(gen, false)],
          [LoadPrev(0, 1, Writing(1)), LoadPrev(0, 2, Writing(2)), t2], [[0]], {1, 2}, {0, 1, 2}, {}, {})
  }

  /** Reader 2 has failed node 2 for its generation. */
  function OneFailed(main: nat, t2: Thread): (s: State) {
    TwoPending(1, t2).(nodes := [Committed, Pending(0), Failed(1)], inodes := [INode(main, 0)], mismatched := {2})
  }

  /** The run in which a gcasRead returns node 1 while it is still pending. */
  function RawRun(): (run: seq<State>)
    ensures |run| == 20
  {
    var s0 := Initial(0, 3);
    [ s0,
      s0.(threads := [ReadMain(0, 0), Idle, Idle]),
      s0.(threads := [ReadPrev(0, 0, 0), Idle, Idle]),
      s0.(threads := [Holds(0, 0, 0), Idle, Idle]),
      s0.(nodes := [Committed, Pending(0)], attempts := {1}, threads := [Install(0, 0, 1), Idle, Idle]),
      OnePending(Idle),
      OnePending(HoldsRaw(0, 1)),
      OnePending(Install(0, 1, 2)).(nodes := [Committed, Pending(0), Pending(1)], attempts := {1, 2}),
      TwoPending(0, Idle),
      TwoPending(1, Idle),
      TwoPending(1, ReadMain(0, 0)),
      TwoPending(1, ReadPrev(0, 2, 0)),
      TwoPending(1, LoadPrev(0, 2, Reading(0))),
      TwoPending(1, LoadRoot(0, 2, Pending(1), Reading(0))),
      TwoPending(1, Abort(0, 2, 1, Reading(0))).(mismatched := {2}),
      OneFailed(2, Reload(0, Reading(0))),
      OneFailed(2, LoadPrev(0, 2, Reading(0))),
      OneFailed(2, LoadRoot(0, 2, Failed(1), Reading(0))),
      OneFailed(2, SwapBack(0, 2, 1, Reading(0))),
      OneFailed(1, Holds(0, 1, 0)) ]
  }

  lemma {:induction false} FirstWriterReads()
    ensures forall k :: 0 <= k < 3 ==> Next(RawRun()[k], RawRun()[k + 1], true)
  {
    var run := RawRun();
    assert BeginsRead(run[0], run[1], 0, 0);
    assert Moves(run[1], run[2], 0, Root(0, false));
    assert Moves(run[2], run[3], 0, Root(0, false));
  }

  lemma {:induction false} FirstWriterInstalls()
    ensures forall k :: 3 <= k < 5 ==> Next(RawRun()[k], RawRun()[k + 1], true)
  {
    var run := RawRun();
    assert BeginsWrite(run[3], run[4], 0);
    assert Moves(run[4], run[5], 0, Root(0, false));
  }

  lemma {:induction false} SecondWriterInstallsOverPending()
    ensures forall k :: 5 <= k < 10 ==> Next(RawRun()[k], RawRun()[k + 1], true)
  {
    var run := RawRun();
    assert LoadsRaw(run[5], run[6], 1, 0);
    assert BeginsWrite(run[6], run[7], 1);
    assert Moves(run[7], run[8], 1, Root(0, false));
    assert RootsChange(run[8], run[9]);
    assert BeginsRead(run[9], run[10], 2, 0);
  }

  lemma {:induction false} ReaderMeetsPending()
    ensures forall k :: 10 <= k < 15 ==> Next(RawRun()[k], RawRun()[k + 1], true)
  {
    var run, root := RawRun(), Root(1, false);
    forall k | 10 <= k < 15 ensures Moves(run[k], run[k + 1], 2, root) {
      assert run[k].roots == [root];
    }
  }

  lemma {:induction false} ReaderReturnsPending()
    ensures forall k :: 15 <= k < 19 ==> Next(RawRun()[k], RawRun()[k + 1], true)
  {
    var run, root := RawRun(), Root(1, false);
    forall k | 15 <= k < 19 ensures Moves(run[k], run[k + 1], 2, root) {
      assert run[k].roots == [root];
    }
  }

  lemma {:induction false} RawLoadsBreakReads()
    ensures IsRun(RawRun(), true) && !ReadsCommitted(RawRun())
  {
    FirstWriterReads();
    FirstWriterInstalls();
    SecondWriterInstallsOverPending();
    ReaderMeetsPending();
    ReaderReturnsPending();
    var run := RawRun();
    forall k: nat | k + 1 < |run| ensures StepAt(run, true, k) {}
    assert run[0] == Initial(0, 3);
    assert run[19].threads[2] == Holds(0, 1, 0) && run[19].nodes[1] == Pending(0);
  }

  /** gcasRead always returns a committed node exactly when direct loads of in.main only meet committed nodes. */
  lemma {:induction false} ReadsCommittedIffNoRawLoads(raw: bool)
    ensures AlwaysReadsCommitted(raw) <==> !raw
  {
    if raw {
      RawLoadsBreakReads();
    } else {
      forall run: seq<State> | IsRun(run, false) ensures ReadsCommitted(run) {
        forall k: nat, t: nat | k < |run| && t < |run[k].threads| && run[k].threads[t].Holds?
          ensures IsCommitted(run[k], run[k].threads[t].m) {
          ReadIsLinearizable(run, k, t);
        }
      }
    }
  }

  // ------------------------------------------ without snapshots in the way

  /** While no helper has met another generation or a read-only trie, gcasRead has returned only committed nodes. */
  ghost predicate Undisturbed(s: State) {
    s.mismatched == {} ==>
      forall k :: 0 <= k < |s.threads| && s.threads[k].Holds? ==> IsCommitted(s, s.threads[k].m)
  }

  lemma {:induction false} MoveHolds(s: State, s': State, k: nat, root: Root)
    requires Inv(s) && Moves(s, s', k, root) && s'.mismatched == {} && s.mismatched == {}
    requires s.threads[k].Holds? ==> IsCommitted(s, s.threads[k].m)
    ensures s'.threads[k].Holds? ==> IsCommitted(s', s'.threads[k].m)
  {
    var t := s.threads[k];
    assert ThreadInv(s, t);
    assert t.SwapBack? ==> NodeInv(s, t.m);
  }

  lemma {:induction false} StepKeepsUndisturbed(s: State, s': State, raw: bool)
    requires Inv(s) && Next(s, s', raw) && Undisturbed(s)
    ensures Undisturbed(s')
  {
    StepKeepsInv(s, s', raw);
    if s'.mismatched == {} {
      assert s.mismatched == {};
      forall j | 0 <= j < |s'.threads| && s'.threads[j].Holds? ensures IsCommitted(s', s'.threads[j].m) {
        if j < |s.threads| && s'.threads[j] == s.threads[j] {
          assert IsCommitted(s, s.threads[j].m);
        } else if k: nat, root: Root :| Moves(s, s', k, root) {
          MoveHolds(s, s', k, root);
        }
      }
    }
  }

  /**
   * Whatever direct loads meet, gcasRead returns only committed nodes in every run in which
   * no helper has met another generation or a read-only trie.
   */
  lemma {:induction false} ReadsCommittedWithoutMismatch(run: seq<State>, raw: bool, k: nat)
    requires IsRun(run, raw) && k < |run|
    ensures Undisturbed(run[k])
  {
    if k > 0 {
      ReadsCommittedWithoutMismatch(run, raw, k - 1);
      RunInv(run, raw, k - 1);
      assert StepAt(run, raw, k - 1);
      StepKeepsUndisturbed(run[k - 1], run[k], raw);
    }
  }
}
