/**
 * What decides the outcome of a gcas: the root its helper read, traced back through the
 * run, and what gcas and gcasRead do when no other thread moves.
 */
module GcasOutcomes {
  import opened Gcas

  // ------------------------------------------------------ the helper's root

  /** What a step does to thread t. */
  lemma {:induction false} ThreadMoves(s: State, s': State, raw: bool, t: nat)
    requires Next(s, s', raw) && t < |s'.threads|
    ensures t < |s.threads|
    ensures || s'.threads[t] == s.threads[t]
            || s'.threads[t].ReadMain? || s'.threads[t].HoldsRaw? || s'.threads[t].Install?
            || exists root :: Moves(s, s', t, root)
  {
    if k: nat, root :| Moves(s, s', k, root) {
      if k == t { assert Moves(s, s', t, root); }
    }
  }

  /** About to resolve an attempt, one way or the other. */
  ghost predicate Resolving(t: Thread) { t.Commit? || t.Abort? }

  /** In s thread t reads the root for the attempt that `d` resolves. */
  ghost predicate ReadsRootFor(s: State, t: nat, d: Thread, root: Root)
    requires Resolving(d)
  {
    && t < |s.threads| && s.threads[t] == LoadRoot(d.i, d.m, Pending(d.was), d.caller) && d.i < |s.inodes|
    && root in s.roots && (d.Commit? <==> root.gen == s.inodes[d.i].gen && !root.readOnly)
  }

  lemma {:induction false} MoveReadsRoot(s: State, s': State, t: nat, root: Root)
    requires Moves(s, s', t, root) && Resolving(s'.threads[t])
    ensures s'.threads[t] == s.threads[t] || ReadsRootFor(s, t, s'.threads[t], root)
  {
  }

  /** A thread about to commit read a root that lets it; one about to abort read one that does not. */
  lemma {:induction false} RootRead(run: seq<State>, raw: bool, k: nat, t: nat) returns (j: nat, root: Root)
    requires IsRun(run, raw) && k < |run| && t < |run[k].threads| && Resolving(run[k].threads[t])
    ensures j < k && ReadsRootFor(run[j], t, run[k].threads[t], root)
  {
    assert k > 0;
    assert StepAt(run, raw, k - 1);
    ThreadMoves(run[k - 1], run[k], raw, t);
    if run[k].threads[t] == run[k - 1].threads[t] {
      j, root := RootRead(run, raw, k - 1, t);
    } else {
      j := k - 1;
      root :| Moves(run[j], run[k], t, root);
      MoveReadsRoot(run[j], run[k], t, root);
    }
  }

  /** The step that resolves attempt n is taken by a thread about to do so. */
  ghost predicate Resolves(s: State, s': State, t: nat, n: nat) {
    && n < |s.nodes| && n < |s'.nodes| && t < |s.threads| && Resolving(s.threads[t]) && s.threads[t].m == n
    && s.nodes[n] == Pending(s.threads[t].was)
    && s'.nodes[n] == if s.threads[t].Commit? then Committed else Failed(s.threads[t].was)
  }

  lemma {:induction false} MoveResolves(s: State, s': State, t: nat, root: Root, n: nat)
    requires Moves(s, s', t, root) && n < |s.nodes| && n < |s'.nodes| && s'.nodes[n] != s.nodes[n]
    ensures Resolves(s, s', t, n)
  {
  }

  lemma {:induction false} StepResolves(s: State, s': State, raw: bool, n: nat)
    requires Inv(s) && Next(s, s', raw) && n < |s'.nodes| && n in s'.attempts && !s'.nodes[n].Pending?
    ensures n < |s.nodes| && ((n in s.attempts && s'.nodes[n] == s.nodes[n]) || exists t :: Resolves(s, s', t, n))
  {
    if t: nat, root :| Moves(s, s', t, root) {
      if s'.nodes[n] != s.nodes[n] { MoveResolves(s, s', t, root, n); }
    }
  }

  lemma {:induction false} ResolvingStep(run: seq<State>, raw: bool, k: nat, n: nat) returns (c: nat, t: nat)
    requires IsRun(run, raw) && k < |run| && n < |run[k].nodes| && n in run[k].attempts && !run[k].nodes[n].Pending?
    ensures c < k && Resolves(run[c], run[c + 1], t, n) && run[k].nodes[n] == run[c + 1].nodes[n]
  {
    assert k > 0;
    RunInv(run, raw, k - 1);
    assert StepAt(run, raw, k - 1);
    StepResolves(run[k - 1], run[k], raw, n);
    if n in run[k - 1].attempts && run[k].nodes[n] == run[k - 1].nodes[n] {
      c, t := ResolvingStep(run, raw, k - 1, n);
    } else {
      c := k - 1;
      t :| Resolves(run[c], run[k], t, n);
    }
  }

  /** In s, with attempt n pending, a helper of n works on I-node i and reads the root. */
  ghost predicate HelperReads(s: State, t: nat, i: nat, n: nat, root: Root) {
    && n < |s.nodes| && s.nodes[n].Pending?
    && t < |s.threads| && s.threads[t].LoadRoot? && s.threads[t].m == n && s.threads[t].i == i < |s.inodes|
    && root in s.roots
  }

  lemma {:induction false} StillPending(run: seq<State>, raw: bool, j: nat, c: nat, t: nat, n: nat)
    requires IsRun(run, raw) && j <= c < |run| && t < |run[j].threads| && run[j].threads[t].LoadRoot? && run[j].threads[t].m == n
    requires n < |run[c].nodes| && run[c].nodes[n].Pending?
    ensures n < |run[j].nodes| && run[j].nodes[n].Pending?
  {
    RunInv(run, raw, j);
    assert ThreadInv(run[j], run[j].threads[t]);
    PrevMovesOn(run, raw, j, c, n);
  }

  /** The root that decided an attempt. */
  lemma {:induction false} DecidingRoot(run: seq<State>, raw: bool, k: nat, n: nat) returns (j: nat, t: nat, i: nat, root: Root)
    requires IsRun(run, raw) && k < |run| && n < |run[k].nodes| && n in run[k].attempts && !run[k].nodes[n].Pending?
    ensures j < k && HelperReads(run[j], t, i, n, root)
    ensures run[k].nodes[n].Committed? <==> root.gen == run[j].inodes[i].gen && !root.readOnly
  {
    var c;
    c, t := ResolvingStep(run, raw, k, n);
    i := run[c].threads[t].i;
    j, root := RootRead(run, raw, c, t);
    StillPending(run, raw, j, c, t, n);
  }

  /** While direct loads meet only committed nodes, the helper's I-node is the one the attempt is in. */
  lemma {:induction false} HelpsInPlace(run: seq<State>, j: nat, t: nat, i: nat, n: nat, root: Root)
    requires IsRun(run, false) && j < |run| && HelperReads(run[j], t, i, n, root)
    ensures run[j].inodes[i].main == n
  {
    RunStrict(run, j);
    assert StrictThread(run[j], run[j].threads[t]);
  }

  /**
   * A committed attempt had a helper that, while the attempt was pending, read a root of
   * the I-node's generation of a trie that may be written; a failed one had a helper that
   * read another root. The I-node is the one the attempt was in, unless a direct load of
   * in.main has met a node that was not committed.
   */
  lemma {:induction false} GenerationDecides(run: seq<State>, raw: bool, k: nat, n: nat)
    requires IsRun(run, raw) && k < |run| && n < |run[k].nodes| && n in run[k].attempts
    ensures run[k].nodes[n].Committed? ==> exists j: nat, t: nat, i: nat, root ::
      && j < k && HelperReads(run[j], t, i, n, root) && (!raw ==> run[j].inodes[i].main == n)
      && root.gen == run[j].inodes[i].gen && !root.readOnly
    ensures run[k].nodes[n].Failed? ==> exists j: nat, t: nat, i: nat, root ::
      && j < k && HelperReads(run[j], t, i, n, root) && (!raw ==> run[j].inodes[i].main == n)
      && !(root.gen == run[j].inodes[i].gen && !root.readOnly)
    ensures run[k].nodes[n].Committed? ==> n in run[k].matched
    ensures run[k].nodes[n].Failed? ==> n in run[k].mismatched
  {
    RunInv(run, raw, k);
    assert NodeInv(run[k], n);
    if !run[k].nodes[n].Pending? {
      var j, t, i, root := DecidingRoot(run, raw, k, n);
      if !raw { HelpsInPlace(run, j, t, i, n, root); }
    }
  }

  // ------------------------------------------------------------ one generation

  /** In every state before run[k] all roots have the generation of all I-nodes, and no trie is read-only. */
  ghost predicate OneGeneration(run: seq<State>, k: nat)
    requires k <= |run|
  {
    forall j, i, root :: 0 <= j < k && 0 <= i < |run[j].inodes| && root in run[j].roots ==>
      root.gen == run[j].inodes[i].gen && !root.readOnly
  }

  lemma {:induction false} MoveInOneGeneration(s: State, s': State, t: nat, root: Root)
    requires Moves(s, s', t, root) && s.mismatched == {}
    requires forall i :: 0 <= i < |s.inodes| ==> root.gen == s.inodes[i].gen && !root.readOnly
    ensures s'.mismatched == {}
  {
  }

  lemma {:induction false} NoMismatch(run: seq<State>, raw: bool, k: nat)
    requires IsRun(run, raw) && k < |run| && OneGeneration(run, k)
    ensures run[k].mismatched == {}
  {
    if k > 0 {
      NoMismatch(run, raw, k - 1);
      assert StepAt(run, raw, k - 1);
      var s, s' := run[k - 1], run[k];
      if t: nat, root :| Moves(s, s', t, root) { MoveInOneGeneration(s, s', t, root); }
    }
  }

  /**
   * Before the first snapshot no attempt fails and gcasRead returns only committed nodes,
   * whatever direct loads of in.main meet.
   */
  lemma {:induction false} BeforeTheFirstSnapshot(run: seq<State>, raw: bool, k: nat)
    requires IsRun(run, raw) && k < |run| && OneGeneration(run, k)
    ensures forall n :: 0 <= n < |run[k].nodes| ==> !run[k].nodes[n].Failed?
    ensures forall t :: 0 <= t < |run[k].threads| && run[k].threads[t].Holds? ==> IsCommitted(run[k], run[k].threads[t].m)
  {
    NoMismatch(run, raw, k);
    RunInv(run, raw, k);
    forall n | 0 <= n < |run[k].nodes| ensures !run[k].nodes[n].Failed? { assert NodeInv(run[k], n); }
    ReadsCommittedWithoutMismatch(run, raw, k);
  }

  // ------------------------------------------------------- one thread alone

  /** The step from run[j] is one of thread t, for a trie with root(j). */
  ghost predicate OwnStep(run: seq<State>, t: nat, root: nat -> Root, j: nat)
    requires j + 1 < |run|
  {
    Moves(run[j], run[j + 1], t, root(j))
  }

  /** From run[a] to run[b] no other thread than t moves. */
  ghost predicate Alone(run: seq<State>, t: nat, root: nat -> Root, a: nat, b: nat) {
    b < |run| && forall j: nat :: a <= j < b ==> OwnStep(run, t, root, j)
  }

  /** Thread t and what it can see, but for the roots. */
  ghost predicate Sees(s: State, t: nat, thread: Thread, nodes: seq<Prev>, inodes: seq<INode>) {
    t < |s.threads| && s.threads[t] == thread && s.nodes == nodes && s.inodes == inodes && |s.values| == |inodes|
  }

  function WithMain(inodes: seq<INode>, i: nat, m: nat): (r: seq<INode>)
    requires i < |inodes|
    ensures |r| == |inodes| && r[i] == INode(m, inodes[i].gen)
  {
    inodes[i := inodes[i].(main := m)]
  }

  lemma {:induction false} StepInstalls(s: State, s': State, t: nat, root: Root, i: nat, expected: nat, node: nat)
    requires Moves(s, s', t, root) && s.threads[t] == Install(i, expected, node)
    ensures if s.inodes[i].main == expected
            then Sees(s', t, LoadPrev(i, node, Writing(node)), s.nodes, WithMain(s.inodes, i, node))
            else Sees(s', t, Wrote(i, node, false), s.nodes, s.inodes)
  {
  }

  lemma {:induction false} StepLoadsPrev(s: State, s': State, t: nat, root: Root, i: nat, m: nat, caller: Caller)
    requires Moves(s, s', t, root) && s.threads[t] == LoadPrev(i, m, caller)
    ensures m < |s.nodes| && Sees(s', t, LoadRoot(i, m, s.nodes[m], caller), s.nodes, s.inodes)
  {
  }

  lemma {:induction false} StepLoadsRoot(s: State, s': State, t: nat, root: Root, i: nat, m: nat, was: nat, caller: Caller)
    requires Moves(s, s', t, root) && s.threads[t] == LoadRoot(i, m, Pending(was), caller)
    ensures i < |s.inodes|
    ensures root.gen == s.inodes[i].gen && !root.readOnly ==> Sees(s', t, Commit(i, m, was, caller), s.nodes, s.inodes)
    ensures root.gen != s.inodes[i].gen || root.readOnly ==> Sees(s', t, Abort(i, m, was, caller), s.nodes, s.inodes)
  {
  }

  lemma {:induction false} StepSeesFailed(s: State, s': State, t: nat, root: Root, i: nat, m: nat, was: nat, caller: Caller)
    requires Moves(s, s', t, root) && s.threads[t] == LoadRoot(i, m, Failed(was), caller)
    ensures Sees(s', t, SwapBack(i, m, was, caller), s.nodes, s.inodes)
  {
  }

  lemma {:induction false} StepSwapsBack(s: State, s': State, t: nat, root: Root, i: nat, m: nat, was: nat, caller: Caller)
    requires Moves(s, s', t, root) && s.threads[t] == SwapBack(i, m, was, caller) && s.inodes[i].main == m
    ensures Sees(s', t, Return(i, was, caller), s.nodes, WithMain(s.inodes, i, was))
  {
  }

  lemma {:induction false} StepCommits(s: State, s': State, t: nat, root: Root, i: nat, m: nat, was: nat, caller: Caller)
    requires Moves(s, s', t, root) && s.threads[t] == Commit(i, m, was, caller) && s.nodes[m] == Pending(was)
    ensures Sees(s', t, Return(i, m, caller), s.nodes[m := Committed], s.inodes)
  {
  }

  lemma {:induction false} StepAborts(s: State, s': State, t: nat, root: Root, i: nat, m: nat, was: nat, caller: Caller)
    requires Moves(s, s', t, root) && s.threads[t] == Abort(i, m, was, caller) && s.nodes[m] == Pending(was)
    ensures Sees(s', t, Reload(i, caller), s.nodes[m := Failed(was)], s.inodes)
  {
  }

  lemma {:induction false} StepReloads(s: State, s': State, t: nat, root: Root, i: nat, caller: Caller)
    requires Moves(s, s', t, root) && s.threads[t] == Reload(i, caller)
    ensures i < |s.inodes| && Sees(s', t, LoadPrev(i, s.inodes[i].main, caller), s.nodes, s.inodes)
  {
  }

  lemma {:induction false} StepChecks(s: State, s': State, t: nat, root: Root, i: nat, node: nat)
    requires Moves(s, s', t, root) && s.threads[t] == Check(i, node)
    ensures node < |s.nodes| && Sees(s', t, Wrote(i, node, s.nodes[node].Committed?), s.nodes, s.inodes)
  {
  }

  lemma {:induction false} StepReads(s: State, s': State, t: nat, root: Root, i: nat, since: nat)
    requires Moves(s, s', t, root) && s.threads[t] == ReadMain(i, since)
    ensures i < |s.inodes| && Sees(s', t, ReadPrev(i, s.inodes[i].main, since), s.nodes, s.inodes)
  {
  }

  lemma {:induction false} StepReadsPrev(s: State, s': State, t: nat, root: Root, i: nat, m: nat, since: nat)
    requires Moves(s, s', t, root) && s.threads[t] == ReadPrev(i, m, since)
    ensures m < |s.nodes|
    ensures Sees(s', t, if s.nodes[m].Committed? then Holds(i, m, since) else LoadPrev(i, m, Reading(since)), s.nodes, s.inodes)
  {
  }

  /** gcasComplete alone, on a failed node that its I-node holds: the I-node gets the old node back. */
  lemma {:induction false} CompleteFailed(run: seq<State>, t: nat, root: nat -> Root, k: nat, i: nat, m: nat, was: nat, caller: Caller, nodes: seq<Prev>, inodes: seq<INode>)
    requires Alone(run, t, root, k, k + 3) && Sees(run[k], t, LoadPrev(i, m, caller), nodes, inodes)
    requires i < |inodes| && inodes[i].main == m < |nodes| && nodes[m] == Failed(was)
    ensures Sees(run[k + 3], t, Return(i, was, caller), nodes, WithMain(inodes, i, was))
  {
    assert OwnStep(run, t, root, k);
    StepLoadsPrev(run[k], run[k + 1], t, root(k), i, m, caller);
    assert OwnStep(run, t, root, k + 1);
    StepSeesFailed(run[k + 1], run[k + 2], t, root(k + 1), i, m, was, caller);
    assert OwnStep(run, t, root, k + 2);
    StepSwapsBack(run[k + 2], run[k + 3], t, root(k + 2), i, m, was, caller);
  }

  /** gcasComplete alone, on a pending node and with a root of the generation that may be written. */
  lemma {:induction false} CompleteCommits(run: seq<State>, t: nat, root: nat -> Root, k: nat, i: nat, m: nat, was: nat, caller: Caller, nodes: seq<Prev>, inodes: seq<INode>)
    requires Alone(run, t, root, k, k + 3) && Sees(run[k], t, LoadPrev(i, m, caller), nodes, inodes)
    requires i < |inodes| && m < |nodes| && nodes[m] == Pending(was)
    requires root(k + 1).gen == inodes[i].gen && !root(k + 1).readOnly
    ensures Sees(run[k + 3], t, Return(i, m, caller), nodes[m := Committed], inodes)
  {
    assert OwnStep(run, t, root, k);
    StepLoadsPrev(run[k], run[k + 1], t, root(k), i, m, caller);
    assert OwnStep(run, t, root, k + 1);
    StepLoadsRoot(run[k + 1], run[k + 2], t, root(k + 1), i, m, was, caller);
    assert OwnStep(run, t, root, k + 2);
    StepCommits(run[k + 2], run[k + 3], t, root(k + 2), i, m, was, caller);
  }

  /** gcasComplete alone, on a pending node and with any other root, up to its second round. */
  lemma {:induction false} CompleteFails(run: seq<State>, t: nat, root: nat -> Root, k: nat, i: nat, m: nat, was: nat, caller: Caller, nodes: seq<Prev>, inodes: seq<INode>)
    requires Alone(run, t, root, k, k + 4) && Sees(run[k], t, LoadPrev(i, m, caller), nodes, inodes)
    requires i < |inodes| && inodes[i].main == m < |nodes| && nodes[m] == Pending(was)
    requires root(k + 1).gen != inodes[i].gen || root(k + 1).readOnly
    ensures Sees(run[k + 4], t, LoadPrev(i, m, caller), nodes[m := Failed(was)], inodes)
  {
    assert OwnStep(run, t, root, k);
    StepLoadsPrev(run[k], run[k + 1], t, root(k), i, m, caller);
    assert OwnStep(run, t, root, k + 1);
    StepLoadsRoot(run[k + 1], run[k + 2], t, root(k + 1), i, m, was, caller);
    assert OwnStep(run, t, root, k + 2);
    StepAborts(run[k + 2], run[k + 3], t, root(k + 2), i, m, was, caller);
    assert OwnStep(run, t, root, k + 3);
    StepReloads(run[k + 3], run[k + 4], t, root(k + 3), i, caller);
  }

  /** gcasComplete alone, on a pending node and with any other root: the I-node gets the old node back. */
  lemma {:induction false} CompleteAborts(run: seq<State>, t: nat, root: nat -> Root, k: nat, i: nat, m: nat, was: nat, caller: Caller, nodes: seq<Prev>, inodes: seq<INode>)
    requires Alone(run, t, root, k, k + 7) && Sees(run[k], t, LoadPrev(i, m, caller), nodes, inodes)
    requires i < |inodes| && inodes[i].main == m < |nodes| && nodes[m] == Pending(was)
    requires root(k + 1).gen != inodes[i].gen || root(k + 1).readOnly
    ensures Sees(run[k + 7], t, Return(i, was, caller), nodes[m := Failed(was)], WithMain(inodes, i, was))
  {
    CompleteFails(run, t, root, k, i, m, was, caller, nodes, inodes);
    CompleteFailed(run, t, root, k + 4, i, m, was, caller, nodes[m := Failed(was)], inodes);
  }

  /**
   * A gcas whose I-node no longer holds the expected node answers false, at once and
   * without any change.
   */
  lemma {:induction false} GcasLoses(run: seq<State>, raw: bool, t: nat, root: nat -> Root, k: nat, i: nat, expected: nat, node: nat)
    requires IsRun(run, raw) && Alone(run, t, root, k, k + 1) && t < |run[k].threads| && run[k].threads[t] == Install(i, expected, node)
    requires i < |run[k].inodes| && run[k].inodes[i].main != expected
    ensures Sees(run[k + 1], t, Wrote(i, node, false), run[k].nodes, run[k].inodes)
  {
    assert OwnStep(run, t, root, k);
    StepInstalls(run[k], run[k + 1], t, root(k), i, expected, node);
  }

  /**
   * A gcas alone on an I-node that holds the expected node. It answers true exactly if
   * the root it reads is of the I-node's generation and of a trie that may be written:
   * then the I-node holds the new node, committed. Otherwise the new node has failed and
   * the I-node holds in the end what it held before the call.
   */
  lemma {:induction false} GcasAlone(run: seq<State>, raw: bool, t: nat, root: nat -> Root, k: nat, i: nat, expected: nat, node: nat)
    requires IsRun(run, raw) && Alone(run, t, root, k, k + 9) && t < |run[k].threads| && run[k].threads[t] == Install(i, expected, node)
    requires i < |run[k].inodes| && run[k].inodes[i].main == expected
    ensures node < |run[k].nodes| && root(k + 2) in run[k].roots
    ensures if root(k + 2).gen == run[k].inodes[i].gen && !root(k + 2).readOnly
      then Sees(run[k + 5], t, Wrote(i, node, true), run[k].nodes[node := Committed], WithMain(run[k].inodes, i, node))
      else Sees(run[k + 9], t, Wrote(i, node, false), run[k].nodes[node := Failed(expected)], run[k].inodes)
  {
    var nodes, inodes := run[k].nodes, run[k].inodes;
    RunInv(run, raw, k);
    assert ThreadInv(run[k], run[k].threads[t]);
    SameRoots(run, t, root, k, k + 9, k + 2);
    assert OwnStep(run, t, root, k);
    StepInstalls(run[k], run[k + 1], t, root(k), i, expected, node);
    var held := WithMain(inodes, i, node);
    if root(k + 2).gen == inodes[i].gen && !root(k + 2).readOnly {
      CompleteCommits(run, t, root, k + 1, i, node, expected, Writing(node), nodes, held);
      assert OwnStep(run, t, root, k + 4);
      StepChecks(run[k + 4], run[k + 5], t, root(k + 4), i, node);
    } else {
      CompleteAborts(run, t, root, k + 1, i, node, expected, Writing(node), nodes, held);
      assert OwnStep(run, t, root, k + 8);
      StepChecks(run[k + 8], run[k + 9], t, root(k + 8), i, node);
      assert WithMain(held, i, expected) == inodes;
    }
  }

  /** Steps of threads leave the roots alone. */
  lemma {:induction false} SameRoots(run: seq<State>, t: nat, root: nat -> Root, a: nat, b: nat, j: nat)
    requires Alone(run, t, root, a, b) && a <= j <= b
    ensures run[j].roots == run[a].roots && (j < b ==> root(j) in run[a].roots)
  {
    if a < j {
      SameRoots(run, t, root, a, b, j - 1);
      assert OwnStep(run, t, root, j - 1);
    }
    if j < b { assert OwnStep(run, t, root, j); }
  }

  /**
   * A gcasRead alone: a committed node is returned as it is, a failed one is replaced by
   * the node before it, and a pending one is first committed or failed, as the root says.
   */
  lemma {:induction false} GcasReadAlone(run: seq<State>, raw: bool, t: nat, root: nat -> Root, k: nat, i: nat, since: nat)
    requires IsRun(run, raw) && Alone(run, t, root, k, k + 9) && t < |run[k].threads| && run[k].threads[t] == ReadMain(i, since)
    ensures i < |run[k].inodes| && run[k].inodes[i].main < |run[k].nodes|
    ensures var nodes, inodes, m := run[k].nodes, run[k].inodes, run[k].inodes[i].main;
      match nodes[m]
      case Committed => Sees(run[k + 2], t, Holds(i, m, since), nodes, inodes)
      case Failed(was) => Sees(run[k + 5], t, Holds(i, was, since), nodes, WithMain(inodes, i, was))
      case Pending(was) =>
        if root(k + 3).gen == inodes[i].gen && !root(k + 3).readOnly
        then Sees(run[k + 5], t, Holds(i, m, since), nodes[m := Committed], inodes)
        else Sees(run[k + 9], t, Holds(i, was, since), nodes[m := Failed(was)], WithMain(inodes, i, was))
  {
    var nodes, inodes := run[k].nodes, run[k].inodes;
    assert OwnStep(run, t, root, k);
    StepReads(run[k], run[k + 1], t, root(k), i, since);
    var m, caller := inodes[i].main, Reading(since);
    assert OwnStep(run, t, root, k + 1);
    StepReadsPrev(run[k + 1], run[k + 2], t, root(k + 1), i, m, since);
    if !nodes[m].Committed? {
      ReaderCompletes(run, t, root, k + 2, i, m, since, nodes, inodes);
    }
  }

  lemma {:induction false} ReaderCompletes(run: seq<State>, t: nat, root: nat -> Root, k: nat, i: nat, m: nat, since: nat, nodes: seq<Prev>, inodes: seq<INode>)
    requires Alone(run, t, root, k, k + 7) && Sees(run[k], t, LoadPrev(i, m, Reading(since)), nodes, inodes)
    requires i < |inodes| && inodes[i].main == m < |nodes| && !nodes[m].Committed?
    ensures if nodes[m].Failed? then Sees(run[k + 3], t, Holds(i, nodes[m].was, since), nodes, WithMain(inodes, i, nodes[m].was))
      else if root(k + 1).gen == inodes[i].gen && !root(k + 1).readOnly
      then Sees(run[k + 3], t, Holds(i, m, since), nodes[m := Committed], inodes)
      else Sees(run[k + 7], t, Holds(i, nodes[m].was, since), nodes[m := Failed(nodes[m].was)], WithMain(inodes, i, nodes[m].was))
  {
    var was, caller := nodes[m].was, Reading(since);
    if nodes[m].Failed? {
      CompleteFailed(run, t, root, k, i, m, was, caller, nodes, inodes);
    } else if root(k + 1).gen == inodes[i].gen && !root(k + 1).readOnly {
      CompleteCommits(run, t, root, k, i, m, was, caller, nodes, inodes);
    } else {
      CompleteAborts(run, t, root, k, i, m, was, caller, nodes, inodes);
    }
  }

  // ------------------------------------------------- reads, from call to return

  /** The thread is in a gcasRead of I-node i, or has just returned from it. */
  ghost predicate InRead(t: Thread, i: nat, since: nat) {
    match t
    case ReadMain(j, n) => j == i && n == since
    case ReadPrev(j, _, n) => j == i && n == since
    case Holds(j, _, n) => j == i && n == since
    case LoadPrev(j, _, c) => j == i && c == Reading(since)
    case LoadRoot(j, _, _, c) => j == i && c == Reading(since)
    case SwapBack(j, _, _, c) => j == i && c == Reading(since)
    case Commit(j, _, _, c) => j == i && c == Reading(since)
    case Abort(j, _, _, c) => j == i && c == Reading(since)
    case Reload(j, c) => j == i && c == Reading(since)
    case _ => false
  }

  /** The step to run[j] begins a gcasRead of I-node i, and thread t is still in it, or just back from it, in run[k]. */
  ghost predicate OneRead(run: seq<State>, t: nat, i: nat, since: nat, j: nat, k: nat) {
    && 0 < j <= k < |run| && BeginsRead(run[j - 1], run[j], t, i)
    && (forall m :: j <= m <= k ==> t < |run[m].threads| && InRead(run[m].threads[t], i, since))
    && (forall m :: j < m <= k && run[m].threads[t].ReadMain? ==> run[m - 1].threads[t].ReadMain?)
  }

  lemma {:induction false} MoveStaysInRead(s: State, s': State, t: nat, root: Root, i: nat, since: nat)
    requires Moves(s, s', t, root) && InRead(s'.threads[t], i, since)
    ensures InRead(s.threads[t], i, since) && (s'.threads[t].ReadMain? ==> s.threads[t].ReadMain?)
  {
  }

  lemma {:induction false} StepStaysInRead(s: State, s': State, raw: bool, t: nat, i: nat, since: nat)
    requires Next(s, s', raw) && t < |s'.threads| && InRead(s'.threads[t], i, since)
    ensures t < |s.threads|
    ensures || (InRead(s.threads[t], i, since) && (s'.threads[t].ReadMain? ==> s.threads[t].ReadMain?))
            || (BeginsRead(s, s', t, i) && since == |s.values[i]| - 1 && s'.values == s.values)
  {
    if k: nat, root :| Moves(s, s', k, root) {
      if k == t { MoveStaysInRead(s, s', t, root, i, since); }
    } else if k: nat, j: nat :| BeginsRead(s, s', k, j) {
      if k == t { assert j == i; }
    }
  }

  lemma {:induction false} ReadBegan(run: seq<State>, raw: bool, k: nat, t: nat, i: nat, since: nat) returns (j: nat)
    requires IsRun(run, raw) && k < |run| && t < |run[k].threads| && InRead(run[k].threads[t], i, since)
    ensures OneRead(run, t, i, since, j, k) && i < |run[j].values| && |run[j].values[i]| == since + 1
  {
    assert k > 0;
    assert StepAt(run, raw, k - 1);
    StepStaysInRead(run[k - 1], run[k], raw, t, i, since);
    if InRead(run[k - 1].threads[t], i, since) && (run[k].threads[t].ReadMain? ==> run[k - 1].threads[t].ReadMain?) {
      j := ReadBegan(run, raw, k - 1, t, i, since);
    } else {
      j := k;
    }
  }

  /** The values of an I-node: none goes, and at most one comes at a time. */
  ghost predicate OneValueMore(s: State, s': State) {
    && |s.values| <= |s'.values|
    && forall i :: 0 <= i < |s.values| ==> s.values[i] <= s'.values[i] && |s'.values[i]| <= |s.values[i]| + 1
  }

  lemma {:induction false} StepAddsOneValue(s: State, s': State, raw: bool)
    requires Next(s, s', raw)
    ensures OneValueMore(s, s')
  {
  }

  /** Each value an I-node has had since run[j] was its value in some state since then. */
  lemma {:induction false} HadValue(run: seq<State>, j: nat, k: nat, i: nat, n: nat) returns (x: nat)
    requires IsRun(run, false) && j <= k < |run| && i < |run[j].values| && i < |run[k].values|
    requires |run[j].values[i]| - 1 <= n < |run[k].values[i]|
    ensures j <= x <= k && i < |run[x].inodes| && run[x].inodes[i].main < |run[x].nodes| && Value(run[x], i) == run[k].values[i][n]
  {
    RunStrict(run, k);
    if n == |run[k].values[i]| - 1 {
      x := k;
    } else {
      RunStrict(run, j);
      assert j < k;
      HasINode(run, j, k - 1, i);
      assert StepAt(run, false, k - 1);
      StepAddsOneValue(run[k - 1], run[k], false);
      x := HadValue(run, j, k - 1, i, n);
    }
  }

  lemma {:induction false} HasINode(run: seq<State>, j: nat, k: nat, i: nat)
    requires IsRun(run, false) && j <= k < |run| && i < |run[j].values|
    ensures i < |run[k].values|
  {
    if j < k {
      HasINode(run, j, k - 1, i);
      assert StepAt(run, false, k - 1);
      StepAddsOneValue(run[k - 1], run[k], false);
    }
  }

  /**
   * While direct loads meet only committed nodes, what a gcasRead returns was the value of
   * its I-node in some state between the call and the return.
   */
  lemma {:induction false} ReadHadItsValue(run: seq<State>, k: nat, t: nat) returns (j: nat, x: nat)
    requires IsRun(run, false) && k < |run| && t < |run[k].threads| && run[k].threads[t].Holds?
    ensures var h := run[k].threads[t];
      && OneRead(run, t, h.i, h.since, j, k) && j <= x <= k
      && h.i < |run[x].inodes| && run[x].inodes[h.i].main < |run[x].nodes| && Value(run[x], h.i) == h.m
  {
    var h := run[k].threads[t];
    ReadIsLinearizable(run, k, t);
    j := ReadBegan(run, false, k, t, h.i, h.since);
    var values := run[k].values[h.i];
    var n :| 0 <= n < |values[h.since..]| && values[h.since..][n] == h.m;
    x := HadValue(run, j, k, h.i, h.since + n);
  }
}
