/**
 * How the calls of queue/ring.go end: each outcome traced back to the step of the call
 * that decided it, and what a call does when no other thread moves.
 */
module RingOutcomes {
  import opened Basics
  import opened Bits
  import opened RingBuffer

  // -------------------------------------------------------- deciding steps

  /** The last part of a call, from the step that decided its outcome on. */
  datatype Phase<T> =
    | Refusing
    | TimingOut
    | Disposing
    | Putting(ticket: nat, item: T)
    | Getting(ticket: nat)

  ghost predicate In<T>(phase: Phase<T>, t: Thread<T>) {
    match phase
    case Refusing => (t.PutReload? && t.offer) || t == Finished(PutRefused)
    case TimingOut => t.GetReload? || t == Finished(TimedOut)
    case Disposing => t == Finished(Disposed)
    case Putting(ticket, item) =>
      t == PutFill(item, ticket) || t == PutPublish(item, ticket) || t == Finished(PutOk(ticket, item))
    case Getting(ticket) =>
      (t.Reads() && t.pos == ticket) || (t.Finished? && t.outcome.GetOk? && t.outcome.ticket == ticket)
  }

  /** A state in which the next step of a thread begins the phase. */
  ghost predicate Decides<T>(phase: Phase<T>, s: State<T>, t: Thread<T>)
    requires |s.slots| > 0
  {
    match phase
    case Refusing => (t.PutCas? && t.offer && s.queue != t.pos) || (t.PutSeq? && t.offer && s.At(t.pos).position != t.pos)
    case TimingOut => (t.GetCas? && s.dequeue != t.pos) || (t.GetSeq? && s.At(t.pos).position != t.pos + 1)
    case Disposing => s.disposed && (t.PutLoop? || t.GetLoop?)
    case Putting(ticket, item) => t.PutCas? && t.item == item && t.pos == ticket == s.queue
    case Getting(ticket) => t.GetCas? && t.pos == ticket == s.dequeue
  }

  lemma {:induction false} ActDecides<T>(phase: Phase<T>, s: State<T>, t: Thread<T>, late: bool)
    requires |s.slots| > 0 && In(phase, Act(s, t, late).1)
    ensures In(phase, t) || Decides(phase, s, t)
  {
  }

  /** What a step of the buffer does to thread i. */
  lemma {:induction false} ThreadMoves<T(!new)>(s: State<T>, s': State<T>, i: nat) returns (late: bool)
    requires Next(s, s') && i < |s.threads|
    ensures |s'.threads| == |s.threads|
    ensures s'.threads[i] == s.threads[i] || s'.threads[i].PutStart? || s'.threads[i].GetStart? || Moves(s, s', i, late)
  {
    late := false;
    if j: nat, l :| Moves(s, s', j, l) {
      late := l;
      if j != i { OtherThread(s, j, l, i); }
    }
  }

  lemma {:induction false} OtherThread<T>(s: State<T>, j: nat, late: bool, i: nat)
    requires |s.slots| > 0 && j < |s.threads| && i < |s.threads| && i != j
    ensures ThreadStep(s, j, late).threads[i] == s.threads[i]
  {
  }

  lemma {:induction false} StepKeepsCount<T(!new)>(s: State<T>, s': State<T>)
    requires Next(s, s')
    ensures |s'.threads| == |s.threads|
  {
  }

  lemma {:induction false} StepDecides<T(!new)>(phase: Phase<T>, s: State<T>, s': State<T>, i: nat)
    requires Next(s, s') && i < |s'.threads| && In(phase, s'.threads[i])
    ensures i < |s.threads| && (In(phase, s.threads[i]) || (|s.slots| > 0 && Decides(phase, s, s.threads[i])))
  {
    StepKeepsCount(s, s');
    var late := ThreadMoves(s, s', i);
    if Moves(s, s', i, late) { ActDecides(phase, s, s.threads[i], late); }
  }

  /** The phase in which thread i is in run[k] was decided in run[j]. */
  ghost predicate DecidedAt<T>(run: seq<State<T>>, phase: Phase<T>, i: nat, j: nat, k: nat)
    requires k < |run|
  {
    && j < k && |run[j].slots| > 0 && i < |run[j].threads| && Decides(phase, run[j], run[j].threads[i])
    && forall m :: j < m <= k ==> i < |run[m].threads| && In(phase, run[m].threads[i])
  }

  lemma {:induction false} Decided<T(!new)>(run: seq<State<T>>, capacity: nat, phase: Phase<T>, i: nat, k: nat) returns (j: nat)
    requires IsRun(run, capacity) && k < |run| && i < |run[k].threads| && In(phase, run[k].threads[i])
    ensures DecidedAt(run, phase, i, j, k)
  {
    assert k > 0;
    assert StepAt(run, k - 1);
    StepDecides(phase, run[k - 1], run[k], i);
    if In(phase, run[k - 1].threads[i]) {
      j := Decided(run, capacity, phase, i, k - 1);
    } else {
      j := k - 1;
    }
  }

  // --------------------------------------------------------------- failures

  /** A call ends with Disposed only after Dispose was called, and stays so. */
  lemma {:induction false} DisposedAfterDispose<T(!new)>(run: seq<State<T>>, capacity: nat, i: nat, k: nat)
    requires IsRun(run, capacity) && k < |run| && i < |run[k].threads| && run[k].threads[i] == Finished(Disposed)
    ensures run[k].disposed
    ensures exists j: nat :: j < k && DisposeAt(run, j)
  {
    var m := Decided(run, capacity, Disposing, i, k);
    StaysDisposed(run, capacity, m, k);
    var j := WasDisposed(run, capacity, m);
  }

  /** The step from run[j] is the call of Dispose that took effect. */
  ghost predicate DisposeAt<T>(run: seq<State<T>>, j: nat) {
    j + 1 < |run| && !run[j].disposed && run[j + 1] == run[j].(disposed := true)
  }

  lemma {:induction false} StaysDisposed<T(!new)>(run: seq<State<T>>, capacity: nat, j: nat, k: nat)
    requires IsRun(run, capacity) && j <= k < |run| && run[j].disposed
    ensures run[k].disposed
  {
    if j < k {
      StaysDisposed(run, capacity, j, k - 1);
      assert StepAt(run, k - 1);
    }
  }

  lemma {:induction false} WasDisposed<T(!new)>(run: seq<State<T>>, capacity: nat, k: nat) returns (j: nat)
    requires IsRun(run, capacity) && k < |run| && run[k].disposed
    ensures j < k && DisposeAt(run, j)
  {
    assert k > 0;
    if run[k - 1].disposed {
      j := WasDisposed(run, capacity, k - 1);
    } else {
      j := k - 1;
      assert StepAt(run, j);
    }
  }

  /** Where a thread can be whose call began after Dispose. */
  ghost predicate Rejected<T>(t: Thread<T>) {
    t.PutStart? || t.PutLoop? || t.GetStart? || t.GetLoop? || t == Finished(Disposed)
  }

  /** A call begun after Dispose ends with Disposed, if it ends: it gets to no slot, and neither does any later call. */
  lemma {:induction false} RejectedAfterDispose<T(!new)>(run: seq<State<T>>, capacity: nat, i: nat, j: nat, k: nat)
    requires IsRun(run, capacity) && j <= k < |run| && i < |run[j].threads| && run[j].disposed
    requires run[j].threads[i].PutStart? || run[j].threads[i].GetStart?
    ensures i < |run[k].threads| && Rejected(run[k].threads[i])
  {
    if j < k {
      RejectedAfterDispose(run, capacity, i, j, k - 1);
      StaysDisposed(run, capacity, j, k - 1);
      assert StepAt(run, k - 1);
      RejectedStep(run[k - 1], run[k], i);
    }
  }

  lemma {:induction false} RejectedStep<T(!new)>(s: State<T>, s': State<T>, i: nat)
    requires Next(s, s') && s.disposed && i < |s.threads| && Rejected(s.threads[i])
    ensures i < |s'.threads| && Rejected(s'.threads[i])
  {
  }

  lemma {:induction false} FullNotFree<T>(s: State<T>)
    requires Inv(s) && s.queue == s.dequeue + |s.slots|
    ensures s.At(s.queue).position != s.queue
  {
    assert TicketInv(s, s.dequeue);
    assert Index(s.dequeue + |s.slots|, |s.slots|) == Index(s.dequeue, |s.slots|);
  }

  lemma {:induction false} ReadNotFree<T>(s: State<T>, ticket: nat)
    requires Inv(s) && ReaderOf(s, ticket)
    ensures s.At(ticket + |s.slots|).position == ticket + 1
  {
    var j :| 0 <= j < |s.threads| && s.threads[j].Reads() && s.threads[j].pos == ticket;
    assert ThreadInv(s, s.threads[j]);
    assert Index(ticket + |s.slots|, |s.slots|) == Index(ticket, |s.slots|);
  }

  /** A slot that is not free for the next ticket holds the oldest item or a Poll still empties it. */
  lemma {:induction false} NotFree<T>(s: State<T>)
    requires Inv(s)
    ensures s.At(s.queue).position != s.queue <==>
      |Contents(s)| == |s.slots| || (s.queue >= |s.slots| && ReaderOf(s, s.queue - |s.slots|))
  {
    if s.queue == s.dequeue + |s.slots| {
      FullNotFree(s);
    } else {
      assert TicketInv(s, s.queue);
      if s.queue >= |s.slots| && ReaderOf(s, s.queue - |s.slots|) { ReadNotFree(s, s.queue - |s.slots|); }
    }
  }

  /** A head that is not published is not there or a Put still fills its slot. */
  lemma {:induction false} NotPublished<T>(s: State<T>)
    requires Inv(s)
    ensures s.At(s.dequeue).position != s.dequeue + 1 <==> |Contents(s)| == 0 || WriterOf(s, s.dequeue)
  {
    assert TicketInv(s, s.dequeue);
    if WriterOf(s, s.dequeue) { WriterAlone(s, s.dequeue); }
  }

  /**
   * Offer answers false only if it lost the race for its ticket to another producer,
   * found the buffer full, or found a Poll still emptying the slot. Put never does.
   */
  lemma {:induction false} RefusedBecause<T(!new)>(run: seq<State<T>>, capacity: nat, i: nat, k: nat) returns (j: nat, ticket: nat)
    requires capacity >= 2 && IsRun(run, capacity) && k < |run|
    requires i < |run[k].threads| && run[k].threads[i] == Finished(PutRefused)
    ensures j < k && i < |run[j].threads|
    ensures var t := run[j].threads[i]; (t.PutSeq? || t.PutCas?) && t.offer && t.pos == ticket <= run[j].queue
    ensures || run[j].queue != ticket
            || |Contents(run[j])| == capacity
            || (ticket >= capacity && ReaderOf(run[j], ticket - capacity))
    ensures forall m :: j < m <= k ==> i < |run[m].threads| && In(Refusing, run[m].threads[i])
  {
    j := Decided(run, capacity, Refusing, i, k);
    ticket := run[j].threads[i].pos;
    RunInv(run, capacity, j);
    assert ThreadInv(run[j], run[j].threads[i]);
    NotFree(run[j]);
  }

  /**
   * Poll ends with a timeout only if it lost the race for its ticket to another
   * consumer, found the buffer empty, or found a Put still filling the slot.
   */
  lemma {:induction false} TimedOutBecause<T(!new)>(run: seq<State<T>>, capacity: nat, i: nat, k: nat) returns (j: nat, ticket: nat)
    requires capacity >= 2 && IsRun(run, capacity) && k < |run|
    requires i < |run[k].threads| && run[k].threads[i] == Finished(TimedOut)
    ensures j < k && i < |run[j].threads|
    ensures var t := run[j].threads[i]; (t.GetSeq? || t.GetCas?) && t.pos == ticket <= run[j].dequeue
    ensures run[j].dequeue != ticket || |Contents(run[j])| == 0 || WriterOf(run[j], ticket)
    ensures forall m :: j < m <= k ==> i < |run[m].threads| && In(TimingOut, run[m].threads[i])
  {
    j := Decided(run, capacity, TimingOut, i, k);
    ticket := run[j].threads[i].pos;
    RunInv(run, capacity, j);
    assert ThreadInv(run[j], run[j].threads[i]);
    NotPublished(run[j]);
  }

  /** Before its time no Poll ends with a timeout. */
  lemma {:induction false} NoEarlyTimeout<T>(s: State<T>, i: nat)
    requires |s.slots| > 0 && i < |s.threads| && ThreadStep(s, i, false).threads[i] == Finished(TimedOut)
    ensures s.threads[i] == Finished(TimedOut)
  {
  }

  // --------------------------------------------------------------- successes

  /** A successful Put or Offer appended its item to the queue, while there was room, in one step of the call. */
  lemma {:induction false} PutTookEffect<T(!new)>(run: seq<State<T>>, capacity: nat, i: nat, k: nat, ticket: nat, item: T) returns (j: nat)
    requires capacity >= 2 && IsRun(run, capacity) && k < |run|
    requires i < |run[k].threads| && run[k].threads[i] == Finished(PutOk(ticket, item))
    ensures j < k && |Contents(run[j])| < capacity && Contents(run[j + 1]) == Contents(run[j]) + [item]
    ensures forall m :: j < m <= k ==> i < |run[m].threads| && In(Putting(ticket, item), run[m].threads[i])
  {
    j := Decided(run, capacity, Putting(ticket, item), i, k);
    RunInv(run, capacity, j);
    assert StepAt(run, j);
    assert In(Putting(ticket, item), run[j + 1].threads[i]);
    WinsEnqueue(run[j], run[j + 1], i);
  }

  /** A step in which thread i leaves a CAS on the enqueue counter it is going to win. */
  lemma {:induction false} WinsEnqueue<T(!new)>(s: State<T>, s': State<T>, i: nat)
    requires Inv(s) && Next(s, s') && i < |s.threads| && i < |s'.threads|
    requires s.threads[i].PutCas? && s.threads[i].pos == s.queue && s'.threads[i].Writes()
    ensures |Contents(s)| < |s.slots| && Contents(s') == Contents(s) + [s.threads[i].item]
  {
    var late := ThreadMoves(s, s', i);
    MoveIsFifoStep(s, i, late);
  }

  /** A successful Poll took the head out of the queue in one step of the call, and returns it. */
  lemma {:induction false} PollTookEffect<T(!new)>(run: seq<State<T>>, capacity: nat, i: nat, k: nat, ticket: nat, got: Option<T>) returns (j: nat)
    requires capacity >= 2 && IsRun(run, capacity) && k < |run|
    requires i < |run[k].threads| && run[k].threads[i] == Finished(GetOk(ticket, got))
    ensures j < k && |Contents(run[j])| > 0 && Contents(run[j + 1]) == Contents(run[j])[1..]
    ensures got == Some(Contents(run[j])[0])
    ensures forall m :: j < m <= k ==> i < |run[m].threads| && In(Getting(ticket), run[m].threads[i])
  {
    j := Decided(run, capacity, Getting(ticket), i, k);
    RunInv(run, capacity, j);
    assert StepAt(run, j);
    assert In(Getting(ticket), run[j + 1].threads[i]);
    WinsDequeue(run[j], run[j + 1], i);
    PollReturnsTheHead(run, capacity, j, k, i, ticket, got);
  }

  /** A step in which thread i leaves a CAS on the dequeue counter it is going to win. */
  lemma {:induction false} WinsDequeue<T(!new)>(s: State<T>, s': State<T>, i: nat)
    requires Inv(s) && Next(s, s') && i < |s.threads| && i < |s'.threads|
    requires s.threads[i].GetCas? && s.threads[i].pos == s.dequeue && s'.threads[i] != s.threads[i]
    requires !s'.threads[i].PutStart? && !s'.threads[i].GetStart?
    ensures s'.dequeue == s.dequeue + 1 && |Contents(s)| > 0 && Contents(s') == Contents(s)[1..]
  {
    var late := ThreadMoves(s, s', i);
    MoveIsFifoStep(s, i, late);
  }

  // ------------------------------------------------------- one thread alone

  /** The state after `n` steps of thread i while no other thread moves; `late` is the clock's answer to each. */
  ghost function Solo<T>(s: State<T>, i: nat, late: nat -> bool, n: nat): (r: State<T>)
    requires i < |s.threads| && |s.slots| > 0
    ensures |r.threads| == |s.threads| && |r.slots| == |s.slots|
  {
    if n == 0 then s else ThreadStep(Solo(s, i, late, n - 1), i, late(n - 1))
  }

  function With<T>(s: State<T>, i: nat, t: Thread<T>): (r: State<T>)
    requires i < |s.threads|
  {
    s.(threads := s.threads[i := t])
  }

  /** A call on a disposed buffer ends with Disposed and does nothing else. */
  lemma {:induction false} CallWhenDisposed<T>(s: State<T>, i: nat, late: nat -> bool)
    requires |s.slots| > 0 && i < |s.threads| && s.disposed && (s.threads[i].PutStart? || s.threads[i].GetStart?)
    ensures Solo(s, i, late, 2) == With(s, i, Finished(Disposed))
  {
    assert Solo(s, i, late, 0) == s;
    assert Solo(s, i, late, 1) == ThreadStep(s, i, late(0));
  }

  lemma {:induction false} PollLooks<T>(s: State<T>, i: nat, late: nat -> bool)
    requires |s.slots| > 0 && i < |s.threads| && !s.disposed && s.threads[i].GetStart?
    ensures Solo(s, i, late, 3) == With(s, i, if s.At(s.dequeue).position == s.dequeue + 1 then GetCas(s.dequeue) else GetReload)
  {
    assert Solo(s, i, late, 0) == s;
    assert Solo(s, i, late, 1) == With(s, i, GetLoop(s.dequeue));
    assert Solo(s, i, late, 2) == With(s, i, GetSeq(s.dequeue));
  }

  lemma {:induction false} PutLooks<T>(s: State<T>, i: nat, late: nat -> bool, item: T, offer: bool)
    requires |s.slots| > 0 && i < |s.threads| && !s.disposed && s.threads[i] == PutStart(item, offer)
    ensures Solo(s, i, late, 3) == With(s, i, if s.At(s.queue).position == s.queue then PutCas(item, offer, s.queue) else PutReload(item, offer))
  {
    assert Solo(s, i, late, 0) == s;
    assert Solo(s, i, late, 1) == With(s, i, PutLoop(item, offer, s.queue));
    assert Solo(s, i, late, 2) == With(s, i, PutSeq(item, offer, s.queue));
  }

  /**
   * A Poll alone, in any state of any run in which the buffer is not disposed. With an
   * item at the head whose Put is done, it takes that item out and returns it; otherwise
   * it leaves the buffer alone and times out or goes round again, as the clock says.
   */
  lemma {:induction false} PollAlone<T(!new)>(run: seq<State<T>>, capacity: nat, k: nat, i: nat, late: nat -> bool)
    requires capacity >= 2 && IsRun(run, capacity) && k < |run| && i < |run[k].threads|
    requires run[k].threads[i].GetStart? && !run[k].disposed
    ensures |run[k].slots| == capacity
    ensures var s := run[k];
      if |Contents(s)| > 0 && !WriterOf(s, s.dequeue) then
        && Solo(s, i, late, 7).threads[i] == Finished(GetOk(s.dequeue, Some(Contents(s)[0])))
        && Contents(Solo(s, i, late, 7)) == Contents(s)[1..]
      else
        Solo(s, i, late, 4) == With(s, i, if late(3) then Finished(TimedOut) else GetLoop(s.dequeue))
  {
    RunInv(run, capacity, k);
    var s := run[k];
    NotPublished(s);
    PollLooks(s, i, late);
    if |Contents(s)| > 0 && !WriterOf(s, s.dequeue) {
      assert TicketInv(s, s.dequeue);
      PollTakes(s, i, late);
    }
  }

  lemma {:induction false} PollTakes<T>(s: State<T>, i: nat, late: nat -> bool)
    requires Inv(s) && i < |s.threads| && s.dequeue < s.queue
    requires s.At(s.dequeue) == Slot(s.dequeue + 1, Some(s.enqueued[s.dequeue]))
    requires Solo(s, i, late, 3) == With(s, i, GetCas(s.dequeue))
    ensures Solo(s, i, late, 7).threads[i] == Finished(GetOk(s.dequeue, Some(Contents(s)[0])))
    ensures Contents(Solo(s, i, late, 7)) == Contents(s)[1..]
  {
    var s1, got := s.(dequeue := s.dequeue + 1), Some(s.enqueued[s.dequeue]);
    assert Solo(s, i, late, 4) == With(s1, i, GetTake(s.dequeue));
    assert Solo(s, i, late, 5) == With(s1, i, GetClear(s.dequeue, got));
    var a, b := Solo(s, i, late, 6), Solo(s, i, late, 7);
    PollReleases(Solo(s, i, late, 5), a, b, i, late(5), late(6), s.dequeue, got);
    assert Contents(s1) == Contents(s)[1..];
  }

  lemma {:induction false} PollReleases<T>(s: State<T>, a: State<T>, b: State<T>, i: nat, l: bool, l': bool, pos: nat, got: Option<T>)
    requires |s.slots| > 0 && i < |s.threads| && s.threads[i] == GetClear(pos, got)
    requires a == ThreadStep(s, i, l) && |a.slots| == |s.slots| && b == ThreadStep(a, i, l')
    ensures b.threads[i] == Finished(GetOk(pos, got)) && Contents(b) == Contents(s)
  {
  }

  /**
   * A Put or Offer alone, in any state of any run in which the buffer is not disposed.
   * With room, and no Poll still emptying the slot, it appends its item; otherwise it
   * leaves the buffer alone and an Offer answers false while a Put goes round again.
   */
  lemma {:induction false} PutAlone<T(!new)>(run: seq<State<T>>, capacity: nat, k: nat, i: nat, late: nat -> bool, item: T, offer: bool)
    requires capacity >= 2 && IsRun(run, capacity) && k < |run| && i < |run[k].threads|
    requires run[k].threads[i] == PutStart(item, offer) && !run[k].disposed
    ensures |run[k].slots| == capacity
    ensures var s := run[k];
      if |Contents(s)| < capacity && !(s.queue >= capacity && ReaderOf(s, s.queue - capacity)) then
        && Solo(s, i, late, 6).threads[i] == Finished(PutOk(s.queue, item))
        && Contents(Solo(s, i, late, 6)) == Contents(s) + [item]
      else
        Solo(s, i, late, 4) == With(s, i, if offer then Finished(PutRefused) else PutLoop(item, offer, s.queue))
  {
    RunInv(run, capacity, k);
    var s := run[k];
    NotFree(s);
    PutLooks(s, i, late, item, offer);
    if s.At(s.queue).position == s.queue {
      PutStores(s, i, late, item, offer);
    }
  }

  lemma {:induction false} PutStores<T>(s: State<T>, i: nat, late: nat -> bool, item: T, offer: bool)
    requires Inv(s) && i < |s.threads| && Solo(s, i, late, 3) == With(s, i, PutCas(item, offer, s.queue))
    ensures Solo(s, i, late, 6).threads[i] == Finished(PutOk(s.queue, item))
    ensures Contents(Solo(s, i, late, 6)) == Contents(s) + [item]
  {
    var s1 := s.(queue := s.queue + 1, enqueued := s.enqueued + [item]);
    assert Solo(s, i, late, 4) == With(s1, i, PutFill(item, s.queue));
    var s2 := SetSlot(s1, s.queue, s1.At(s.queue).(data := Some(item)));
    assert Solo(s, i, late, 5) == With(s2, i, PutPublish(item, s.queue));
    assert (s.enqueued + [item])[s.dequeue..] == s.enqueued[s.dequeue..] + [item];
  }

  // ------------------------------------------------------------ NewRingBuffer

  /** What NewRingBuffer builds for a size is a bounded FIFO queue exactly if the size is at least two. */
  lemma {:induction false} NewIsFifoIff<T(!new)>(size: nat, item: T)
    requires size >= 1
    ensures AlwaysFifo<T>(RoundUp(size)) <==> size >= 2
  {
    FifoIffTwoSlots(RoundUp(size), item);
  }
}
