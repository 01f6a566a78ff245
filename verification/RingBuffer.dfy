/**
 * The bounded multi-producer multi-consumer ring buffer of queue/ring.go.
 *
 * Every atomic load, compare-and-swap, store and every access to a slot's data
 * is one step of a state machine; any number of threads interleave freely.
 * `enqueued` and `returned` are history variables: no step reads them.
 */
module RingBuffer {
  import opened Basics
  import opened Bits

  /** One element of `nodes`: the sequence number and the stored item. */
  datatype Slot<T> = Slot(position: nat, data: Option<T>)

  /** Outcome of a call, as its caller sees it. */
  datatype Outcome<T> =
    | PutOk(ticket: nat, item: T)
    | PutRefused            // Offer answering false
    | GetOk(ticket: nat, value: Option<T>)
    | TimedOut
    | Disposed

  /** Program counter and locals of one thread inside `put` or `Poll`. */
  datatype Thread<T> =
    | Idle
    | Finished(outcome: Outcome<T>)
    // put
    | PutStart(item: T, offer: bool)
    | PutLoop(item: T, offer: bool, pos: nat)
    | PutSeq(item: T, offer: bool, pos: nat)
    | PutCas(item: T, offer: bool, pos: nat)
    | PutReload(item: T, offer: bool)
    | PutFill(item: T, pos: nat)
    | PutPublish(item: T, pos: nat)
    // Poll
    | GetStart
    | GetLoop(pos: nat)
    | GetSeq(pos: nat)
    | GetCas(pos: nat)
    | GetReload
    | GetTake(pos: nat)
    | GetClear(pos: nat, got: Option<T>)
    | GetRelease(pos: nat, got: Option<T>)
  {
    /** Between winning the enqueue CAS and publishing the slot. */
    predicate Writes() { PutFill? || PutPublish? }

    /** Between winning the dequeue CAS and releasing the slot. */
    predicate Reads() { GetTake? || GetClear? || GetRelease? }
  }

  datatype State<T> = State(
    queue: nat,
    dequeue: nat,
    disposed: bool,
    slots: seq<Slot<T>>,
    threads: seq<Thread<T>>,
    enqueued: seq<T>,          // item of the k-th successful enqueue CAS
    returned: map<nat, T>      // ticket of each finished Poll and what it handed out
  ) {
    function At(ticket: nat): (s: Slot<T>)
      requires |slots| > 0
    {
      slots[Index(ticket, |slots|)]
    }
  }

  /**
   * `pos & mask`: the ticket reduced modulo the capacity (see IndexIsMask), by
   * taking off one lap at a time.
   */
  function Index(ticket: nat, capacity: nat): (i: nat)
    requires capacity > 0
    ensures i < capacity
  {
    if ticket < capacity then ticket else Index(ticket - capacity, capacity)
  }

  /** The state `init` builds, with `count` threads about to make calls. */
  function Initial<T>(capacity: nat, count: nat): (s: State<T>) {
    State(0, 0, false, seq(capacity, i requires 0 <= i => Slot(i, None)), seq(count, _ => Idle), [], map[])
  }

  // ---------------------------------------------------------------- steps

  /** What one step of thread `i` does besides moving that thread. */
  function SetSlot<T>(s: State<T>, ticket: nat, slot: Slot<T>): (r: State<T>)
    requires |s.slots| > 0
  {
    s.(slots := s.slots[Index(ticket, |s.slots|) := slot])
  }

  /** After a failed round of put's loop: Offer gives up, Put goes round again. */
  function PutAgain<T>(item: T, offer: bool, pos: nat): (t: Thread<T>) {
    if offer then Finished(PutRefused) else PutLoop(item, offer, pos)
  }

  /** After a failed round of Poll's loop; `late` says the timeout has passed. */
  function GetAgain<T>(pos: nat, late: bool): (t: Thread<T>) {
    if late then Finished(TimedOut) else GetLoop(pos)
  }

  /**
   * The next atomic action of a running thread: the shared state after it and the
   * thread's own new state. `late` is the clock's answer to a timed Poll.
   * Sequence numbers are unsigned, so "dif < 0" never holds and every difference
   * other than zero takes the default branch.
   */
  function Act<T>(s: State<T>, t: Thread<T>, late: bool): (r: (State<T>, Thread<T>))
    requires |s.slots| > 0
  {
    match t
    case Idle => (s, t)
    case Finished(_) => (s, t)
    case PutStart(item, offer) => (s, PutLoop(item, offer, s.queue))
    case PutLoop(item, offer, pos) => (s, if s.disposed then Finished(Disposed) else PutSeq(item, offer, pos))
    case PutSeq(item, offer, pos) =>
      (s, if s.At(pos).position == pos then PutCas(item, offer, pos) else PutReload(item, offer))
    case PutCas(item, offer, pos) =>
      if s.queue == pos
      then (s.(queue := pos + 1, enqueued := s.enqueued + [item]), PutFill(item, pos))
      else (s, PutAgain(item, offer, pos))
    case PutReload(item, offer) => (s, PutAgain(item, offer, s.queue))
    case PutFill(item, pos) => (SetSlot(s, pos, s.At(pos).(data := Some(item))), PutPublish(item, pos))
    case PutPublish(item, pos) => (SetSlot(s, pos, s.At(pos).(position := pos + 1)), Finished(PutOk(pos, item)))
    case GetStart => (s, GetLoop(s.dequeue))
    case GetLoop(pos) => (s, if s.disposed then Finished(Disposed) else GetSeq(pos))
    case GetSeq(pos) => (s, if s.At(pos).position == pos + 1 then GetCas(pos) else GetReload)
    case GetCas(pos) =>
      if s.dequeue == pos then (s.(dequeue := pos + 1), GetTake(pos)) else (s, GetAgain(pos, late))
    case GetReload => (s, GetAgain(s.dequeue, late))
    case GetTake(pos) => (s, GetClear(pos, s.At(pos).data))
    case GetClear(pos, got) => (SetSlot(s, pos, s.At(pos).(data := None)), GetRelease(pos, got))
    case GetRelease(pos, got) =>
      (SetSlot(s, pos, s.At(pos).(position := pos + |s.slots|)).(
         returned := if got.Some? then s.returned[pos := got.value] else s.returned),
       Finished(GetOk(pos, got)))
  }

  /** Thread `i` takes its next atomic action. */
  function ThreadStep<T>(s: State<T>, i: nat, late: bool): (r: State<T>)
    requires i < |s.threads| && |s.slots| > 0
  {
    var (s', t') := Act(s, s.threads[i], late);
    s'.(threads := s'.threads[i := t'])
  }

  ghost predicate Next<T(!new)>(s: State<T>, s': State<T>) {
    || s' == s.(disposed := true)
    || (exists i, call :: Begins(s, s', i, call))
    || (exists i, late :: Moves(s, s', i, late))
  }

  /** A thread outside any call begins one. */
  ghost predicate Begins<T>(s: State<T>, s': State<T>, i: nat, call: Thread<T>) {
    && i < |s.threads|
    && (s.threads[i].Idle? || s.threads[i].Finished?)
    && (call.PutStart? || call.GetStart?)
    && s' == s.(threads := s.threads[i := call])
  }

  ghost predicate Moves<T>(s: State<T>, s': State<T>, i: nat, late: bool) {
    i < |s.threads| && |s.slots| > 0 && s' == ThreadStep(s, i, late)
  }

  ghost predicate IsRun<T(!new)>(run: seq<State<T>>, capacity: nat) {
    && |run| > 0
    && run[0] == Initial(capacity, |run[0].threads|)
    && forall k: nat :: k + 1 < |run| ==> StepAt(run, k)
  }

  ghost predicate StepAt<T(!new)>(run: seq<State<T>>, k: nat)
    requires k + 1 < |run|
  {
    Next(run[k], run[k + 1])
  }

  // ------------------------------------------------------------ invariant

  ghost predicate WriterOf<T>(s: State<T>, ticket: nat) {
    exists i :: 0 <= i < |s.threads| && s.threads[i].Writes() && s.threads[i].pos == ticket
  }

  ghost predicate ReaderOf<T>(s: State<T>, ticket: nat) {
    exists i :: 0 <= i < |s.threads| && s.threads[i].Reads() && s.threads[i].pos == ticket
  }

  /** What a thread knows while it is at its program counter. */
  ghost predicate ThreadInv<T>(s: State<T>, t: Thread<T>)
    requires |s.slots| > 0 && |s.enqueued| == s.queue
  {
    match t
    case PutLoop(_, _, pos) => pos <= s.queue
    case PutSeq(_, _, pos) => pos <= s.queue
    case PutCas(_, _, pos) => pos < s.queue || (pos == s.queue && s.At(pos).position == pos)
    case PutFill(item, pos) => s.dequeue <= pos < s.queue && s.At(pos).position == pos && s.enqueued[pos] == item
    case PutPublish(item, pos) =>
      s.dequeue <= pos < s.queue && s.At(pos) == Slot(pos, Some(item)) && s.enqueued[pos] == item
    case GetLoop(pos) => pos <= s.dequeue
    case GetSeq(pos) => pos <= s.dequeue
    case GetCas(pos) => pos < s.dequeue || (pos == s.dequeue && s.At(pos).position == pos + 1)
    case GetTake(pos) =>
      s.dequeue - |s.slots| <= pos < s.dequeue <= s.queue && pos !in s.returned &&
      s.At(pos) == Slot(pos + 1, Some(s.enqueued[pos]))
    case GetClear(pos, got) =>
      s.dequeue - |s.slots| <= pos < s.dequeue <= s.queue && pos !in s.returned &&
      s.At(pos).position == pos + 1 && got == Some(s.enqueued[pos])
    case GetRelease(pos, got) =>
      s.dequeue - |s.slots| <= pos < s.dequeue <= s.queue && pos !in s.returned &&
      s.At(pos).position == pos + 1 && got == Some(s.enqueued[pos])
    case Finished(PutOk(pos, item)) => pos < s.queue && s.enqueued[pos] == item
    case Finished(GetOk(pos, got)) => pos < s.queue && pos in s.returned && got == Some(s.enqueued[pos])
    case _ => true
  }

  /** Where the slot of `ticket`, one of the `capacity` tickets from `dequeue` on, stands. */
  ghost predicate TicketInv<T>(s: State<T>, ticket: nat)
    requires |s.slots| > 0 && |s.enqueued| == s.queue
  {
    if ticket < s.queue then
      || (s.At(ticket).position == ticket && WriterOf(s, ticket))
      || s.At(ticket) == Slot(ticket + 1, Some(s.enqueued[ticket]))
    else
      || s.At(ticket).position == ticket
      || (ticket >= |s.slots| && s.At(ticket).position == ticket - |s.slots| + 1 && ReaderOf(s, ticket - |s.slots|))
  }

  /** Two threads inside the critical part of put, or of Poll, hold different tickets. */
  ghost predicate Exclusive<T>(s: State<T>) {
    forall i, j :: 0 <= i < j < |s.threads| &&
      (s.threads[i].Writes() || s.threads[i].Reads()) && (s.threads[j].Writes() || s.threads[j].Reads())
      ==> s.threads[i].pos != s.threads[j].pos
  }

  ghost predicate Inv<T>(s: State<T>) {
    && |s.slots| >= 2
    && |s.enqueued| == s.queue
    && s.dequeue <= s.queue <= s.dequeue + |s.slots|
    && (forall i :: 0 <= i < |s.threads| ==> ThreadInv(s, s.threads[i]))
    && (forall k :: s.dequeue <= k < s.dequeue + |s.slots| ==> TicketInv(s, k))
    && Exclusive(s)
    && (forall k :: k in s.returned ==> k < s.dequeue && s.returned[k] == s.enqueued[k])
    && (forall k :: 0 <= k < s.dequeue ==> k in s.returned || ReaderOf(s, k))
  }

  // ------------------------------------------------- slots of nearby tickets

  lemma {:induction false} IndexIsRemainder(ticket: nat, n: nat)
    requires n > 0
    ensures Index(ticket, n) == ticket % n
  {
    if ticket >= n {
      IndexIsRemainder(ticket - n, n);
      RemainderOfNextLap(ticket - n, n);
    }
  }

  lemma {:induction false} RemainderOfNextLap(a: nat, n: nat)
    requires n > 0
    ensures (a + n) % n == a % n
  {
    Unique(a + n, n, a / n + 1, a % n);
  }

  /** With a power of two of slots, the index of a ticket is `pos & mask`. */
  lemma {:induction false} IndexIsMask(ticket: nat, n: nat)
    requires IsPowerOfTwo(n)
    ensures Index(ticket, n) == And(ticket, n - 1)
  {
    IndexIsRemainder(ticket, n);
    MaskIsRemainder(ticket, n);
  }

  lemma {:induction false} NearbyTicketsDiffer(a: nat, b: nat, n: nat)
    requires n > 0 && a < b < a + n
    ensures Index(a, n) != Index(b, n)
  {
    if a >= n {
      NearbyTicketsDiffer(a - n, b - n, n);
    }
  }

  /** Tickets sharing a slot are equal or at least one lap apart. */
  lemma {:induction false} SameSlot(a: nat, b: nat, n: nat)
    requires n > 0
    ensures Index(a, n) == Index(b, n) ==> a == b || a + n <= b || b + n <= a
  {
    if a < b < a + n { NearbyTicketsDiffer(a, b, n); }
    if b < a < b + n { NearbyTicketsDiffer(b, a, n); }
  }

  // ------------------------------------------------- keeping the invariant

  ghost predicate OnlyThread<T>(s: State<T>, s': State<T>, i: nat) {
    i < |s.threads| && |s'.threads| == |s.threads| &&
    forall j :: 0 <= j < |s.threads| && j != i ==> s'.threads[j] == s.threads[j]
  }

  lemma {:induction false} OwnersKept<T>(s: State<T>, s': State<T>, i: nat, ticket: nat)
    requires OnlyThread(s, s', i)
    ensures WriterOf(s, ticket) && !(s.threads[i].Writes() && s.threads[i].pos == ticket) ==> WriterOf(s', ticket)
    ensures ReaderOf(s, ticket) && !(s.threads[i].Reads() && s.threads[i].pos == ticket) ==> ReaderOf(s', ticket)
    ensures s'.threads[i].Writes() && s'.threads[i].pos == ticket ==> WriterOf(s', ticket)
    ensures s'.threads[i].Reads() && s'.threads[i].pos == ticket ==> ReaderOf(s', ticket)
  {
    if WriterOf(s, ticket) && !(s.threads[i].Writes() && s.threads[i].pos == ticket) {
      var j :| 0 <= j < |s.threads| && s.threads[j].Writes() && s.threads[j].pos == ticket;
      assert s'.threads[j] == s.threads[j];
    }
    if ReaderOf(s, ticket) && !(s.threads[i].Reads() && s.threads[i].pos == ticket) {
      var j :| 0 <= j < |s.threads| && s.threads[j].Reads() && s.threads[j].pos == ticket;
      assert s'.threads[j] == s.threads[j];
    }
  }

  /** A step that moves one thread between points where it owns no slot. */
  lemma {:induction false} QuietStepKeepsInv<T>(s: State<T>, s': State<T>, i: nat)
    requires Inv(s) && OnlyThread(s, s', i)
    requires s' == s.(threads := s'.threads, disposed := s'.disposed)
    requires !s.threads[i].Writes() && !s.threads[i].Reads()
    requires !s'.threads[i].Writes() && !s'.threads[i].Reads()
    requires ThreadInv(s, s'.threads[i])
    ensures Inv(s')
  {
    forall k ensures WriterOf(s, k) ==> WriterOf(s', k)
             ensures ReaderOf(s, k) ==> ReaderOf(s', k) {
      OwnersKept(s, s', i, k);
    }
    forall k | s'.dequeue <= k < s'.dequeue + |s'.slots| ensures TicketInv(s', k) {
      assert TicketInv(s, k);
    }
    forall j | 0 <= j < |s'.threads| ensures ThreadInv(s', s'.threads[j]) {
      if j != i { assert ThreadInv(s, s.threads[j]); }
    }
  }

  /** A ticket whose slot, owner and side of `queue` a step leaves alone. */
  lemma {:induction false} TicketKept<T>(s: State<T>, s': State<T>, i: nat, k: nat)
    requires |s.slots| == |s'.slots| > 0
    requires |s.enqueued| == s.queue && |s'.enqueued| == s'.queue && s.enqueued <= s'.enqueued
    requires OnlyThread(s, s', i) && TicketInv(s, k) && s'.At(k) == s.At(k)
    requires k < s.queue || s'.queue <= k
    requires s.threads[i].Writes() ==> s.threads[i].pos != k
    requires s.threads[i].Reads() && k >= |s.slots| ==> s.threads[i].pos != k - |s.slots|
    ensures TicketInv(s', k)
  {
    OwnersKept(s, s', i, k);
    if k >= |s.slots| { OwnersKept(s, s', i, k - |s.slots|); }
  }

  /** A finished Poll stays recorded and a running one stays a running one. */
  lemma {:induction false} PastKept<T>(s: State<T>, s': State<T>, i: nat)
    requires Inv(s) && OnlyThread(s, s', i) && s'.returned == s.returned && s'.dequeue >= s.dequeue
    requires s.enqueued <= s'.enqueued
    requires s.threads[i].Reads() ==> s'.threads[i].Reads() && s'.threads[i].pos == s.threads[i].pos
    ensures forall k :: k in s'.returned ==> k < s'.dequeue && k < |s.enqueued| && s'.returned[k] == s'.enqueued[k]
    ensures forall k :: 0 <= k < s.dequeue ==> k in s'.returned || ReaderOf(s', k)
  {
    forall k | 0 <= k < s.dequeue ensures k in s'.returned || ReaderOf(s', k) {
      OwnersKept(s, s', i, k);
    }
  }

  lemma {:induction false} EnqueueCasHasRoom<T>(s: State<T>, i: nat)
    requires Inv(s) && i < |s.threads| && s.threads[i].PutCas? && s.threads[i].pos == s.queue
    ensures s.queue < s.dequeue + |s.slots|
    ensures s.At(s.queue).position == s.queue
  {
    assert ThreadInv(s, s.threads[i]);
    // In a full buffer the slot would still hold the oldest ticket, not this one.
    assert Index(s.dequeue + |s.slots|, |s.slots|) == Index(s.dequeue, |s.slots|);
    assert TicketInv(s, s.dequeue);
  }

  lemma {:induction false} EnqueueCasThread<T>(s: State<T>, s': State<T>, t: Thread<T>, item: T)
    requires |s.slots| > 0 && |s.enqueued| == s.queue && ThreadInv(s, t)
    requires s' == s.(queue := s.queue + 1, enqueued := s.enqueued + [item], threads := s'.threads)
    ensures ThreadInv(s', t)
  {
  }

  lemma {:induction false} EnqueueThreads<T>(s: State<T>, i: nat, late: bool, j: nat)
    requires Inv(s) && i < |s.threads| && s.threads[i].PutCas? && s.threads[i].pos == s.queue && j < |s.threads|
    ensures ThreadInv(ThreadStep(s, i, late), ThreadStep(s, i, late).threads[j])
    ensures j != i && (s.threads[j].Writes() || s.threads[j].Reads()) ==> s.threads[j].pos != s.queue
  {
    EnqueueCasHasRoom(s, i);
    if j != i {
      assert ThreadInv(s, s.threads[j]);
      EnqueueCasThread(s, ThreadStep(s, i, late), s.threads[j], s.threads[i].item);
    }
  }

  lemma {:induction false} EnqueueCasKeepsInv<T>(s: State<T>, i: nat, late: bool)
    requires Inv(s) && i < |s.threads| && s.threads[i].PutCas? && s.threads[i].pos == s.queue
    ensures Inv(ThreadStep(s, i, late))
  {
    var s' := ThreadStep(s, i, late);
    EnqueueCasHasRoom(s, i);
    PastKept(s, s', i);
    OwnersKept(s, s', i, s.queue);
    forall k | s'.dequeue <= k < s'.dequeue + |s'.slots| ensures TicketInv(s', k) {
      if k != s.queue { TicketKept(s, s', i, k); }
    }
    forall j | 0 <= j < |s'.threads|
      ensures ThreadInv(s', s'.threads[j])
      ensures j != i && (s.threads[j].Writes() || s.threads[j].Reads()) ==> s.threads[j].pos != s.queue
    {
      EnqueueThreads(s, i, late, j);
    }
    WinnerExclusive(s, s', i);
  }

  lemma {:induction false} DequeueCasHasItem<T>(s: State<T>, i: nat)
    requires Inv(s) && i < |s.threads| && s.threads[i].GetCas? && s.threads[i].pos == s.dequeue
    ensures s.dequeue < s.queue
    ensures s.At(s.dequeue) == Slot(s.dequeue + 1, Some(s.enqueued[s.dequeue]))
  {
    assert ThreadInv(s, s.threads[i]);
    assert TicketInv(s, s.dequeue);
  }

  lemma {:induction false} DequeueCasThread<T>(s: State<T>, s': State<T>, t: Thread<T>)
    requires Inv(s) && ThreadInv(s, t)
    requires s' == s.(dequeue := s.dequeue + 1, threads := s'.threads)
    requires s.dequeue < s.queue && s.At(s.dequeue).position == s.dequeue + 1
    requires t.Reads() ==> s.dequeue < t.pos + |s.slots|
    ensures ThreadInv(s', t)
  {
  }

  /** The reader one lap behind has left before the slot was filled again. */
  lemma {:induction false} NoReaderOneLapBehind<T>(s: State<T>, j: nat)
    requires Inv(s) && j < |s.threads| && s.threads[j].Reads()
    requires s.At(s.dequeue).position == s.dequeue + 1
    ensures s.dequeue < s.threads[j].pos + |s.slots|
  {
    var n, pos := |s.slots|, s.threads[j].pos;
    assert ThreadInv(s, s.threads[j]);
    assert Index(pos + n, n) == Index(pos, n);
  }

  lemma {:induction false} DequeueTickets<T>(s: State<T>, i: nat, late: bool, k: nat)
    requires Inv(s) && i < |s.threads| && s.threads[i].GetCas? && s.threads[i].pos == s.dequeue
    requires s.dequeue < k <= s.dequeue + |s.slots|
    ensures TicketInv(ThreadStep(s, i, late), k)
  {
    var s' := ThreadStep(s, i, late);
    var n, pos := |s.slots|, s.dequeue;
    DequeueCasHasItem(s, i);
    if k < pos + n {
      TicketKept(s, s', i, k);
    } else {
      OwnersKept(s, s', i, pos);
      assert Index(pos + n, n) == Index(pos, n);
    }
  }

  lemma {:induction false} DequeueThreads<T>(s: State<T>, i: nat, late: bool, j: nat)
    requires Inv(s) && i < |s.threads| && s.threads[i].GetCas? && s.threads[i].pos == s.dequeue && j < |s.threads|
    ensures ThreadInv(ThreadStep(s, i, late), ThreadStep(s, i, late).threads[j])
    ensures j != i && (s.threads[j].Writes() || s.threads[j].Reads()) ==> s.threads[j].pos != s.dequeue
  {
    var s' := ThreadStep(s, i, late);
    DequeueCasHasItem(s, i);
    if j != i {
      assert ThreadInv(s, s.threads[j]);
      if s.threads[j].Reads() { NoReaderOneLapBehind(s, j); }
      DequeueCasThread(s, s', s.threads[j]);
    } else {
      assert s.dequeue !in s.returned;
    }
  }

  /** The thread that wins a ticket is its only owner. */
  lemma {:induction false} WinnerExclusive<T>(s: State<T>, s': State<T>, i: nat)
    requires Exclusive(s) && OnlyThread(s, s', i) && (s'.threads[i].Writes() || s'.threads[i].Reads())
    requires forall j :: 0 <= j < |s.threads| && j != i && (s.threads[j].Writes() || s.threads[j].Reads()) ==>
      s.threads[j].pos != s'.threads[i].pos
    ensures Exclusive(s')
  {
  }

  lemma {:induction false} DequeueCasKeepsInv<T>(s: State<T>, i: nat, late: bool)
    requires Inv(s) && i < |s.threads| && s.threads[i].GetCas? && s.threads[i].pos == s.dequeue
    ensures Inv(ThreadStep(s, i, late))
  {
    var s' := ThreadStep(s, i, late);
    DequeueCasHasItem(s, i);
    PastKept(s, s', i);
    OwnersKept(s, s', i, s.dequeue);
    forall k | s'.dequeue <= k < s'.dequeue + |s'.slots| ensures TicketInv(s', k) {
      DequeueTickets(s, i, late, k);
    }
    forall j | 0 <= j < |s'.threads|
      ensures ThreadInv(s', s'.threads[j])
      ensures j != i && (s.threads[j].Writes() || s.threads[j].Reads()) ==> s.threads[j].pos != s.dequeue
    {
      DequeueThreads(s, i, late, j);
    }
    WinnerExclusive(s, s', i);
  }

  // ------------------------------------------------- the owner of a slot

  /** What an owner writes: the slot it owns and, on release, its own record. */
  ghost predicate OwnerWrites<T>(s: State<T>, s': State<T>, i: nat, slot: Slot<T>) {
    && |s.slots| > 0 && OnlyThread(s, s', i)
    && (s.threads[i].Writes() || s.threads[i].Reads())
    && s'.slots == SetSlot(s, s.threads[i].pos, slot).slots
    && s'.queue == s.queue && s'.dequeue == s.dequeue && s'.enqueued == s.enqueued
    && (s'.returned.Keys == s.returned.Keys || s'.returned.Keys == s.returned.Keys + {s.threads[i].pos})
  }

  /** Another thread's knowledge does not mention the slot, or mentions another lap of it. */
  lemma {:induction false} OtherThreadKept<T>(s: State<T>, s': State<T>, i: nat, j: nat, slot: Slot<T>)
    requires Inv(s) && OwnerWrites(s, s', i, slot)
    requires 0 <= j < |s.threads| && j != i
    ensures ThreadInv(s', s.threads[j])
  {
    var n, mine, t := |s.slots|, s.threads[i].pos, s.threads[j];
    assert ThreadInv(s, s.threads[i]);
    assert ThreadInv(s, t);
    assert i < j || j < i;
    if t.PutCas? || t.GetCas? || t.Writes() || t.Reads() {
      SameSlot(t.pos, mine, n);
    }
  }

  lemma {:induction false} OtherTicketKept<T>(s: State<T>, s': State<T>, i: nat, k: nat, slot: Slot<T>)
    requires Inv(s) && OwnerWrites(s, s', i, slot)
    requires s.dequeue <= k < s.dequeue + |s.slots|
    requires s.threads[i].Writes() ==> k != s.threads[i].pos
    requires s.threads[i].Reads() ==> k != s.threads[i].pos + |s.slots|
    ensures TicketInv(s', k)
  {
    var n, mine := |s.slots|, s.threads[i].pos;
    assert ThreadInv(s, s.threads[i]);
    assert Index(mine + n, n) == Index(mine, n);
    SameSlot(k, mine, n);
    SameSlot(k, mine + n, n);
    TicketKept(s, s', i, k);
  }

  /** The threads keep their knowledge if the owner has its own. */
  lemma {:induction false} OwnerThreads<T>(s: State<T>, s': State<T>, i: nat, slot: Slot<T>)
    requires Inv(s) && OwnerWrites(s, s', i, slot) && |s'.slots| > 0 && |s'.enqueued| == s'.queue
    requires ThreadInv(s', s'.threads[i])
    ensures forall j :: 0 <= j < |s'.threads| ==> ThreadInv(s', s'.threads[j])
  {
    forall j | 0 <= j < |s'.threads| ensures ThreadInv(s', s'.threads[j]) {
      if j != i { OtherThreadKept(s, s', i, j, slot); }
    }
  }

  /** The owner keeps its ticket or lets it go. */
  lemma {:induction false} OwnerExclusive<T>(s: State<T>, s': State<T>, i: nat)
    requires Exclusive(s) && OnlyThread(s, s', i)
    requires s'.threads[i].Writes() || s'.threads[i].Reads() ==>
      (s.threads[i].Writes() || s.threads[i].Reads()) && s'.threads[i].pos == s.threads[i].pos
    ensures Exclusive(s')
  {
  }

  lemma {:induction false} PublishActs<T>(s: State<T>, i: nat, late: bool)
    requires Inv(s) && i < |s.threads| && s.threads[i].Writes()
    ensures var s' := ThreadStep(s, i, late);
      && OwnerWrites(s, s', i, s'.At(s.threads[i].pos)) && ThreadInv(s', s'.threads[i])
      && TicketInv(s', s.threads[i].pos) && s'.returned == s.returned
      && (s'.threads[i].Writes() || s'.threads[i].Reads() ==> s'.threads[i].pos == s.threads[i].pos)
  {
    var s' := ThreadStep(s, i, late);
    assert ThreadInv(s, s.threads[i]);
    OwnersKept(s, s', i, s.threads[i].pos);
  }

  lemma {:induction false} PublishKeepsInv<T>(s: State<T>, i: nat, late: bool)
    requires Inv(s) && i < |s.threads| && s.threads[i].Writes()
    ensures Inv(ThreadStep(s, i, late))
  {
    var s' := ThreadStep(s, i, late);
    var pos := s.threads[i].pos;
    PublishActs(s, i, late);
    PastKept(s, s', i);
    OwnerThreads(s, s', i, s'.At(pos));
    OwnerExclusive(s, s', i);
    forall k | s'.dequeue <= k < s'.dequeue + |s'.slots| ensures TicketInv(s', k) {
      if k != pos { OtherTicketKept(s, s', i, k, s'.At(pos)); }
    }
  }

  lemma {:induction false} ReleasedTicket<T>(s: State<T>, i: nat, late: bool)
    requires Inv(s) && i < |s.threads| && s.threads[i].Reads()
    ensures TicketInv(ThreadStep(s, i, late), s.threads[i].pos + |s.slots|)
  {
    var s' := ThreadStep(s, i, late);
    var n, pos := |s.slots|, s.threads[i].pos;
    assert ThreadInv(s, s.threads[i]);
    OwnersKept(s, s', i, pos);
    assert Index(pos + n, n) == Index(pos, n);
    assert TicketInv(s, pos + n);
  }

  lemma {:induction false} ReleasedPast<T>(s: State<T>, i: nat, late: bool)
    requires Inv(s) && i < |s.threads| && s.threads[i].Reads()
    ensures var s' := ThreadStep(s, i, late);
      && (forall k :: k in s'.returned ==> k < s'.dequeue && s'.returned[k] == s'.enqueued[k])
      && (forall k :: 0 <= k < s'.dequeue ==> k in s'.returned || ReaderOf(s', k))
  {
    var s' := ThreadStep(s, i, late);
    assert ThreadInv(s, s.threads[i]);
    forall k | 0 <= k < s.dequeue ensures k in s'.returned || ReaderOf(s', k) {
      OwnersKept(s, s', i, k);
    }
  }

  lemma {:induction false} ReleaseActs<T>(s: State<T>, i: nat, late: bool)
    requires Inv(s) && i < |s.threads| && s.threads[i].Reads()
    ensures var s' := ThreadStep(s, i, late);
      && OwnerWrites(s, s', i, s'.At(s.threads[i].pos)) && ThreadInv(s', s'.threads[i])
      && (s'.threads[i].Writes() || s'.threads[i].Reads() ==> s'.threads[i].pos == s.threads[i].pos)
  {
    assert ThreadInv(s, s.threads[i]);
  }

  lemma {:induction false} ReleaseKeepsInv<T>(s: State<T>, i: nat, late: bool)
    requires Inv(s) && i < |s.threads| && s.threads[i].Reads()
    ensures Inv(ThreadStep(s, i, late))
  {
    var s' := ThreadStep(s, i, late);
    var n, pos := |s.slots|, s.threads[i].pos;
    ReleaseActs(s, i, late);
    ReleasedPast(s, i, late);
    OwnerThreads(s, s', i, s'.At(pos));
    OwnerExclusive(s, s', i);
    forall k | s'.dequeue <= k < s'.dequeue + n ensures TicketInv(s', k) {
      ReleaseTickets(s, i, late, k);
    }
  }

  lemma {:induction false} ReleaseTickets<T>(s: State<T>, i: nat, late: bool, k: nat)
    requires Inv(s) && i < |s.threads| && s.threads[i].Reads() && s.dequeue <= k < s.dequeue + |s.slots|
    ensures TicketInv(ThreadStep(s, i, late), k)
  {
    var s', pos := ThreadStep(s, i, late), s.threads[i].pos;
    if k == pos + |s.slots| {
      ReleasedTicket(s, i, late);
    } else {
      ReleaseActs(s, i, late);
      OtherTicketKept(s, s', i, k, s'.At(pos));
    }
  }

  ghost predicate IsPut<T>(t: Thread<T>) { t.PutStart? || t.PutLoop? || t.PutSeq? || t.PutCas? || t.PutReload? }

  lemma {:induction false} QuietPut<T>(s: State<T>, i: nat, late: bool)
    requires Inv(s) && i < |s.threads| && IsPut(s.threads[i])
    requires s.threads[i].PutCas? ==> s.threads[i].pos != s.queue
    ensures var (s', t') := Act(s, s.threads[i], late);
      s' == s && ThreadInv(s, t') && !t'.Writes() && !t'.Reads()
  {
    assert ThreadInv(s, s.threads[i]);
  }

  lemma {:induction false} QuietGet<T>(s: State<T>, i: nat, late: bool)
    requires Inv(s) && i < |s.threads| && !IsPut(s.threads[i]) && !s.threads[i].Writes() && !s.threads[i].Reads()
    requires s.threads[i].GetCas? ==> s.threads[i].pos != s.dequeue
    ensures var (s', t') := Act(s, s.threads[i], late);
      s' == s && ThreadInv(s, t') && !t'.Writes() && !t'.Reads()
  {
    assert ThreadInv(s, s.threads[i]);
  }

  /** Every other action only moves its thread, to a point whose knowledge it has. */
  lemma {:induction false} QuietAct<T>(s: State<T>, i: nat, late: bool)
    requires Inv(s) && i < |s.threads| && !s.threads[i].Writes() && !s.threads[i].Reads()
    requires s.threads[i].PutCas? ==> s.threads[i].pos != s.queue
    requires s.threads[i].GetCas? ==> s.threads[i].pos != s.dequeue
    ensures var (s', t') := Act(s, s.threads[i], late);
      s' == s && ThreadInv(s, t') && !t'.Writes() && !t'.Reads()
  {
    if IsPut(s.threads[i]) { QuietPut(s, i, late); } else { QuietGet(s, i, late); }
  }

  lemma {:induction false} MoveKeepsInv<T>(s: State<T>, i: nat, late: bool)
    requires Inv(s) && i < |s.threads|
    ensures Inv(ThreadStep(s, i, late))
  {
    var t := s.threads[i];
    if t.Writes() {
      PublishKeepsInv(s, i, late);
    } else if t.Reads() {
      ReleaseKeepsInv(s, i, late);
    } else if t.PutCas? && t.pos == s.queue {
      EnqueueCasKeepsInv(s, i, late);
    } else if t.GetCas? && t.pos == s.dequeue {
      DequeueCasKeepsInv(s, i, late);
    } else {
      QuietAct(s, i, late);
      QuietStepKeepsInv(s, ThreadStep(s, i, late), i);
    }
  }

  lemma {:induction false} DisposeKeepsInv<T>(s: State<T>)
    requires Inv(s)
    ensures Inv(s.(disposed := true))
  {
    var s' := s.(disposed := true);
    forall k | s'.dequeue <= k < s'.dequeue + |s'.slots| ensures TicketInv(s', k) {
      assert TicketInv(s, k);
    }
    forall j | 0 <= j < |s'.threads| ensures ThreadInv(s', s'.threads[j]) {
      assert ThreadInv(s, s.threads[j]);
    }
    forall k | 0 <= k < s.dequeue ensures k in s'.returned || ReaderOf(s', k) {
      assert k in s.returned || ReaderOf(s, k);
    }
  }

  lemma {:induction false} StepKeepsInv<T(!new)>(s: State<T>, s': State<T>)
    requires Inv(s) && Next(s, s')
    ensures Inv(s')
  {
    if i, call :| Begins(s, s', i, call) {
      QuietStepKeepsInv(s, s', i);
    } else if i, late :| Moves(s, s', i, late) {
      MoveKeepsInv(s, i, late);
    } else {
      DisposeKeepsInv(s);
    }
  }

  lemma {:induction false} StepKeepsSize<T(!new)>(s: State<T>, s': State<T>)
    requires Next(s, s')
    ensures |s'.slots| == |s.slots|
  {
  }

  lemma {:induction false} InitialInv<T>(capacity: nat, count: nat)
    requires capacity >= 2
    ensures Inv(Initial<T>(capacity, count))
  {
    var s := Initial<T>(capacity, count);
    forall k | 0 <= k < capacity ensures TicketInv(s, k) {
      assert Index(k, capacity) == k;
    }
  }

  lemma {:induction false} RunInv<T(!new)>(run: seq<State<T>>, capacity: nat, k: nat)
    requires capacity >= 2 && IsRun(run, capacity) && k < |run|
    ensures Inv(run[k]) && |run[k].slots| == capacity
  {
    if k == 0 {
      InitialInv<T>(capacity, |run[0].threads|);
    } else {
      RunInv(run, capacity, k - 1);
      assert StepAt(run, k - 1);
      StepKeepsInv(run[k - 1], run[k]);
      StepKeepsSize(run[k - 1], run[k]);
    }
  }

  // ---------------------------------------------------- bounded FIFO queue

  /** The queue the buffer stands for: items enqueued and not yet dequeued. */
  function Contents<T>(s: State<T>): (c: seq<T>) {
    if s.dequeue <= s.queue == |s.enqueued| then s.enqueued[s.dequeue..] else []
  }

  /** One step of a FIFO queue of bounded capacity. */
  ghost predicate FifoStep<T>(c: seq<T>, c': seq<T>, capacity: nat) {
    || c' == c
    || (|c| < capacity && |c'| == |c| + 1 && c' == c + [c'[|c|]])
    || (|c| > 0 && c' == c[1..])
  }

  ghost predicate IsFifo<T(!new)>(run: seq<State<T>>, capacity: nat) {
    && (forall k :: 0 <= k < |run| ==> run[k].dequeue <= run[k].queue <= run[k].dequeue + capacity)
    && (forall k: nat :: k + 1 < |run| ==> FifoStepAt(run, k, capacity))
  }

  ghost predicate FifoStepAt<T(!new)>(run: seq<State<T>>, k: nat, capacity: nat)
    requires k + 1 < |run|
  {
    FifoStep(Contents(run[k]), Contents(run[k + 1]), capacity)
  }

  /**
   * Which operation a step performs on the FIFO queue: winning the enqueue CAS appends
   * the thread's own item, winning the dequeue CAS removes the head, the rest do nothing.
   */
  lemma {:induction false} MoveIsFifoStep<T>(s: State<T>, i: nat, late: bool)
    requires Inv(s) && i < |s.threads|
    ensures var s', t := ThreadStep(s, i, late), s.threads[i];
      if t.PutCas? && t.pos == s.queue then
        |Contents(s)| < |s.slots| && Contents(s') == Contents(s) + [t.item]
      else if t.GetCas? && t.pos == s.dequeue then
        |Contents(s)| > 0 && Contents(s') == Contents(s)[1..]
      else
        Contents(s') == Contents(s)
  {
    var t := s.threads[i];
    if t.PutCas? && t.pos == s.queue {
      EnqueueCasHasRoom(s, i);
      assert (s.enqueued + [t.item])[s.dequeue..] == s.enqueued[s.dequeue..] + [t.item];
    } else if t.GetCas? && t.pos == s.dequeue {
      DequeueCasHasItem(s, i);
    }
  }

  /** History is only appended to, and only a FIFO removal advances `dequeue`. */
  ghost predicate Forward<T>(s: State<T>, s': State<T>) {
    && |s'.slots| == |s.slots|
    && s.enqueued <= s'.enqueued
    && (s'.dequeue == s.dequeue || |Contents(s)| > 0)
  }

  lemma {:induction false} MoveIsForward<T>(s: State<T>, i: nat, late: bool)
    requires Inv(s) && i < |s.threads|
    ensures Forward(s, ThreadStep(s, i, late))
  {
    if s.threads[i].GetCas? && s.threads[i].pos == s.dequeue { DequeueCasHasItem(s, i); }
  }

  lemma {:induction false} StepIsFifoStep<T(!new)>(s: State<T>, s': State<T>)
    requires Inv(s) && Next(s, s')
    ensures FifoStep(Contents(s), Contents(s'), |s.slots|) && Forward(s, s')
  {
    if i, late :| Moves(s, s', i, late) {
      MoveIsFifoStep(s, i, late);
      MoveIsForward(s, i, late);
    } else if i, call :| Begins(s, s', i, call) {
    }
  }

  /** Every run with at least two slots is a run of the bounded FIFO queue. */
  lemma {:induction false} RunIsFifo<T(!new)>(run: seq<State<T>>, capacity: nat)
    requires capacity >= 2 && IsRun(run, capacity)
    ensures IsFifo(run, capacity)
  {
    forall k: nat | k < |run|
      ensures run[k].dequeue <= run[k].queue <= run[k].dequeue + capacity
      ensures k + 1 < |run| ==> FifoStepAt(run, k, capacity)
    {
      RunInv(run, capacity, k);
      if k + 1 < |run| {
        assert StepAt(run, k);
        StepIsFifoStep(run[k], run[k + 1]);
      }
    }
  }

  lemma {:induction false} HistoryGrows<T(!new)>(run: seq<State<T>>, capacity: nat, a: nat, b: nat)
    requires capacity >= 2 && IsRun(run, capacity) && a <= b < |run|
    ensures run[a].enqueued <= run[b].enqueued
  {
    if a < b {
      HistoryGrows(run, capacity, a, b - 1);
      OneStepOn(run, capacity, b - 1);
    }
  }

  lemma {:induction false} OneStepOn<T(!new)>(run: seq<State<T>>, capacity: nat, k: nat)
    requires capacity >= 2 && IsRun(run, capacity) && k + 1 < |run|
    ensures Forward(run[k], run[k + 1])
  {
    RunInv(run, capacity, k);
    assert StepAt(run, k);
    StepIsFifoStep(run[k], run[k + 1]);
  }

  /**
   * The value a Poll hands out is the head of the queue at the moment its dequeue CAS
   * won, however late it reads the slot; and it is the item whose Put won the enqueue
   * CAS with the same number.
   */
  lemma {:induction false} PollReturnsTheHead<T(!new)>(run: seq<State<T>>, capacity: nat, won: nat, done: nat, i: nat, ticket: nat, got: Option<T>)
    requires capacity >= 2 && IsRun(run, capacity) && won < done < |run|
    requires run[won].dequeue == ticket && run[won + 1].dequeue == ticket + 1
    requires i < |run[done].threads| && run[done].threads[i] == Finished(GetOk(ticket, got))
    ensures |Contents(run[won])| > 0 && got == Some(Contents(run[won])[0])
    ensures ticket < |run[done].enqueued| && got == Some(run[done].enqueued[ticket])
  {
    RunInv(run, capacity, won);
    RunInv(run, capacity, done);
    HistoryGrows(run, capacity, won, done);
    assert ThreadInv(run[done], run[done].threads[i]);
    OneStepOn(run, capacity, won);
  }

  /** A successful Put's item is the one enqueued under its ticket. */
  lemma {:induction false} PutEnqueuedItsItem<T(!new)>(run: seq<State<T>>, capacity: nat, k: nat, i: nat, ticket: nat, item: T)
    requires capacity >= 2 && IsRun(run, capacity) && k < |run|
    requires i < |run[k].threads| && run[k].threads[i] == Finished(PutOk(ticket, item))
    ensures ticket < |run[k].enqueued| && run[k].enqueued[ticket] == item
  {
    RunInv(run, capacity, k);
    assert ThreadInv(run[k], run[k].threads[i]);
  }

  /** The ticket's item lies in its slot. */
  ghost predicate Waiting<T>(s: State<T>, ticket: nat) {
    && ticket >= s.dequeue && |s.slots| > 0 && ticket < |s.enqueued| == s.queue
    && s.At(ticket) == Slot(ticket + 1, Some(s.enqueued[ticket]))
  }

  lemma {:induction false} WriterAlone<T>(s: State<T>, ticket: nat)
    requires Inv(s) && WriterOf(s, ticket)
    ensures s.dequeue <= ticket && s.At(ticket).position == ticket && !ReaderOf(s, ticket) && ticket !in s.returned
  {
    var j :| 0 <= j < |s.threads| && s.threads[j].Writes() && s.threads[j].pos == ticket;
    assert ThreadInv(s, s.threads[j]);
    if ReaderOf(s, ticket) { ReaderAlone(s, ticket); }
  }

  lemma {:induction false} ReaderAlone<T>(s: State<T>, ticket: nat)
    requires Inv(s) && ReaderOf(s, ticket)
    ensures ticket < s.dequeue && ticket !in s.returned
  {
    var j :| 0 <= j < |s.threads| && s.threads[j].Reads() && s.threads[j].pos == ticket;
    assert ThreadInv(s, s.threads[j]);
  }

  /**
   * Nothing is lost or duplicated: each ticket handed to a producer is in exactly one
   * place: with the producer filling its slot, in its slot with its item, with the
   * consumer emptying its slot, or returned.
   */
  lemma {:induction false} EveryTicketIsSomewhere<T(!new)>(run: seq<State<T>>, capacity: nat, k: nat, ticket: nat)
    requires capacity >= 2 && IsRun(run, capacity) && k < |run| && ticket < run[k].queue
    ensures var s := run[k];
      && (WriterOf(s, ticket) || Waiting(s, ticket) || ReaderOf(s, ticket) || ticket in s.returned)
      && !(WriterOf(s, ticket) && (Waiting(s, ticket) || ReaderOf(s, ticket) || ticket in s.returned))
      && !(Waiting(s, ticket) && (ReaderOf(s, ticket) || ticket in s.returned))
      && !(ReaderOf(s, ticket) && ticket in s.returned)
  {
    RunInv(run, capacity, k);
    var s := run[k];
    if ticket >= s.dequeue { assert TicketInv(s, ticket); }
    if WriterOf(s, ticket) { WriterAlone(s, ticket); }
    if ReaderOf(s, ticket) { ReaderAlone(s, ticket); }
  }

  /** No two threads are ever inside the same slot. */
  lemma {:induction false} OneOwnerPerSlot<T(!new)>(run: seq<State<T>>, capacity: nat, k: nat, i: nat, j: nat)
    requires capacity >= 2 && IsRun(run, capacity) && k < |run|
    requires i < |run[k].threads| && j < |run[k].threads| && i != j
    requires run[k].threads[i].Writes() || run[k].threads[i].Reads()
    requires run[k].threads[j].Writes() || run[k].threads[j].Reads()
    ensures Index(run[k].threads[i].pos, capacity) != Index(run[k].threads[j].pos, capacity)
  {
    RunInv(run, capacity, k);
    var s := run[k];
    var a, b := s.threads[i].pos, s.threads[j].pos;
    assert ThreadInv(s, s.threads[i]) && ThreadInv(s, s.threads[j]);
    assert i < j || j < i;
    SameSlot(a, b, capacity);
  }

  // ------------------------------------------------------- a single slot

  /** A buffer with one slot and one thread, before any Poll. */
  function Single<T>(queue: nat, slot: Slot<T>, thread: Thread<T>, enqueued: seq<T>): (s: State<T>) {
    State(queue, 0, false, [slot], [thread], enqueued, map[])
  }

  /** The run in which one thread puts two items into a buffer with a single slot. */
  function TwoPuts<T>(x: T, y: T): (run: seq<State<T>>)
    ensures |run| == 15
  {
    [ Single(0, Slot(0, None), Idle, []),
      Single(0, Slot(0, None), PutStart(x, false), []),
      Single(0, Slot(0, None), PutLoop(x, false, 0), []),
      Single(0, Slot(0, None), PutSeq(x, false, 0), []),
      Single(0, Slot(0, None), PutCas(x, false, 0), []),
      Single(1, Slot(0, None), PutFill(x, 0), [x]),
      Single(1, Slot(0, Some(x)), PutPublish(x, 0), [x]),
      Single(1, Slot(1, Some(x)), Finished(PutOk(0, x)), [x]),
      Single(1, Slot(1, Some(x)), PutStart(y, false), [x]),
      Single(1, Slot(1, Some(x)), PutLoop(y, false, 1), [x]),
      Single(1, Slot(1, Some(x)), PutSeq(y, false, 1), [x]),
      Single(1, Slot(1, Some(x)), PutCas(y, false, 1), [x]),
      Single(2, Slot(1, Some(x)), PutFill(y, 1), [x, y]),
      Single(2, Slot(1, Some(y)), PutPublish(y, 1), [x, y]),
      Single(2, Slot(2, Some(y)), Finished(PutOk(1, y)), [x, y]) ]
  }

  /** A step of the only thread of such a buffer. */
  lemma {:induction false} SingleMoves<T(!new)>(queue: nat, slot: Slot<T>, t: Thread<T>, enqueued: seq<T>, s': State<T>)
    requires var (s, t') := Act(Single(queue, slot, t, enqueued), t, false);
      s' == Single(s.queue, s.slots[0], t', s.enqueued) && |s.slots| == 1 && s.dequeue == 0
      && !s.disposed && s.returned == map[]
    ensures Next(Single(queue, slot, t, enqueued), s')
  {
    assert Moves(Single(queue, slot, t, enqueued), s', 0, false);
  }

  lemma {:induction false} FirstPut<T(!new)>(x: T, y: T)
    ensures forall k :: 0 <= k < 7 ==> Next(TwoPuts(x, y)[k], TwoPuts(x, y)[k + 1])
  {
    var run := TwoPuts(x, y);
    assert Begins(run[0], run[1], 0, PutStart(x, false));
    forall k | 1 <= k < 7 ensures Next(run[k], run[k + 1]) {
      SingleMoves(run[k].queue, run[k].slots[0], run[k].threads[0], run[k].enqueued, run[k + 1]);
    }
  }

  lemma {:induction false} SecondPut<T(!new)>(x: T, y: T)
    ensures forall k :: 7 <= k < 14 ==> Next(TwoPuts(x, y)[k], TwoPuts(x, y)[k + 1])
  {
    var run := TwoPuts(x, y);
    assert Begins(run[7], run[8], 0, PutStart(y, false));
    forall k | 8 <= k < 14 ensures Next(run[k], run[k + 1]) {
      SingleMoves(run[k].queue, run[k].slots[0], run[k].threads[0], run[k].enqueued, run[k + 1]);
    }
  }

  /** With one slot, "published" and "free for the next lap" are the same number. */
  lemma {:induction false} OneSlotOverflows<T(!new)>(x: T, y: T)
    ensures IsRun(TwoPuts(x, y), 1) && !IsFifo(TwoPuts(x, y), 1)
  {
    var run := TwoPuts(x, y);
    FirstPut(x, y);
    SecondPut(x, y);
    assert run[0] == Initial(1, 1);
    assert run[14].queue == 2 && run[14].dequeue == 0;
  }

  ghost predicate AlwaysFifo<T(!new)>(capacity: nat) {
    forall run: seq<State<T>> :: IsRun(run, capacity) ==> IsFifo(run, capacity)
  }

  /** The buffer is a bounded FIFO queue exactly when it has at least two slots. */
  lemma {:induction false} FifoIffTwoSlots<T(!new)>(capacity: nat, item: T)
    requires capacity >= 1
    ensures AlwaysFifo<T>(capacity) <==> capacity >= 2
  {
    if capacity >= 2 {
      forall run: seq<State<T>> | IsRun(run, capacity) ensures IsFifo(run, capacity) {
        RunIsFifo(run, capacity);
      }
    } else {
      OneSlotOverflows(item, item);
    }
  }
}
