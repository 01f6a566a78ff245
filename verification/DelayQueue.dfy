/**
 * The delay queue of timewheel/heap.go: one goroutine in Poll, any number in Offer, and
 * the sleeping flag and unbuffered wakeup channel between them. A critical section under
 * the mutex, an atomic operation and a channel rendezvous are one step each; the clock is
 * arbitrary. Items are named by their priorities and the heap is taken by its contract:
 * the root is a least element, and a pushed item ends up there exactly when it is less
 * than all others. The exit path of Poll is not part of this model.
 */
module DelayQueue {

  /** Where the goroutine in Poll is. */
  datatype Poller =
    | Awake                     // about to lock the queue and look at the head
    | ParkedEmpty               // waiting for a wakeup
    | ParkedUntil(head: int)    // waiting for a wakeup or for the time of `head`
    | TimerFired(head: int)     // the time has come: about to reset `sleeping`
    | Draining                  // receiving the wakeup of an Offer that was faster
    | Delivering(item: int)     // sending a due item on C
  {
    predicate Parked() { ParkedEmpty? || ParkedUntil? || TimerFired? }
  }

  /** Where a goroutine in Offer is. */
  datatype Offerer =
    | Away
    | Pushing(item: int)
    | Waking(item: int)         // the item became the head: about to try sleeping 1 -> 0
    | Sending                   // that succeeded: sending on wakeupC

  datatype State = State(
    pq: multiset<int>,
    sleeping: bool,
    poller: Poller,
    offers: seq<Offerer>,
    pushed: multiset<int>,      // history: every item pushed
    delivered: multiset<int>    // history: every item taken out for delivery
  )

  function Initial(count: nat): (s: State) {
    State(multiset{}, false, Awake, seq(count, _ => Away), multiset{}, multiset{})
  }

  ghost predicate IsLeast(x: int, pq: multiset<int>) {
    x in pq && forall y :: y in pq ==> x <= y
  }

  // ------------------------------------------------------------------ steps

  /** Poll's critical section: peekAndShift at time `now`, and `sleeping` if nothing is due. */
  ghost predicate Looks(s: State, s': State, now: int) {
    && s.poller.Awake?
    && if s.pq == multiset{} then
         s' == s.(sleeping := true, poller := ParkedEmpty)
       else
         exists x :: IsLeast(x, s.pq) &&
           if x > now then s' == s.(sleeping := true, poller := ParkedUntil(x))
           else s' == s.(pq := s.pq - multiset{x}, poller := Delivering(x), delivered := s.delivered + multiset{x})
  }

  /** The select picks the timer. */
  ghost predicate Fires(s: State, s': State) {
    s.poller.ParkedUntil? && s' == s.(poller := TimerFired(s.poller.head))
  }

  /** SwapInt32(&sleeping, 0): if an Offer was faster, its wakeup has to be received. */
  ghost predicate Resets(s: State, s': State) {
    s.poller.TimerFired? && s' == s.(sleeping := false, poller := if s.sleeping then Awake else Draining)
  }

  /** The consumer of C takes the item. */
  ghost predicate HandsOver(s: State, s': State) {
    s.poller.Delivering? && s' == s.(poller := Awake)
  }

  /** A rendezvous on wakeupC. */
  ghost predicate WakesUp(s: State, s': State, i: nat) {
    && i < |s.offers| && s.offers[i].Sending?
    && (s.poller.ParkedEmpty? || s.poller.ParkedUntil? || s.poller.Draining?)
    && s' == s.(poller := Awake, offers := s.offers[i := Away])
  }

  ghost predicate Calls(s: State, s': State, i: nat, item: int) {
    i < |s.offers| && s.offers[i].Away? && s' == s.(offers := s.offers[i := Pushing(item)])
  }

  /** Offer's critical section: heap.Push and the item's index. */
  ghost predicate Pushes(s: State, s': State, i: nat) {
    && i < |s.offers| && s.offers[i].Pushing?
    && var x := s.offers[i].item;
       var first := forall y :: y in s.pq ==> x < y;
       s' == s.(pq := s.pq + multiset{x}, pushed := s.pushed + multiset{x},
                offers := s.offers[i := if first then Waking(x) else Away])
  }

  /** CompareAndSwapInt32(&sleeping, 1, 0) */
  ghost predicate Tries(s: State, s': State, i: nat) {
    && i < |s.offers| && s.offers[i].Waking?
    && s' == s.(sleeping := false, offers := s.offers[i := if s.sleeping then Sending else Away])
  }

  ghost predicate Next(s: State, s': State) {
    || (exists now :: Looks(s, s', now))
    || Fires(s, s') || Resets(s, s') || HandsOver(s, s')
    || (exists i :: WakesUp(s, s', i))
    || (exists i, item :: Calls(s, s', i, item))
    || (exists i :: Pushes(s, s', i))
    || (exists i :: Tries(s, s', i))
  }

  ghost predicate IsRun(run: seq<State>) {
    && |run| > 0 && run[0] == Initial(|run[0].offers|)
    && forall k :: 0 <= k < |run| - 1 ==> Next(run[k], run[k + 1])
  }

  // --------------------------------------------------------------- invariant

  /** Some Offer is committed to sending a wakeup. */
  ghost predicate Committed(s: State) {
    exists i :: 0 <= i < |s.offers| && s.offers[i].Sending?
  }

  /** Some Offer has pushed an item no later than `y` and has yet to look at `sleeping`. */
  ghost predicate AboutToWake(s: State, y: int) {
    exists i :: 0 <= i < |s.offers| && s.offers[i].Waking? && s.offers[i].item <= y
  }

  /** At most one Offer is committed, exactly when the poller is parked but no longer asleep, or draining. */
  ghost predicate OneSender(s: State) {
    && (forall i, j :: 0 <= i < j < |s.offers| ==> !(s.offers[i].Sending? && s.offers[j].Sending?))
    && (Committed(s) <==> (s.poller.Parked() && !s.sleeping) || s.poller.Draining?)
    && (s.sleeping ==> s.poller.Parked())
  }

  /** An item the sleeping poller does not know of has an Offer about to wake it. */
  ghost predicate NoLostWakeup(s: State) {
    s.sleeping ==>
      forall y :: y in s.pq && (s.poller.ParkedEmpty? || (!s.poller.ParkedEmpty? && s.poller.Parked() && y < s.poller.head)) ==>
        AboutToWake(s, y)
  }

  ghost predicate Inv(s: State) {
    OneSender(s) && NoLostWakeup(s) && s.pushed == s.pq + s.delivered
  }

  lemma {:induction false} OffersKept(s: State, s': State, i: nat)
    requires i < |s.offers| && |s'.offers| == |s.offers|
    requires forall j :: 0 <= j < |s.offers| && j != i ==> s'.offers[j] == s.offers[j]
    ensures Committed(s) && !s.offers[i].Sending? ==> Committed(s')
    ensures Committed(s') && !s'.offers[i].Sending? ==> Committed(s)
    ensures s'.offers[i].Sending? ==> Committed(s')
    ensures forall y :: AboutToWake(s, y) && !s.offers[i].Waking? ==> AboutToWake(s', y)
    ensures forall y :: s'.offers[i].Waking? && s'.offers[i].item <= y ==> AboutToWake(s', y)
  {
    if Committed(s) && !s.offers[i].Sending? {
      var j :| 0 <= j < |s.offers| && s.offers[j].Sending?;
      assert s'.offers[j].Sending?;
    }
    if Committed(s') && !s'.offers[i].Sending? {
      var j :| 0 <= j < |s.offers| && s'.offers[j].Sending?;
      assert s.offers[j].Sending?;
    }
    forall y | AboutToWake(s, y) && !s.offers[i].Waking? ensures AboutToWake(s', y) {
      var j :| 0 <= j < |s.offers| && s.offers[j].Waking? && s.offers[j].item <= y;
      assert s'.offers[j].Waking?;
    }
  }

  lemma {:induction false} PollerStep(s: State, s': State, now: int)
    requires Inv(s) && (Looks(s, s', now) || Fires(s, s') || Resets(s, s') || HandsOver(s, s'))
    ensures Inv(s')
  {
    assert Committed(s') <==> Committed(s) by {
      assert s'.offers == s.offers;
    }
    forall y ensures AboutToWake(s, y) ==> AboutToWake(s', y) {
      assert s'.offers == s.offers;
    }
  }

  lemma {:induction false} WakeStep(s: State, s': State, i: nat)
    requires Inv(s) && WakesUp(s, s', i)
    ensures Inv(s')
  {
    OffersKept(s, s', i);
    assert Committed(s);
    forall j | 0 <= j < |s.offers| && j != i ensures !s.offers[j].Sending? {
      assert i < j || j < i;
    }
  }

  lemma {:induction false} CallStep(s: State, s': State, i: nat, item: int)
    requires Inv(s) && Calls(s, s', i, item)
    ensures Inv(s')
  {
    OffersKept(s, s', i);
  }

  lemma {:induction false} PushStep(s: State, s': State, i: nat)
    requires Inv(s) && Pushes(s, s', i)
    ensures Inv(s')
  {
    OffersKept(s, s', i);
    var x := s.offers[i].item;
    if s.sleeping && !(forall y :: y in s.pq ==> x < y) {
      // The item went in behind an older one, whose pusher will wake the poller if need be.
      var h :| h in s.pq && h <= x;
      assert s.poller.ParkedEmpty? || x < s.poller.head ==> AboutToWake(s, h);
      if AboutToWake(s, h) {
        var j :| 0 <= j < |s.offers| && s.offers[j].Waking? && s.offers[j].item <= h;
        assert s.offers[j].item <= x;
      }
    }
  }

  lemma {:induction false} TryStep(s: State, s': State, i: nat)
    requires Inv(s) && Tries(s, s', i)
    ensures Inv(s')
  {
    OffersKept(s, s', i);
    if s.sleeping {
      assert !Committed(s);
    }
  }

  lemma {:induction false} StepKeepsInv(s: State, s': State)
    requires Inv(s) && Next(s, s')
    ensures Inv(s')
  {
    if now :| Looks(s, s', now) { PollerStep(s, s', now); }
    else if Fires(s, s') || Resets(s, s') || HandsOver(s, s') { PollerStep(s, s', 0); }
    else if i :| WakesUp(s, s', i) { WakeStep(s, s', i); }
    else if i, item :| Calls(s, s', i, item) { CallStep(s, s', i, item); }
    else if i :| Pushes(s, s', i) { PushStep(s, s', i); }
    else if i :| Tries(s, s', i) { TryStep(s, s', i); }
  }

  lemma {:induction false} RunInv(run: seq<State>, k: nat)
    requires IsRun(run) && k < |run|
    ensures Inv(run[k])
  {
    if k > 0 {
      RunInv(run, k - 1);
      assert Next(run[k - 1], run[k - 1 + 1]);
      StepKeepsInv(run[k - 1], run[k]);
    }
  }

  // ------------------------------------------------------------ consequences

  /** Never are two Offers committed to sending at once. */
  lemma {:induction false} AtMostOneSender(run: seq<State>, k: nat, i: nat, j: nat)
    requires IsRun(run) && k < |run| && i < |run[k].offers| && j < |run[k].offers|
    requires run[k].offers[i].Sending? && run[k].offers[j].Sending?
    ensures i == j
  {
    RunInv(run, k);
    assert i < j || i == j || j < i;
  }

  /** An Offer is committed exactly when the poller waits with `sleeping` already reset. */
  lemma {:induction false} CommittedIffPollerWaits(run: seq<State>, k: nat)
    requires IsRun(run) && k < |run|
    ensures Committed(run[k]) <==> (run[k].poller.Parked() && !run[k].sleeping) || run[k].poller.Draining?
  {
    RunInv(run, k);
  }

  /** Draining never blocks for good: its wakeup has a sender, and the rendezvous can happen at once. */
  lemma {:induction false} DrainingCanProceed(run: seq<State>, k: nat)
    requires IsRun(run) && k < |run| && run[k].poller.Draining?
    ensures exists i: nat, s' :: WakesUp(run[k], s', i)
  {
    RunInv(run, k);
    var s := run[k];
    var i: nat :| i < |s.offers| && s.offers[i].Sending?;
    assert WakesUp(s, s.(poller := Awake, offers := s.offers[i := Away]), i);
  }

  /** A committed Offer never blocks for good: the poller receives, at the latest after its next step. */
  lemma {:induction false} SenderCanProceed(run: seq<State>, k: nat, i: nat)
    requires IsRun(run) && k < |run| && i < |run[k].offers| && run[k].offers[i].Sending?
    ensures (exists s' :: WakesUp(run[k], s', i))
         || (run[k].poller.TimerFired? && exists s1, s2 :: Resets(run[k], s1) && WakesUp(s1, s2, i))
  {
    RunInv(run, k);
    var s := run[k];
    assert Committed(s);
    if s.poller.TimerFired? {
      var s1 := s.(sleeping := false, poller := Draining);
      assert Resets(s, s1) && WakesUp(s1, s1.(poller := Awake, offers := s.offers[i := Away]), i);
    } else {
      assert WakesUp(s, s.(poller := Awake, offers := s.offers[i := Away]), i);
    }
  }

  /**
   * No wakeup is lost: when the poller sleeps and no Offer is on its way to wake it, the
   * queue is empty or the poller's timer covers every item in it.
   */
  lemma {:induction false} SleepIsSafe(run: seq<State>, k: nat)
    requires IsRun(run) && k < |run| && run[k].sleeping
    requires forall i :: 0 <= i < |run[k].offers| ==> !run[k].offers[i].Waking?
    ensures run[k].poller.ParkedEmpty? ==> forall y :: y !in run[k].pq
    ensures !run[k].poller.ParkedEmpty? ==>
              run[k].poller.Parked() && forall y :: y in run[k].pq ==> run[k].poller.head <= y
  {
    RunInv(run, k);
    var s := run[k];
    forall y ensures !AboutToWake(s, y) {}
  }

  /** Nothing pushed is lost or duplicated, and what is delivered is due and was the least item. */
  lemma {:induction false} DeliversTheLeast(run: seq<State>, k: nat, now: int)
    requires IsRun(run) && k + 1 < |run| && Looks(run[k], run[k + 1], now)
    ensures run[k].pushed == run[k].pq + run[k].delivered
    ensures run[k + 1].poller.Delivering? ==>
      && IsLeast(run[k + 1].poller.item, run[k].pq) && run[k + 1].poller.item <= now
      && run[k + 1].pushed == run[k + 1].pq + run[k + 1].delivered
  {
    RunInv(run, k);
    RunInv(run, k + 1);
  }

  lemma {:induction false} LeastExists(pq: multiset<int>, y: int) returns (x: int)
    requires y in pq
    ensures IsLeast(x, pq)
    decreases |pq|
  {
    x := y;
    if z :| z in pq && z < y {
      var rest := pq[y := 0];
      assert z in rest && |rest| < |pq|;
      x := LeastExists(rest, z);
      assert forall w :: w in pq && w != y ==> w in rest;
    }
  }

  /**
   * A look delivers exactly if an item is due: a least item then goes from the queue to
   * the consumer. Otherwise nothing leaves the queue and the poller goes to sleep, with
   * its timer set for a least item if there is one.
   */
  lemma {:induction false} DeliversIffDue(run: seq<State>, k: nat, now: int)
    requires IsRun(run) && k + 1 < |run| && Looks(run[k], run[k + 1], now)
    ensures var s, s' := run[k], run[k + 1];
      && (s'.poller.Delivering? <==> exists y :: y in s.pq && y <= now)
      && (s'.poller.Delivering? ==>
            && s.pq == s'.pq + multiset{s'.poller.item}
            && s'.delivered == s.delivered + multiset{s'.poller.item}
            && s'.sleeping == s.sleeping)
      && (!s'.poller.Delivering? ==>
            && s'.sleeping && s'.pq == s.pq && s'.delivered == s.delivered
            && (s'.poller.ParkedEmpty? <==> s.pq == multiset{})
            && (s.pq != multiset{} ==> s'.poller.ParkedUntil? && IsLeast(s'.poller.head, s.pq)))
  {
    var s, s' := run[k], run[k + 1];
    if y :| y in s.pq && y <= now {
      assert s.pq != multiset{};
    }
    if s'.poller.Delivering? {
      assert s'.poller.item in s.pq && s'.poller.item <= now;
    }
  }

  /** An Offer that is done with its critical section has put its own item into the queue, once, and taken nothing out. */
  lemma {:induction false} OfferAdds(run: seq<State>, k: nat, i: nat)
    requires IsRun(run) && k + 1 < |run| && i < |run[k].offers| == |run[k + 1].offers|
    requires run[k].offers[i].Pushing? && run[k + 1].offers[i] != run[k].offers[i]
    ensures run[k + 1].pq == run[k].pq + multiset{run[k].offers[i].item}
    ensures run[k + 1].pushed == run[k].pushed + multiset{run[k].offers[i].item}
    ensures run[k + 1].offers[i] == Waking(run[k].offers[i].item) || run[k + 1].offers[i] == Away
    ensures run[k + 1].offers[i].Waking? <==> forall y :: y in run[k].pq ==> run[k].offers[i].item < y
  {
    var s, s' := run[k], run[k + 1];
    assert Next(s, s');
    if j: nat :| Pushes(s, s', j) {
      assert j == i;
    } else {
      OthersDoNotPush(s, s', i);
    }
  }

  lemma {:induction false} OthersDoNotPush(s: State, s': State, i: nat)
    requires Next(s, s') && (forall j :: !Pushes(s, s', j)) && i < |s.offers| && s.offers[i].Pushing?
    ensures |s'.offers| == |s.offers| && s'.offers[i] == s.offers[i]
  {
  }

  /** The queue changes only by an Offer's item coming in or by a least item going to the consumer. */
  lemma {:induction false} QueueChanges(run: seq<State>, k: nat)
    requires IsRun(run) && k + 1 < |run| && run[k + 1].pq != run[k].pq
    ensures var s, s' := run[k], run[k + 1];
      || (exists i :: 0 <= i < |s.offers| && s.offers[i].Pushing? && s'.pq == s.pq + multiset{s.offers[i].item})
      || (s'.poller.Delivering? && IsLeast(s'.poller.item, s.pq) && s.pq == s'.pq + multiset{s'.poller.item})
  {
    var s, s' := run[k], run[k + 1];
    assert Next(s, s');
    if now :| Looks(s, s', now) {
    } else if i: nat :| Pushes(s, s', i) {
      assert s.offers[i].Pushing?;
    }
  }

  // ---------------------------------------------------------------- progress

  /** A step that needs no new call: at time `now` the timer fires only if its time has come. */
  ghost predicate Advances(s: State, s': State, now: int) {
    || Looks(s, s', now)
    || (Fires(s, s') && s.poller.head <= now)
    || Resets(s, s') || HandsOver(s, s')
    || (exists i :: WakesUp(s, s', i))
    || (exists i :: Tries(s, s', i))
  }

  ghost predicate Reaches(s: State, t: State, now: int, steps: nat)
    decreases steps
  {
    if steps == 0 then t == s else exists m :: Advances(s, m, now) && Reaches(m, t, now, steps - 1)
  }

  /** In so many steps a least item of the queue can be on its way to the consumer. */
  ghost predicate CanDeliver(s: State, now: int, steps: nat) {
    exists t :: Reaches(s, t, now, steps) && t.poller.Delivering? && IsLeast(t.poller.item, s.pq)
             && s.pq == t.pq + multiset{t.poller.item}
  }

  lemma {:induction false} OneMore(s: State, m: State, now: int, steps: nat)
    requires Advances(s, m, now) && m.pq == s.pq && CanDeliver(m, now, steps)
    ensures CanDeliver(s, now, steps + 1)
  {
    var t :| Reaches(m, t, now, steps) && t.poller.Delivering? && IsLeast(t.poller.item, m.pq)
          && m.pq == t.pq + multiset{t.poller.item};
    assert Advances(s, m, now) && Reaches(m, t, now, steps + 1 - 1);
  }

  lemma {:induction false} FromAwake(s: State, now: int, y: int)
    requires s.poller.Awake? && y in s.pq && y <= now
    ensures CanDeliver(s, now, 1)
  {
    var x := LeastExists(s.pq, y);
    var t := s.(pq := s.pq - multiset{x}, poller := Delivering(x), delivered := s.delivered + multiset{x});
    assert Looks(s, t, now);
    assert Advances(s, t, now) && Reaches(t, t, now, 1 - 1);
  }

  lemma {:induction false} FromSending(s: State, now: int, y: int, i: nat)
    requires i < |s.offers| && s.offers[i].Sending? && y in s.pq && y <= now
    requires s.poller.ParkedEmpty? || s.poller.ParkedUntil? || s.poller.Draining?
    ensures CanDeliver(s, now, 2)
  {
    var m := s.(poller := Awake, offers := s.offers[i := Away]);
    assert WakesUp(s, m, i);
    FromAwake(m, now, y);
    OneMore(s, m, now, 1);
  }

  lemma {:induction false} FromWaking(s: State, now: int, y: int, i: nat)
    requires i < |s.offers| && s.offers[i].Waking? && s.sleeping && y in s.pq && y <= now
    requires s.poller.ParkedEmpty? || s.poller.ParkedUntil?
    ensures CanDeliver(s, now, 3)
  {
    var m := s.(sleeping := false, offers := s.offers[i := Sending]);
    assert Tries(s, m, i);
    FromSending(m, now, y, i);
    OneMore(s, m, now, 2);
  }

  lemma {:induction false} FromFired(s: State, now: int, y: int)
    requires Inv(s) && s.poller.TimerFired? && y in s.pq && y <= now
    ensures exists n :: 2 <= n <= 3 && CanDeliver(s, now, n)
  {
    var m := s.(sleeping := false, poller := if s.sleeping then Awake else Draining);
    assert Resets(s, m);
    if s.sleeping {
      FromAwake(m, now, y);
      OneMore(s, m, now, 1);
    } else {
      assert Committed(s);
      var i: nat :| i < |s.offers| && s.offers[i].Sending?;
      FromSending(m, now, y, i);
      OneMore(s, m, now, 2);
    }
  }

  lemma {:induction false} FromParked(s: State, now: int, y: int)
    requires Inv(s) && (s.poller.ParkedEmpty? || s.poller.ParkedUntil?) && y in s.pq && y <= now
    ensures exists n :: 1 <= n <= 4 && CanDeliver(s, now, n)
  {
    if !s.sleeping {
      assert Committed(s);
      var i: nat :| i < |s.offers| && s.offers[i].Sending?;
      FromSending(s, now, y, i);
    } else if s.poller.ParkedUntil? && s.poller.head <= now {
      var m := s.(poller := TimerFired(s.poller.head));
      assert Fires(s, m);
      assert Inv(m) by { PollerStep(s, m, now); }
      FromFired(m, now, y);
      var n :| 2 <= n <= 3 && CanDeliver(m, now, n);
      OneMore(s, m, now, n);
    } else {
      assert AboutToWake(s, y);
      var i: nat :| i < |s.offers| && s.offers[i].Waking?;
      FromWaking(s, now, y, i);
    }
  }

  /**
   * The queue never gets stuck: from every state of every run with a due item, a least
   * item can be delivered within four steps, and no new call of Offer is needed for it.
   */
  lemma {:induction false} DueItemCanBeDelivered(run: seq<State>, k: nat, now: int, y: int)
    requires IsRun(run) && k < |run| && y in run[k].pq && y <= now
    ensures exists n :: 1 <= n <= 4 && CanDeliver(run[k], now, n)
  {
    RunInv(run, k);
    var s := run[k];
    match s.poller
    case Awake => FromAwake(s, now, y);
    case Delivering(_) =>
      var m := s.(poller := Awake);
      assert HandsOver(s, m);
      FromAwake(m, now, y);
      OneMore(s, m, now, 1);
    case TimerFired(_) => FromFired(s, now, y);
    case Draining =>
      assert Committed(s);
      var i: nat :| i < |s.offers| && s.offers[i].Sending?;
      FromSending(s, now, y, i);
    case _ => FromParked(s, now, y);
  }
}
