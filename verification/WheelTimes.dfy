/**
 * When the timing wheel of timewheel/timewheel.go starts a timer at once, where it stores
 * one otherwise, and what its clock shows: in terms of the calls alone.
 */
module WheelTimes {
  import opened Basics
  import opened TimeWheel

  // ---------------------------------------------------------------- the clock

  /** The time of the last bucket delivered in these calls. */
  ghost function LastDelivered(calls: seq<Call>): (p: Option<int>) {
    if calls == [] then None
    else
      var c := calls[|calls| - 1];
      if c.Expire? then Some(c.e.priority) else LastDelivered(calls[..|calls| - 1])
  }

  /** The clock shows the time of the last bucket delivered, and before that the beginning of the tick of `start`. */
  ghost predicate Shows(clock: int, last: Option<int>, tick: int, start: int)
    requires tick > 0
  {
    match last
    case Some(p) => clock == p
    case None => clock % tick == 0 && clock <= start < clock + tick
  }

  lemma {:induction false} ClockShows(run: seq<Store>, calls: seq<Call>, tick: int, size: nat, start: int, k: nat)
    requires IsRun(run, calls, tick, size, start) && k < |run|
    ensures |run[k].wheels| > 0 && Shows(run[k].wheels[0].currentTime, LastDelivered(calls[..k]), tick, start)
  {
    if k == 0 {
      InitialClock(tick, size, start);
      assert calls[..0] == [];
    } else {
      ClockShows(run, calls, tick, size, start, k - 1);
      RunStep(run, calls, tick, size, start, k - 1);
      HasWheels(run, calls, tick, size, start, k);
      OneCallMore(calls, k);
      ClockStep(run[k - 1], calls[k - 1], run[k], calls[..k], tick, start);
    }
  }

  lemma {:induction false} ClockStep(s: Store, c: Call, s': Store, calls: seq<Call>, tick: int, start: int)
    requires Kept(s, c, s') && |s.wheels| > 0 && |s'.wheels| > 0 && tick > 0
    requires |calls| > 0 && c == calls[|calls| - 1] && Shows(s.wheels[0].currentTime, LastDelivered(calls[..|calls| - 1]), tick, start)
    ensures Shows(s'.wheels[0].currentTime, LastDelivered(calls), tick, start)
  {
  }

  lemma {:induction false} SameTick(clock: int, start: int, tick: int, x: int)
    requires tick > 0 && clock % tick == 0 && clock <= start < clock + tick
    ensures x < clock + tick <==> x / tick <= start / tick
  {
    var q := clock / tick;
    assert clock == q * tick;
    Unique(start, tick, q, start - clock);
    if x < clock + tick {
      if x / tick >= q + 1 { Products(x / tick, q + 1, tick); }
    } else {
      if x / tick <= q { Products(q, x / tick, tick); }
    }
  }

  /**
   * AfterFunc starts its task at once exactly if its time is before the end of the tick of
   * the last bucket delivered; on a wheel that has delivered none, exactly if its time is
   * in the tick of `start` or before. Otherwise the task is not started by the call.
   */
  lemma {:induction false} StartsAtOnceIff(run: seq<Store>, calls: seq<Call>, tick: int, size: nat, start: int, k: nat, id: nat, expiration: int)
    requires IsRun(run, calls, tick, size, start) && k < |calls| && calls[k] == After(id, expiration)
    ensures HasStarted(run[k + 1], id) <==>
      match LastDelivered(calls[..k])
      case Some(p) => expiration < p + tick
      case None => expiration / tick <= start / tick
  {
    ClockShows(run, calls, tick, size, start, k);
    RunInv(run, calls, tick, size, start, k);
    RunStep(run, calls, tick, size, start, k);
    StartedIff(run[k + 1], id);
    if LastDelivered(calls[..k]).None? { SameTick(run[k].wheels[0].currentTime, start, tick, expiration); }
  }

  lemma {:induction false} StartedIff(s: Store, id: nat)
    requires Inv(s, None) && id in s.places
    ensures HasStarted(s, id) <==> s.places[id].Started?
  {
  }

  // ---------------------------------------------------------------- the level

  /** Apart from their buckets the levels are there as before, perhaps with more on top. */
  ghost predicate SameSpans(s: Store, s': Store) {
    && |s.wheels| <= |s'.wheels| && s'.size == s.size
    && forall m :: 0 <= m < |s.wheels| ==> SameSpan(s.wheels[m], s'.wheels[m])
  }

  ghost predicate SameSpan(w: Wheel, w': Wheel) {
    w'.tick == w.tick && w'.interval == w.interval && w'.currentTime == w.currentTime
  }

  /** The time is past the span of the level. */
  ghost predicate Past(s: Store, m: nat, expiration: int)
    requires m < |s.wheels|
  {
    expiration >= s.wheels[m].currentTime + s.wheels[m].interval
  }

  /** Level n, the lowest from l on with a span that holds the time, has the timer in the bucket of its time. */
  ghost predicate StoredLowest(s: Store, id: nat, expiration: int, l: nat, n: nat) {
    && l <= n < |s.wheels| && s.wheels[n].tick > 0 && s.size > 0
    && id in s.places && s.places[id] == Waiting(Slot(n, expiration / s.wheels[n].tick % s.size))
    && s.wheels[n].currentTime + s.wheels[n].tick <= expiration && !Past(s, n, expiration)
    && forall m :: l <= m < n ==> Past(s, m, expiration)
  }

  lemma {:induction false} PutLowest(s: Store, t: Timer, l: nat)
    requires Geometry(s) && Takes(s, l, t) && WheelOk(s, l) && s.size > 0
    ensures SameSpans(s, Put(s, l, t)) && StoredLowest(Put(s, l, t), t.id, t.expiration, l, l)
    ensures |Put(s, l, t).wheels| == |s.wheels|
  {
  }

  lemma {:induction false} AboveSpans(s: Store, l: nat)
    requires l < |s.wheels|
    ensures SameSpans(s, Above(s, l)) && |Above(s, l).wheels| == if l + 1 == |s.wheels| then |s.wheels| + 1 else |s.wheels|
  {
  }

  lemma {:induction false} SpansTrans(a: Store, b: Store, c: Store)
    requires SameSpans(a, b) && SameSpans(b, c)
    ensures SameSpans(a, c)
  {
    forall m | 0 <= m < |a.wheels| ensures SameSpan(a.wheels[m], c.wheels[m]) {
      assert SameSpan(a.wheels[m], b.wheels[m]) && SameSpan(b.wheels[m], c.wheels[m]);
    }
  }

  /** add stores a timer on the lowest level that takes it, and makes no more levels than it needs for that. */
  lemma {:induction false} AddsLowest(s: Store, t: Timer, l: nat) returns (n: nat)
    requires Geometry(s) && Comes(s, l, t.expiration) && s.size > 0 && t.expiration >= s.wheels[l].currentTime + s.wheels[l].tick
    ensures SameSpans(s, AddTo(s, t, l).store) && StoredLowest(AddTo(s, t, l).store, t.id, t.expiration, l, n)
    ensures |AddTo(s, t, l).store.wheels| == if n < |s.wheels| then |s.wheels| else n + 1
    decreases t.expiration - s.wheels[l].tick
  {
    assert WheelOk(s, l);
    if !Past(s, l, t.expiration) {
      n := l;
      PutLowest(s, Stored(t, l), l);
    } else {
      GoingUp(s, l, t.expiration);
      var s1 := Above(s, l);
      AboveSpans(s, l);
      n := AddsLowest(s1, t, l + 1);
      var s2 := AddTo(s1, t, l + 1).store;
      SpansTrans(s, s1, s2);
      LowerToo(s, s2, t.id, t.expiration, l, n);
    }
  }

  lemma {:induction false} LowerToo(s: Store, s': Store, id: nat, expiration: int, l: nat, n: nat)
    requires SameSpans(s, s') && l < |s.wheels| && Past(s, l, expiration) && StoredLowest(s', id, expiration, l + 1, n)
    ensures StoredLowest(s', id, expiration, l, n)
  {
    assert SameSpan(s.wheels[l], s'.wheels[l]);
  }

  /** A timer that AfterFunc does not start at once waits on the lowest level whose span holds its time. */
  lemma {:induction false} WaitsOnLowestLevel(run: seq<Store>, calls: seq<Call>, tick: int, size: nat, start: int, k: nat, id: nat, expiration: int)
    returns (n: nat)
    requires IsRun(run, calls, tick, size, start) && k < |calls| && calls[k] == After(id, expiration)
    requires !HasStarted(run[k + 1], id)
    ensures SameSpans(run[k], run[k + 1]) && StoredLowest(run[k + 1], id, expiration, 0, n)
    ensures |run[k + 1].wheels| == if n < |run[k].wheels| then |run[k].wheels| else n + 1
  {
    RunInv(run, calls, tick, size, start, k);
    RunStep(run, calls, tick, size, start, k);
    StartedIff(run[k + 1], id);
    assert CallAt(run, calls, k);
    n := AddsLowest(run[k], Timer(id, expiration, 0, 0), 0);
  }

  // --------------------------------------------------------------- the starts

  /** From s to s' the clock stands, and what is started is stamped with it. */
  ghost predicate Stamped(s: Store, s': Store) {
    && |s.wheels| > 0 && |s'.wheels| > 0 && s'.wheels[0].currentTime == s.wheels[0].currentTime && s.started <= s'.started
    && forall i :: |s.started| <= i < |s'.started| ==> s'.started[i].clock == s.wheels[0].currentTime
  }

  /** What is started from s to s' comes out of a bucket. */
  ghost predicate OutOfBucket(s: Store, s': Store) {
    forall i :: |s.started| <= i < |s'.started| ==> s'.started[i].timer.flushes > 0
  }

  /** Of the timers of bucket x, those that have left it have been started exactly if they are due within the tick. */
  ghost predicate DueStarted(s: Store, s': Store, x: Slot)
    requires |s.wheels| > 0
  {
    forall id :: id in s.places && s.places[id] == Waiting(x) && id in s.due && id in s'.places && s'.places[id] != Waiting(x) ==>
      (s'.places[id].Started? <==> s.due[id] < s.wheels[0].currentTime + s.wheels[0].tick)
  }

  lemma {:induction false} SettleStamps(s: Store, t: Timer, busy: Option<Slot>)
    requires Inv(s, busy) && Addable(s, t, 0, busy)
    ensures Stamped(s, Settle(s, t))
    ensures var r := Settle(s, t).started; r == s.started || r == s.started + [Start(t, s.wheels[0].currentTime)]
  {
    AddKeeps(s, t, 0, busy);
  }

  lemma {:induction false} FirstStamps(s: Store, x: Slot)
    requires Inv(s, Some(x)) && s.At(x).timers != []
    ensures Stamped(s, FlushedFirst(s, x)) && OutOfBucket(s, FlushedFirst(s, x)) && DueStarted(s, FlushedFirst(s, x), x)
  {
    var t, s1 := s.At(x).timers[0], WithoutFirst(s, x);
    var t1 := t.(flushes := t.flushes + 1);
    FirstIsAddable(s, x);
    SettleStamps(s1, t1, Some(x));
    SettleKeeps(s1, t1, Some(x));
    WithBucketGeometry(s, x, s.At(x).(timers := s.At(x).timers[1..]));
  }

  lemma {:induction false} StampedTrans(s: Store, s1: Store, s2: Store, x: Slot)
    requires Stamped(s, s1) && OutOfBucket(s, s1) && DueStarted(s, s1, x) && OnlyFrom(s, s1, x)
    requires Stamped(s1, s2) && OutOfBucket(s1, s2) && DueStarted(s1, s2, x) && OnlyFrom(s1, s2, x)
    ensures Stamped(s, s2) && OutOfBucket(s, s2) && DueStarted(s, s2, x)
  {
    StampsTrans(s, s1, s2);
    forall id | id in s.places && s.places[id] == Waiting(x) && id in s.due && id in s2.places && s2.places[id] != Waiting(x)
      ensures s2.places[id].Started? <==> s.due[id] < s.wheels[0].currentTime + s.wheels[0].tick
    {
      assert id in s1.places;
    }
  }

  lemma {:induction false} StampsTrans(s: Store, s1: Store, s2: Store)
    requires Stamped(s, s1) && OutOfBucket(s, s1) && Stamped(s1, s2) && OutOfBucket(s1, s2)
    ensures Stamped(s, s2) && OutOfBucket(s, s2)
  {
    PrefixTrans(s.started, s1.started, s2.started);
    forall i | |s.started| <= i < |s2.started|
      ensures s2.started[i].clock == s.wheels[0].currentTime && s2.started[i].timer.flushes > 0 {
      if i < |s1.started| { assert s2.started[i] == s1.started[i]; }
    }
  }

  lemma {:induction false} FlushStamps(s: Store, x: Slot)
    requires Inv(s, Some(x))
    ensures Stamped(s, Flushed(s, x)) && OutOfBucket(s, Flushed(s, x)) && DueStarted(s, Flushed(s, x), x)
    decreases |s.At(x).timers|
  {
    if s.At(x).timers == [] {
      WithBucketGeometry(s, x, Bucket(-1, []));
    } else {
      var s1 := FlushedFirst(s, x);
      FirstStamps(s, x);
      FlushedFirstKeeps(s, x);
      FlushStamps(s1, x);
      FlushKeeps(s1, x);
      StampedTrans(s, s1, Flushed(s1, x), x);
    }
  }

  /** Of the timers of the bucket delivered, exactly those due within its tick of the level-0 clock are started. */
  lemma {:induction false} DeliveryStartsIff(run: seq<Store>, calls: seq<Call>, tick: int, size: nat, start: int, k: nat, e: Entry, id: nat)
    requires IsRun(run, calls, tick, size, start) && k < |calls| && calls[k] == Expire(e)
    requires id in run[k].places && run[k].places[id] == Waiting(e.slot)
    ensures id in DueOf(calls[..k])
    ensures HasStarted(run[k + 1], id) <==> DueOf(calls[..k])[id] < e.priority + tick
  {
    var s := run[k];
    RunInv(run, calls, tick, size, start, k);
    RunStep(run, calls, tick, size, start, k);
    StartedIff(run[k + 1], id);
    assert CallAt(run, calls, k);
    Delivers(s, e);
    assert Taken(s, e).places == s.places && Taken(s, e).due == s.due;
  }

  lemma {:induction false} Delivers(s: Store, e: Entry)
    requires Inv(s, None) && Earliest(s, e)
    ensures Stamped(Taken(s, e), Expired(s, e)) && OutOfBucket(Taken(s, e), Expired(s, e))
    ensures |Taken(s, e).wheels| > 0 && DueStarted(Taken(s, e), Expired(s, e), e.slot)
    ensures |s.wheels| > 0 && Taken(s, e).wheels[0].currentTime == e.priority && Taken(s, e).wheels[0].tick == s.wheels[0].tick
  {
    TakenKeeps(s, e);
    TakenGeometry(s, e);
    FlushStamps(Taken(s, e), e.slot);
  }

  /** A task started in call m: by AfterFunc at once, or out of the bucket of its tick of the level-0 clock. */
  ghost predicate StartedBy(c: Call, t: Timer, clock: int, tick: int) {
    match c
    case After(id, expiration) => t.id == id && t.expiration == expiration < clock + tick
    case Expire(e) => e.priority <= t.expiration < e.priority + tick
  }

  lemma {:induction false} StepStarts(run: seq<Store>, calls: seq<Call>, tick: int, size: nat, start: int, k: nat, i: nat)
    requires IsRun(run, calls, tick, size, start) && k < |calls| && |run[k].started| <= i < |run[k + 1].started|
    ensures |run[k].wheels| > 0 && StartedBy(calls[k], run[k + 1].started[i].timer, run[k].wheels[0].currentTime, tick)
  {
    RunInv(run, calls, tick, size, start, k);
    RunInv(run, calls, tick, size, start, k + 1);
    assert CallAt(run, calls, k);
    CallStarts(run[k], calls[k], run[k + 1], i);
  }

  lemma {:induction false} CallStarts(s: Store, c: Call, s': Store, i: nat)
    requires Inv(s, None) && Inv(s', None) && Calls(s, c, s') && |s.started| <= i < |s'.started| && s'.wheels[0].tick == s.wheels[0].tick
    ensures StartedBy(c, s'.started[i].timer, s.wheels[0].currentTime, s.wheels[0].tick)
  {
    match c {
      case After(id, expiration) => SettleStamps(s, Timer(id, expiration, 0, 0), None);
      case Expire(e) => Delivers(s, e);
    }
  }

  /**
   * In every run, each task was started by one call: by the call of AfterFunc that added
   * it, with its time before the end of the tick the clock showed then, or by the delivery
   * of a bucket whose time is in the same tick of the level-0 clock as the task's.
   */
  lemma {:induction false} StartedByOneCall(run: seq<Store>, calls: seq<Call>, tick: int, size: nat, start: int, k: nat, i: nat)
    returns (m: nat)
    requires IsRun(run, calls, tick, size, start) && k < |run| && i < |run[k].started|
    ensures m < k && |run[m].started| <= i < |run[m + 1].started|
    ensures |run[m].wheels| > 0 && StartedBy(calls[m], run[k].started[i].timer, run[m].wheels[0].currentTime, tick)
  {
    assert k > 0;
    if i < |run[k - 1].started| {
      m := StartedByOneCall(run, calls, tick, size, start, k - 1, i);
      StepGrows(run, calls, tick, size, start, k - 1);
    } else {
      m := k - 1;
      StepStarts(run, calls, tick, size, start, m, i);
    }
  }
}
