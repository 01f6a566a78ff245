/**
 * The hierarchical timing wheel of timewheel/timewheel.go and timewheel/bucket.go.
 * Taking the earliest due bucket off the queue, advancing the clocks and flushing the
 * bucket are one step of Expire. Times are unbounded integers.
 */
module TimeWheel {
  import opened Basics

  /**
   * A timer. `flushes` counts how often a bucket holding it was flushed and `limit` is the
   * level it was first stored at; both are history that no operation reads.
   */
  datatype Timer = Timer(id: nat, expiration: int, flushes: nat, limit: nat)

  datatype Bucket = Bucket(expiration: int, timers: seq<Timer>)

  /** One level: a wheel of the chain that overflowWheel links. */
  datatype Wheel = Wheel(tick: int, interval: int, currentTime: int, buckets: seq<Bucket>)

  datatype Slot = Slot(level: nat, index: nat)

  /** An item of the delay queue. */
  datatype Entry = Entry(slot: Slot, priority: int)

  /** A task that was started, and the level-0 clock when it was. */
  datatype Start = Start(timer: Timer, clock: int)

  datatype Place = Waiting(slot: Slot) | Started

  datatype Store = Store(
    size: nat,
    wheels: seq<Wheel>,
    queue: multiset<Entry>,
    started: seq<Start>,
    places: map<nat, Place>,    // history: where each timer added is
    due: map<nat, int>          // history: when each timer added is due
  ) {
    predicate Has(x: Slot) { x.level < |wheels| && x.index < |wheels[x.level].buckets| }
    function At(x: Slot): (b: Bucket)
      requires Has(x)
    {
      wheels[x.level].buckets[x.index]
    }
  }

  // ------------------------------------------------------------- arithmetic

  /** truncate, for the non-negative times it is used on. */
  function Truncate(x: int, m: int): (r: int) {
    if m <= 0 then x else x - x % m
  }

  ghost predicate Aligned(x: int, m: int)
    requires m > 0
  {
    x % m == 0
  }

  /** Truncating gives the aligned time at most `m` before. */
  lemma {:induction false} TruncateBounds(x: int, m: int)
    requires m > 0
    ensures Truncate(x, m) <= x < Truncate(x, m) + m && Aligned(Truncate(x, m), m)
    ensures Truncate(x, m) == x / m * m
  {
    Unique(Truncate(x, m), m, x / m, 0);
  }

  lemma {:induction false} TruncateUnique(x: int, m: int, y: int)
    requires m > 0 && Aligned(y, m) && y <= x < y + m
    ensures Truncate(x, m) == y
  {
    Unique(x, m, y / m, x - y);
  }

  lemma {:induction false} AlignedFiner(x: int, m: int, s: int)
    requires m > 0 && s > 0 && m * s > 0 && Aligned(x, m * s)
    ensures Aligned(x, m)
  {
    var q := x / (m * s);
    assert x == q * (m * s);
    assert q * (m * s) == (q * s) * m;
    Unique(x, m, q * s, 0);
  }

  /** Truncating to a coarser tick can go through a finer one. */
  lemma {:induction false} TruncateTwice(x: int, m: int, s: int)
    requires m > 0 && s > 0 && m * s > 0
    ensures Truncate(Truncate(x, m), m * s) == Truncate(x, m * s)
  {
    var y, z := Truncate(x, m), Truncate(x, m * s);
    TruncateBounds(x, m);
    TruncateBounds(x, m * s);
    AlignedFiner(z, m, s);
    AlignedBelow(z, y, x, m);
    TruncateUnique(y, m * s, z);
  }

  /** No aligned time lies strictly between the truncated time and the time. */
  lemma {:induction false} AlignedBelow(z: int, y: int, x: int, m: int)
    requires m > 0 && Aligned(z, m) && Aligned(y, m) && z <= x && y <= x < y + m
    ensures z <= y
  {
    var d := z / m - y / m;
    assert z == z / m * m && y == y / m * m;
    assert d * m == z - y;
    Multiple(d, m);
  }

  /** Two turns of the wheel cannot share a bucket within one interval. */
  lemma {:induction false} SameBucketSameTurn(v: int, w: int, size: int)
    requires size > 0 && v % size == w % size && -size < v - w < size
    ensures v == w
  {
    var d := v / size - w / size;
    assert v == v / size * size + v % size && w == w / size * size + w % size;
    assert d * size == v - w;
    Multiple(d, size);
  }

  // -------------------------------------------------------------- invariant

  /** Level `l`: its tick, its span, and its clock, which is the level-0 clock truncated to its tick. */
  ghost predicate WheelOk(s: Store, l: nat)
    requires l < |s.wheels|
  {
    var w := s.wheels[l];
    && w.tick > 0 && w.interval == w.tick * s.size && |w.buckets| == s.size
    && w.currentTime == Truncate(s.wheels[0].currentTime, w.tick)
    && (l + 1 < |s.wheels| ==> s.wheels[l + 1].tick == w.interval)
  }

  /** The chain of levels; with fewer than two buckets to a wheel there is but one. */
  ghost predicate Geometry(s: Store) {
    && |s.wheels| >= 1 && s.wheels[0].currentTime >= 0 && (|s.wheels| > 1 ==> s.size >= 2)
    && forall l :: 0 <= l < |s.wheels| ==> WheelOk(s, l)
  }

  /** A timer of a bucket of level `l` belongs to the bucket's tick, and has flushes to spare. */
  ghost predicate TimerOk(t: Timer, expiration: int, tick: int, l: nat) {
    expiration <= t.expiration < expiration + tick && t.flushes + l <= t.limit
  }

  /** A bucket in use: its time is aligned, not past, within the wheel's span, and at this index. */
  ghost predicate InUse(s: Store, x: Slot)
    requires s.Has(x)
  {
    var w, b := s.wheels[x.level], s.At(x);
    && w.tick > 0 && s.size > 0
    && Aligned(b.expiration, w.tick) && b.expiration / w.tick % s.size == x.index
    && s.wheels[0].currentTime <= b.expiration < w.currentTime + w.interval
    && forall j :: 0 <= j < |b.timers| ==> TimerOk(b.timers[j], b.expiration, w.tick, x.level)
  }

  /** Except for the bucket being flushed, a bucket is empty and unused, or in use, filled and queued. */
  ghost predicate BucketOk(s: Store, x: Slot, busy: Option<Slot>)
    requires s.Has(x)
  {
    var b := s.At(x);
    if b.expiration == -1 then b.timers == [] && busy != Some(x)
    else InUse(s, x) && (busy != Some(x) ==> b.timers != [] && Entry(x, b.expiration) in s.queue)
  }

  /** Every queue entry is for a bucket in use that is not being flushed, and is there once. */
  ghost predicate EntryOk(s: Store, e: Entry, busy: Option<Slot>) {
    s.Has(e.slot) && busy != Some(e.slot) && e.priority == s.At(e.slot).expiration != -1 && s.queue[e] == 1
  }

  ghost predicate IsIn(s: Store, x: Slot, id: nat) {
    s.Has(x) && exists j :: 0 <= j < |s.At(x).timers| && s.At(x).timers[j].id == id
  }

  ghost predicate HasStarted(s: Store, id: nat) {
    exists k :: 0 <= k < |s.started| && s.started[k].timer.id == id
  }

  /** Every timer is where `places` says, once. */
  ghost predicate PlacesOk(s: Store) {
    && (forall x, j :: s.Has(x) && 0 <= j < |s.At(x).timers| ==>
          s.At(x).timers[j].id in s.places && s.places[s.At(x).timers[j].id] == Waiting(x))
    && (forall x, i, j :: s.Has(x) && 0 <= i < j < |s.At(x).timers| ==>
          s.At(x).timers[i].id != s.At(x).timers[j].id)
    && (forall id :: id in s.places ==>
          if s.places[id].Waiting? then IsIn(s, s.places[id].slot, id) else HasStarted(s, id))
    && (forall k :: 0 <= k < |s.started| ==>
          s.started[k].timer.id in s.places && s.places[s.started[k].timer.id] == Started)
    && (forall j, k :: 0 <= j < k < |s.started| ==> s.started[j].timer.id != s.started[k].timer.id)
  }

  ghost predicate IsDue(s: Store, t: Timer) {
    t.id in s.due && s.due[t.id] == t.expiration && t.limit < |s.wheels|
  }

  /** Every timer is due when it was added to be, and was first stored at a level that is there. */
  ghost predicate DueOk(s: Store) {
    && (forall x, j :: s.Has(x) && 0 <= j < |s.At(x).timers| ==> IsDue(s, s.At(x).timers[j]))
    && (forall k :: 0 <= k < |s.started| ==> IsDue(s, s.started[k].timer))
  }

  /**
   * A task starts when its time is less than a tick of the level-0 clock away, after at most
   * one flush per level; and out of a bucket it does not start late.
   */
  ghost predicate StartsOk(s: Store)
    requires |s.wheels| > 0
  {
    forall k :: 0 <= k < |s.started| ==>
      && s.started[k].timer.expiration < s.started[k].clock + s.wheels[0].tick
      && s.started[k].timer.flushes <= s.started[k].timer.limit + 1
      && (s.started[k].timer.flushes > 0 ==> s.started[k].clock <= s.started[k].timer.expiration)
  }

  ghost predicate BucketsOk(s: Store, busy: Option<Slot>) {
    && (forall x :: s.Has(x) ==> BucketOk(s, x, busy))
    && (forall e :: e in s.queue ==> EntryOk(s, e, busy))
  }

  ghost predicate Inv(s: Store, busy: Option<Slot>) {
    && Geometry(s) && BucketsOk(s, busy) && PlacesOk(s) && StartsOk(s) && DueOk(s)
    && (busy.Some? ==> s.Has(busy.value) && s.At(busy.value).expiration == s.wheels[0].currentTime)
  }

  // ------------------------------------------------------------------ storing

  /** What add does at the level that takes the timer: bucket.Add, SetExpiration and Offer. */
  function Put(s: Store, l: nat, t: Timer): (r: Store)
    requires l < |s.wheels| && s.wheels[l].tick > 0 && |s.wheels[l].buckets| == s.size > 0
  {
    var w := s.wheels[l];
    var virtualID := t.expiration / w.tick;
    var i := virtualID % s.size;
    var b := w.buckets[i];
    var b' := Bucket(virtualID * w.tick, b.timers + [t]);
    Store(s.size, s.wheels[l := w.(buckets := w.buckets[i := b'])],
          if b.expiration != b'.expiration then s.queue + multiset{Entry(Slot(l, i), b'.expiration)} else s.queue,
          s.started, s.places[t.id := Waiting(Slot(l, i))], s.due[t.id := t.expiration])
  }

  /** The bucket a timer of this level belongs to is free, or already stands for the same tick. */
  lemma {:induction false} NoLapCollision(s: Store, l: nat, t: Timer, busy: Option<Slot>)
    requires Geometry(s) && s.size > 0 && BucketsOk(s, busy) && l < |s.wheels| && WheelOk(s, l)
    requires s.wheels[l].currentTime + s.wheels[l].tick <= t.expiration < s.wheels[l].currentTime + s.wheels[l].interval
    ensures var w := s.wheels[l];
      var e, x := t.expiration / w.tick * w.tick, Slot(l, t.expiration / w.tick % s.size);
      && s.Has(x) && (s.At(x).expiration == -1 || s.At(x).expiration == e)
      && e <= t.expiration < e + w.tick && Aligned(e, w.tick) && e / w.tick == t.expiration / w.tick
      && s.wheels[0].currentTime < e < w.currentTime + w.interval
  {
    var w := s.wheels[l];
    var v := t.expiration / w.tick;
    var e, x := v * w.tick, Slot(l, v % s.size);
    BucketTime(s.wheels[0].currentTime, w.currentTime, w.tick, t.expiration);
    assert BucketOk(s, x, busy);
    var b := s.At(x);
    if b.expiration != -1 {
      SameTurn(w.tick, s.size, w.currentTime, b.expiration, e);
    }
  }

  /** Within one span a bucket stands for one tick only. */
  lemma {:induction false} SameTurn(tick: int, size: int, from: int, a: int, b: int)
    requires tick > 0 && size > 0 && Aligned(a, tick) && Aligned(b, tick) && a / tick % size == b / tick % size
    requires from <= a < from + tick * size && from <= b < from + tick * size
    ensures a == b
  {
    TurnsClose(tick, size, from, a, b);
    SameBucketSameTurn(a / tick, b / tick, size);
    assert a == a / tick * tick && b == b / tick * tick;
  }

  /** The time of the bucket for a timer that is not due within the tick. */
  lemma {:induction false} BucketTime(cur: int, clock: int, tick: int, expiration: int)
    requires tick > 0 && clock == Truncate(cur, tick) && clock + tick <= expiration
    ensures var e := expiration / tick * tick;
      && e <= expiration < e + tick && Aligned(e, tick) && e / tick == expiration / tick && clock <= cur < clock + tick <= e
  {
    var e := expiration / tick * tick;
    TruncateBounds(expiration, tick);
    Unique(e, tick, expiration / tick, 0);
    TruncateBounds(cur, tick);
    Unique(clock + tick, tick, clock / tick + 1, 0);
    AlignedBelow(clock + tick, e, expiration, tick);
  }

  /** Aligned times within one span are less than a turn apart. */
  lemma {:induction false} TurnsClose(tick: int, size: int, from: int, a: int, b: int)
    requires tick > 0 && size > 0 && Aligned(a, tick) && Aligned(b, tick)
    requires from <= a < from + tick * size && from <= b < from + tick * size
    ensures -size < a / tick - b / tick < size
  {
    var d := a / tick - b / tick;
    assert a == a / tick * tick && b == b / tick * tick;
    assert d * tick == a - b;
    Products(d, size, tick);
  }

  lemma {:induction false} Products(d: int, e: int, n: int)
    requires n > 0
    ensures d >= e ==> d * n >= e * n
    ensures d <= -e ==> d * n <= -(n * e)
  {
    if d >= e { assert (d - e) * n >= 0; }
    if d <= -e { assert (d + e) * n <= 0; }
  }

  /** Level `l` takes the timer. */
  ghost predicate Takes(s: Store, l: nat, t: Timer) {
    l < |s.wheels| && s.wheels[l].currentTime + s.wheels[l].tick <= t.expiration < s.wheels[l].currentTime + s.wheels[l].interval
  }

  /** Storing touches one bucket; the rest of the store stays. */
  lemma {:induction false} PutFrame(s: Store, l: nat, t: Timer, x: Slot)
    requires l < |s.wheels| && s.wheels[l].tick > 0 && |s.wheels[l].buckets| == s.size > 0
    ensures var s', y := Put(s, l, t), Slot(l, t.expiration / s.wheels[l].tick % s.size);
      && (s'.Has(x) <==> s.Has(x)) && s.Has(y) && (s.Has(x) && x != y ==> s'.At(x) == s.At(x))
      && s'.At(y) == Bucket(t.expiration / s.wheels[l].tick * s.wheels[l].tick, s.At(y).timers + [t])
  {
  }

  lemma {:induction false} PutGeometry(s: Store, l: nat, t: Timer)
    requires Geometry(s) && s.size > 0 && l < |s.wheels| && WheelOk(s, l)
    ensures Geometry(Put(s, l, t))
    ensures Put(s, l, t).wheels[0].currentTime == s.wheels[0].currentTime
  {
    var s' := Put(s, l, t);
    forall k | 0 <= k < |s'.wheels| ensures WheelOk(s', k) {
      assert WheelOk(s, k);
    }
  }

  lemma {:induction false} PutBuckets(s: Store, l: nat, t: Timer, busy: Option<Slot>)
    requires Geometry(s) && s.size > 0 && BucketsOk(s, busy) && l < |s.wheels| && WheelOk(s, l) && Takes(s, l, t)
    requires t.flushes + l <= t.limit && (busy.Some? ==> busy.value.level != l)
    ensures BucketsOk(Put(s, l, t), busy)
  {
    var s', y := Put(s, l, t), Slot(l, t.expiration / s.wheels[l].tick % s.size);
    NoLapCollision(s, l, t, busy);
    PutFrame(s, l, t, y);
    forall x | s'.Has(x) ensures BucketOk(s', x, busy) {
      PutFrame(s, l, t, x);
      assert BucketOk(s, x, busy);
      if x == y { PutBucket(s, l, t, busy); } else { SameBucket(s, s', x, busy); }
    }
    forall e | e in s'.queue ensures EntryOk(s', e, busy) {
      PutFrame(s, l, t, e.slot);
      if e in s.queue { assert EntryOk(s, e, busy); }
    }
  }

  /** A bucket that a step leaves alone stays as it should be. */
  lemma {:induction false} SameBucket(s: Store, s': Store, x: Slot, busy: Option<Slot>)
    requires s.Has(x) && s'.Has(x) && s'.At(x) == s.At(x) && BucketOk(s, x, busy) && s'.size == s.size
    requires s'.wheels[x.level].(buckets := []) == s.wheels[x.level].(buckets := [])
    requires s'.wheels[0].currentTime == s.wheels[0].currentTime && s.queue <= s'.queue
    ensures BucketOk(s', x, busy)
  {
  }

  lemma {:induction false} PutBucket(s: Store, l: nat, t: Timer, busy: Option<Slot>)
    requires Geometry(s) && s.size > 0 && BucketsOk(s, busy) && l < |s.wheels| && WheelOk(s, l) && Takes(s, l, t)
    requires t.flushes + l <= t.limit && (busy.Some? ==> busy.value.level != l)
    ensures var y := Slot(l, t.expiration / s.wheels[l].tick % s.size);
      s.Has(y) && Put(s, l, t).Has(y) && BucketOk(Put(s, l, t), y, busy)
  {
    var s', w := Put(s, l, t), s.wheels[l];
    var y := Slot(l, t.expiration / w.tick % s.size);
    NoLapCollision(s, l, t, busy);
    assert BucketOk(s, y, busy);
    var b, b' := s.At(y), s'.At(y);
    forall j | 0 <= j < |b'.timers| ensures TimerOk(b'.timers[j], b'.expiration, w.tick, l) {
      if j < |b.timers| { assert b'.timers[j] == b.timers[j]; }
    }
  }

  lemma {:induction false} PutPlaces(s: Store, l: nat, t: Timer)
    requires PlacesOk(s) && t.id !in s.places
    requires l < |s.wheels| && s.wheels[l].tick > 0 && |s.wheels[l].buckets| == s.size > 0
    ensures PlacesOk(Put(s, l, t))
  {
    var s', y := Put(s, l, t), Slot(l, t.expiration / s.wheels[l].tick % s.size);
    PutFrame(s, l, t, y);
    forall x, j | s'.Has(x) && 0 <= j < |s'.At(x).timers|
      ensures s'.At(x).timers[j].id in s'.places && s'.places[s'.At(x).timers[j].id] == Waiting(x)
    {
      PutFrame(s, l, t, x);
      if x != y || j < |s.At(y).timers| { assert s'.At(x).timers[j] == s.At(x).timers[j]; }
    }
    forall x, i, j | s'.Has(x) && 0 <= i < j < |s'.At(x).timers|
      ensures s'.At(x).timers[i].id != s'.At(x).timers[j].id
    {
      PutFrame(s, l, t, x);
      assert s'.At(x).timers[i] == s.At(x).timers[i];
      if x != y || j < |s.At(y).timers| { assert s'.At(x).timers[j] == s.At(x).timers[j]; }
    }
    forall id | id in s'.places
      ensures if s'.places[id].Waiting? then IsIn(s', s'.places[id].slot, id) else HasStarted(s', id)
    {
      if id == t.id {
        assert s'.At(y).timers[|s.At(y).timers|].id == id;
      } else if s.places[id].Waiting? {
        PutIsIn(s, l, t, s.places[id].slot, id);
      } else {
        assert HasStarted(s, id);
      }
    }
  }

  lemma {:induction false} PutIsIn(s: Store, l: nat, t: Timer, x: Slot, id: nat)
    requires l < |s.wheels| && s.wheels[l].tick > 0 && |s.wheels[l].buckets| == s.size > 0
    requires IsIn(s, x, id)
    ensures IsIn(Put(s, l, t), x, id)
  {
    PutFrame(s, l, t, x);
    var j :| 0 <= j < |s.At(x).timers| && s.At(x).timers[j].id == id;
    assert Put(s, l, t).At(x).timers[j] == s.At(x).timers[j];
  }

  lemma {:induction false} PutDue(s: Store, l: nat, t: Timer)
    requires DueOk(s) && PlacesOk(s) && t.id !in s.places && t.limit < |s.wheels|
    requires l < |s.wheels| && s.wheels[l].tick > 0 && |s.wheels[l].buckets| == s.size > 0
    ensures DueOk(Put(s, l, t))
  {
    var s', y := Put(s, l, t), Slot(l, t.expiration / s.wheels[l].tick % s.size);
    forall x, j | s'.Has(x) && 0 <= j < |s'.At(x).timers| ensures IsDue(s', s'.At(x).timers[j]) {
      PutFrame(s, l, t, x);
      if x != y || j < |s.At(y).timers| {
        assert s'.At(x).timers[j] == s.At(x).timers[j];
        assert IsDue(s, s.At(x).timers[j]);
      }
    }
    forall k | 0 <= k < |s'.started| ensures IsDue(s', s'.started[k].timer) {
      assert IsDue(s, s.started[k].timer);
    }
  }

  lemma {:induction false} PutKeeps(s: Store, l: nat, t: Timer, busy: Option<Slot>)
    requires Inv(s, busy) && l < |s.wheels| && WheelOk(s, l) && Takes(s, l, t) && t.id !in s.places && s.size > 0 && t.limit < |s.wheels|
    requires t.flushes + l <= t.limit && (busy.Some? ==> busy.value.level != l)
    ensures Inv(Put(s, l, t), busy)
    ensures busy.Some? ==> Put(s, l, t).Has(busy.value) && Put(s, l, t).At(busy.value) == s.At(busy.value)
  {
    PutGeometry(s, l, t);
    PutBuckets(s, l, t, busy);
    PutPlaces(s, l, t);
    PutDue(s, l, t);
    if busy.Some? { PutFrame(s, l, t, busy.value); }
  }

  // ----------------------------------------------------------- overflow wheels

  /** newTimeWheel */
  function NewWheel(tick: int, size: nat, start: int): (w: Wheel) {
    Wheel(tick, tick * size, Truncate(start, tick), seq(size, _ => Bucket(-1, [])))
  }

  /** The chain with one more level. */
  function WithOverflow(s: Store): (r: Store)
    requires |s.wheels| > 0
  {
    var w := s.wheels[|s.wheels| - 1];
    s.(wheels := s.wheels + [NewWheel(w.interval, s.size, w.currentTime)])
  }

  lemma {:induction false} OverflowGeometry(s: Store)
    requires Geometry(s) && s.size >= 2
    ensures Geometry(WithOverflow(s))
  {
    var s', n := WithOverflow(s), |s.wheels|;
    var w := s.wheels[n - 1];
    assert WheelOk(s, n - 1);
    assert w.interval > 0 by { Products(s.size, 1, w.tick); }
    TruncateTwice(s.wheels[0].currentTime, w.tick, s.size);
    forall k | 0 <= k < |s'.wheels| ensures WheelOk(s', k) {
      if k < n { assert WheelOk(s, k); }
    }
  }

  lemma {:induction false} OverflowFrame(s: Store, x: Slot)
    requires |s.wheels| > 0
    ensures s.Has(x) ==> WithOverflow(s).Has(x) && WithOverflow(s).At(x) == s.At(x)
    ensures WithOverflow(s).Has(x) && !s.Has(x) ==> WithOverflow(s).At(x) == Bucket(-1, [])
  {
  }

  lemma {:induction false} OverflowKeeps(s: Store, busy: Option<Slot>)
    requires Inv(s, busy) && s.size >= 2
    ensures Inv(WithOverflow(s), busy)
    ensures busy.Some? ==> WithOverflow(s).Has(busy.value) && WithOverflow(s).At(busy.value) == s.At(busy.value)
  {
    var s' := WithOverflow(s);
    OverflowGeometry(s);
    if busy.Some? { OverflowFrame(s, busy.value); }
    forall x | s'.Has(x) ensures BucketOk(s', x, busy) {
      OverflowFrame(s, x);
      if s.Has(x) {
        assert BucketOk(s, x, busy);
        SameBucket(s, s', x, busy);
      }
    }
    forall e | e in s'.queue ensures EntryOk(s', e, busy) {
      assert EntryOk(s, e, busy);
      OverflowFrame(s, e.slot);
    }
    OverflowPlaces(s);
    forall x, j | s'.Has(x) && 0 <= j < |s'.At(x).timers| ensures IsDue(s', s'.At(x).timers[j]) {
      OverflowFrame(s, x);
      assert IsDue(s, s.At(x).timers[j]);
    }
  }

  lemma {:induction false} OverflowPlaces(s: Store)
    requires |s.wheels| > 0 && PlacesOk(s)
    ensures PlacesOk(WithOverflow(s))
  {
    var s' := WithOverflow(s);
    forall x, j | s'.Has(x) && 0 <= j < |s'.At(x).timers|
      ensures s'.At(x).timers[j].id in s'.places && s'.places[s'.At(x).timers[j].id] == Waiting(x) {
      OverflowFrame(s, x);
    }
    forall x, i, j | s'.Has(x) && 0 <= i < j < |s'.At(x).timers|
      ensures s'.At(x).timers[i].id != s'.At(x).timers[j].id {
      OverflowFrame(s, x);
    }
    forall id | id in s'.places
      ensures if s'.places[id].Waiting? then IsIn(s', s'.places[id].slot, id) else HasStarted(s', id)
    {
      if s.places[id].Waiting? {
        OverflowFrame(s, s.places[id].slot);
        assert IsIn(s, s.places[id].slot, id);
      } else {
        assert HasStarted(s, id);
      }
    }
  }

  // ----------------------------------------------------------------- starting

  function WithStart(s: Store, t: Timer): (r: Store)
    requires |s.wheels| > 0
  {
    s.(started := s.started + [Start(t, s.wheels[0].currentTime)], places := s.places[t.id := Started],
       due := s.due[t.id := t.expiration])
  }

  lemma {:induction false} StartKeeps(s: Store, t: Timer, busy: Option<Slot>)
    requires Inv(s, busy) && t.id !in s.places
    requires t.expiration < s.wheels[0].currentTime + s.wheels[0].tick && t.flushes <= t.limit + 1
    requires (t.flushes > 0 ==> s.wheels[0].currentTime <= t.expiration) && t.limit < |s.wheels|
    ensures Inv(WithStart(s, t), busy)
  {
    var s' := WithStart(s, t);
    forall k | 0 <= k < |s'.wheels| ensures WheelOk(s', k) { assert WheelOk(s, k); }
    forall x | s'.Has(x) ensures BucketOk(s', x, busy) {
      assert s.Has(x) && BucketOk(s, x, busy);
      SameBucket(s, s', x, busy);
    }
    forall e | e in s'.queue ensures EntryOk(s', e, busy) { assert EntryOk(s, e, busy); }
    StartPlaces(s, t);
    StartDue(s, t);
  }

  lemma {:induction false} StartDue(s: Store, t: Timer)
    requires t.limit < |s.wheels| && PlacesOk(s) && DueOk(s) && t.id !in s.places
    ensures DueOk(WithStart(s, t))
  {
    var s' := WithStart(s, t);
    forall x, j | s'.Has(x) && 0 <= j < |s'.At(x).timers| ensures IsDue(s', s'.At(x).timers[j]) {
      assert s.Has(x) && s.At(x) == s'.At(x) && IsDue(s, s.At(x).timers[j]);
    }
    forall k | 0 <= k < |s'.started| ensures IsDue(s', s'.started[k].timer) {
      if k < |s.started| { assert s'.started[k] == s.started[k] && IsDue(s, s.started[k].timer); }
    }
  }

  lemma {:induction false} StartPlaces(s: Store, t: Timer)
    requires |s.wheels| > 0 && PlacesOk(s) && t.id !in s.places
    ensures PlacesOk(WithStart(s, t))
  {
    var s' := WithStart(s, t);
    forall id | id in s'.places
      ensures if s'.places[id].Waiting? then IsIn(s', s'.places[id].slot, id) else HasStarted(s', id)
    {
      if id == t.id {
        assert s'.started[|s.started|].timer.id == id;
      } else if s.places[id].Waiting? {
        var x := s.places[id].slot;
        assert IsIn(s, x, id);
        var j :| 0 <= j < |s.At(x).timers| && s.At(x).timers[j].id == id;
        assert s'.At(x).timers[j].id == id;
      } else {
        var k :| 0 <= k < |s.started| && s.started[k].timer.id == id;
        assert s'.started[k].timer.id == id;
      }
    }
    forall x, j | s'.Has(x) && 0 <= j < |s'.At(x).timers|
      ensures s'.At(x).timers[j].id in s'.places && s'.places[s'.At(x).timers[j].id] == Waiting(x) {
      assert s.Has(x) && s.At(x) == s'.At(x);
    }
    forall x, i, j | s'.Has(x) && 0 <= i < j < |s'.At(x).timers|
      ensures s'.At(x).timers[i].id != s'.At(x).timers[j].id {
      assert s.Has(x) && s.At(x) == s'.At(x);
    }
    forall k | 0 <= k < |s'.started|
      ensures s'.started[k].timer.id in s'.places && s'.places[s'.started[k].timer.id] == Started {
      if k < |s.started| { assert s'.started[k] == s.started[k]; }
    }
    forall j, k | 0 <= j < k < |s'.started| ensures s'.started[j].timer.id != s'.started[k].timer.id {
      assert s'.started[j] == s.started[j];
      if k < |s.started| { assert s'.started[k] == s.started[k]; }
    }
  }

  // ----------------------------------------------------------------- the clocks

  /** The wheels from level `from` on with their clocks set for time `now`. */
  function Advanced(wheels: seq<Wheel>, from: nat, now: int): (r: seq<Wheel>) {
    seq(|wheels|, l requires 0 <= l < |wheels| =>
      if l >= from then wheels[l].(currentTime := Truncate(now, wheels[l].tick)) else wheels[l])
  }

  /** A clock that is not a tick behind is already right, and so are those above it. */
  lemma {:induction false} ClockStands(s: Store, l: nat, now: int)
    requires Geometry(s) && l < |s.wheels| && s.wheels[0].currentTime <= now
    requires Truncate(now, s.wheels[l].tick) == s.wheels[l].currentTime
    ensures Advanced(s.wheels, l, now) == s.wheels
  {
    forall k | l <= k < |s.wheels| ensures Truncate(now, s.wheels[k].tick) == s.wheels[k].currentTime {
      ClocksAgree(s, l, k, now);
    }
  }

  lemma {:induction false} ClocksAgree(s: Store, l: nat, k: nat, now: int)
    requires Geometry(s) && l <= k < |s.wheels|
    requires Truncate(now, s.wheels[l].tick) == s.wheels[l].currentTime
    ensures Truncate(now, s.wheels[k].tick) == s.wheels[k].currentTime
  {
    if l < k {
      ClocksAgree(s, l, k - 1, now);
      assert WheelOk(s, k - 1) && WheelOk(s, k);
      var w := s.wheels[k - 1];
      Products(s.size, 1, w.tick);
      TruncateTwice(now, w.tick, s.size);
      TruncateTwice(s.wheels[0].currentTime, w.tick, s.size);
    }
  }

  lemma {:induction false} TruncateUp(s: Store, l: nat, k: nat, now: int)
    requires Geometry(s) && l < k < |s.wheels|
    ensures Truncate(Truncate(now, s.wheels[l].tick), s.wheels[k].tick) == Truncate(now, s.wheels[k].tick)
  {
    assert WheelOk(s, k - 1);
    var w, y := s.wheels[k - 1], Truncate(now, s.wheels[l].tick);
    Products(s.size, 1, w.tick);
    TruncateTwice(now, w.tick, s.size);
    if l < k - 1 {
      TruncateUp(s, l, k - 1, now);
      TruncateTwice(y, w.tick, s.size);
    }
  }

  lemma {:induction false} AlignedDown(s: Store, l: nat, k: nat, x: int)
    requires Geometry(s) && l <= k < |s.wheels| && s.wheels[l].tick > 0 && s.wheels[k].tick > 0
    requires Aligned(x, s.wheels[k].tick)
    ensures Aligned(x, s.wheels[l].tick)
  {
    if l < k {
      assert WheelOk(s, k - 1);
      Products(s.size, 1, s.wheels[k - 1].tick);
      AlignedFiner(x, s.wheels[k - 1].tick, s.size);
      AlignedDown(s, l, k - 1, x);
    }
  }

  /** From level `l` on, two times give the same clocks. */
  ghost predicate SameFrom(s: Store, l: nat, a: int, b: int) {
    forall k :: l <= k < |s.wheels| ==> Truncate(a, s.wheels[k].tick) == Truncate(b, s.wheels[k].tick)
  }

  lemma {:induction false} SameFromNext(s: Store, l: nat, a: int, b: int)
    requires Geometry(s) && l + 1 < |s.wheels| && SameFrom(s, l, a, b)
    ensures SameFrom(s, l + 1, Truncate(a, s.wheels[l].tick), b)
  {
    forall k | l + 1 <= k < |s.wheels|
      ensures Truncate(Truncate(a, s.wheels[l].tick), s.wheels[k].tick) == Truncate(b, s.wheels[k].tick) {
      TruncateUp(s, l, k, a);
    }
  }

  lemma {:induction false} ClockStandsAt(s: Store, l: nat, a: int, b: int)
    requires Geometry(s) && l < |s.wheels| && b >= s.wheels[0].currentTime && SameFrom(s, l, a, b)
    requires a < s.wheels[l].currentTime + s.wheels[l].tick
    ensures Advanced(s.wheels, l, b) == s.wheels
  {
    var w := s.wheels[l];
    assert WheelOk(s, l);
    TruncateMonotone(s.wheels[0].currentTime, b, w.tick);
    TruncateBounds(a, w.tick);
    TruncateBounds(s.wheels[0].currentTime, w.tick);
    TruncateUnique(a, w.tick, w.currentTime);
    ClockStands(s, l, b);
  }

  // --------------------------------------------------------- taking a bucket

  /** No queued bucket is earlier. */
  ghost predicate Earliest(s: Store, e: Entry) {
    e in s.queue && forall e' :: e' in s.queue ==> e.priority <= e'.priority
  }

  /** The entry is off the queue and all clocks stand at its time. */
  function Taken(s: Store, e: Entry): (r: Store) {
    s.(queue := s.queue - multiset{e}, wheels := Advanced(s.wheels, 0, e.priority))
  }

  lemma {:induction false} TakenFrame(s: Store, e: Entry, x: Slot)
    ensures (Taken(s, e).Has(x) <==> s.Has(x)) && (s.Has(x) ==> Taken(s, e).At(x) == s.At(x))
  {
  }

  /** The bucket's time is a time of the level-0 clock. */
  lemma {:induction false} EntryTime(s: Store, e: Entry)
    requires Inv(s, None) && e in s.queue
    ensures s.wheels[0].tick > 0 && Aligned(e.priority, s.wheels[0].tick) && e.priority >= s.wheels[0].currentTime
    ensures Truncate(e.priority, s.wheels[0].tick) == e.priority
  {
    assert EntryOk(s, e, None);
    assert BucketOk(s, e.slot, None);
    assert WheelOk(s, 0) && WheelOk(s, e.slot.level);
    AlignedDown(s, 0, e.slot.level, e.priority);
  }

  lemma {:induction false} TakenGeometry(s: Store, e: Entry)
    requires Inv(s, None) && e in s.queue
    ensures Geometry(Taken(s, e)) && Taken(s, e).wheels[0].currentTime == e.priority
  {
    var s' := Taken(s, e);
    EntryTime(s, e);
    forall l | 0 <= l < |s'.wheels| ensures WheelOk(s', l) {
      assert WheelOk(s, l);
    }
  }

  lemma {:induction false} TakenBucket(s: Store, e: Entry, x: Slot)
    requires Inv(s, None) && Earliest(s, e) && s.Has(x)
    ensures Taken(s, e).Has(x) && BucketOk(Taken(s, e), x, Some(e.slot))
  {
    var s' := Taken(s, e);
    TakenFrame(s, e, x);
    TakenGeometry(s, e);
    assert BucketOk(s, x, None) && EntryOk(s, e, None);
    assert WheelOk(s, x.level);
    var b, w := s.At(x), s.wheels[x.level];
    if b.expiration != -1 {
      assert EntryOk(s, Entry(x, b.expiration), None);
      TruncateBounds(e.priority, w.tick);
      TruncateBounds(s.wheels[0].currentTime, w.tick);
      EntryTime(s, e);
      TruncateMonotone(s.wheels[0].currentTime, e.priority, w.tick);
      assert InUse(s', x);
    }
  }

  lemma {:induction false} TruncateMonotone(x: int, y: int, m: int)
    requires m > 0 && x <= y
    ensures Truncate(x, m) <= Truncate(y, m)
  {
    TruncateBounds(x, m);
    TruncateBounds(y, m);
    AlignedBelow(Truncate(x, m), Truncate(y, m), y, m);
  }

  lemma {:induction false} TakenKeeps(s: Store, e: Entry)
    requires Inv(s, None) && Earliest(s, e)
    ensures Inv(Taken(s, e), Some(e.slot)) && Taken(s, e).At(e.slot) == s.At(e.slot)
  {
    var s' := Taken(s, e);
    TakenGeometry(s, e);
    forall x | s'.Has(x) ensures BucketOk(s', x, Some(e.slot)) {
      TakenFrame(s, e, x);
      TakenBucket(s, e, x);
    }
    forall e' | e' in s'.queue ensures EntryOk(s', e', Some(e.slot)) {
      assert EntryOk(s, e', None) && EntryOk(s, e, None);
      TakenFrame(s, e, e'.slot);
    }
    assert EntryOk(s, e, None);
    TakenFrame(s, e, e.slot);
    SamePlaces(s, s') by {
      forall x ensures (s'.Has(x) <==> s.Has(x)) && (s.Has(x) ==> s'.At(x).timers == s.At(x).timers) {
        TakenFrame(s, e, x);
      }
    }
  }

  lemma {:induction false} SamePlaces(s: Store, s': Store)
    requires PlacesOk(s) && DueOk(s) && s'.places == s.places && s'.started == s.started && s'.due == s.due
    requires |s'.wheels| == |s.wheels|
    requires forall x :: (s'.Has(x) <==> s.Has(x)) && (s.Has(x) ==> s'.At(x).timers == s.At(x).timers)
    ensures PlacesOk(s') && DueOk(s')
  {
    forall id | id in s'.places
      ensures if s'.places[id].Waiting? then IsIn(s', s'.places[id].slot, id) else HasStarted(s', id)
    {
      if s.places[id].Waiting? { assert IsIn(s, s.places[id].slot, id); }
      else { assert HasStarted(s, id); }
    }
    forall x, j | s'.Has(x) && 0 <= j < |s'.At(x).timers| ensures IsDue(s', s'.At(x).timers[j]) {
      assert IsDue(s, s.At(x).timers[j]);
    }
    forall k | 0 <= k < |s'.started| ensures IsDue(s', s'.started[k].timer) {
      assert IsDue(s, s.started[k].timer);
    }
  }

  // ------------------------------------------------------------------ flushing

  function WithBucket(s: Store, x: Slot, b: Bucket): (r: Store)
    requires s.Has(x)
  {
    var w := s.wheels[x.level];
    s.(wheels := s.wheels[x.level := w.(buckets := w.buckets[x.index := b])])
  }

  lemma {:induction false} WithBucketFrame(s: Store, x: Slot, b: Bucket, y: Slot)
    requires s.Has(x)
    ensures WithBucket(s, x, b).Has(y) <==> s.Has(y)
    ensures s.Has(y) ==> WithBucket(s, x, b).At(y) == if y == x then b else s.At(y)
  {
  }

  lemma {:induction false} WithBucketGeometry(s: Store, x: Slot, b: Bucket)
    requires Geometry(s) && s.Has(x)
    ensures Geometry(WithBucket(s, x, b)) && WithBucket(s, x, b).wheels[0].currentTime == s.wheels[0].currentTime
    ensures WithBucket(s, x, b).wheels[0].tick == s.wheels[0].tick
  {
    var s' := WithBucket(s, x, b);
    forall l | 0 <= l < |s'.wheels| ensures WheelOk(s', l) { assert WheelOk(s, l); }
  }

  /** bucket.remove of the first timer of the bucket being flushed. */
  function WithoutFirst(s: Store, x: Slot): (r: Store)
    requires s.Has(x) && s.At(x).timers != []
  {
    var b := s.At(x);
    WithBucket(s, x, b.(timers := b.timers[1..])).(places := s.places - {b.timers[0].id})
  }

  lemma {:induction false} WithoutFirstKeeps(s: Store, x: Slot)
    requires Inv(s, Some(x)) && s.At(x).timers != []
    ensures Inv(WithoutFirst(s, x), Some(x))
    ensures WithoutFirst(s, x).Has(x) && WithoutFirst(s, x).At(x) == s.At(x).(timers := s.At(x).timers[1..])
  {
    var s', b := WithoutFirst(s, x), s.At(x);
    var b' := b.(timers := b.timers[1..]);
    WithBucketGeometry(s, x, b');
    forall l | 0 <= l < |s'.wheels| ensures WheelOk(s', l) { assert WheelOk(WithBucket(s, x, b'), l); }
    WithBucketFrame(s, x, b', x);
    forall y | s'.Has(y) ensures BucketOk(s', y, Some(x)) {
      WithBucketFrame(s, x, b', y);
      assert BucketOk(s, y, Some(x));
      if y != x { SameBucket(s, s', y, Some(x)); }
    }
    forall e | e in s'.queue ensures EntryOk(s', e, Some(x)) {
      assert EntryOk(s, e, Some(x));
      WithBucketFrame(s, x, b', e.slot);
    }
    WithoutFirstPlaces(s, x);
    forall y, j | s'.Has(y) && 0 <= j < |s'.At(y).timers| ensures IsDue(s', s'.At(y).timers[j]) {
      WithBucketFrame(s, x, b', y);
      assert IsDue(s, s.At(y).timers[if y == x then j + 1 else j]);
    }
  }

  lemma {:induction false} WithoutFirstPlaces(s: Store, x: Slot)
    requires PlacesOk(s) && s.Has(x) && s.At(x).timers != []
    ensures PlacesOk(WithoutFirst(s, x))
  {
    var s', b := WithoutFirst(s, x), s.At(x);
    var b', gone := b.(timers := b.timers[1..]), b.timers[0].id;
    forall y, j | s'.Has(y) && 0 <= j < |s'.At(y).timers|
      ensures s'.At(y).timers[j].id in s'.places && s'.places[s'.At(y).timers[j].id] == Waiting(y)
    {
      WithBucketFrame(s, x, b', y);
      if y == x { assert s'.At(y).timers[j] == b.timers[j + 1]; }
      else { assert s.At(y).timers[j].id != gone; }
    }
    forall y, i, j | s'.Has(y) && 0 <= i < j < |s'.At(y).timers|
      ensures s'.At(y).timers[i].id != s'.At(y).timers[j].id
    {
      WithBucketFrame(s, x, b', y);
      if y == x { assert s'.At(y).timers[i] == b.timers[i + 1] && s'.At(y).timers[j] == b.timers[j + 1]; }
    }
    forall id | id in s'.places
      ensures if s'.places[id].Waiting? then IsIn(s', s'.places[id].slot, id) else HasStarted(s', id)
    {
      if s.places[id].Waiting? {
        var y := s.places[id].slot;
        assert IsIn(s, y, id);
        WithBucketFrame(s, x, b', y);
        var j :| 0 <= j < |s.At(y).timers| && s.At(y).timers[j].id == id;
        if y == x { assert s'.At(y).timers[j - 1] == s.At(y).timers[j]; }
        else { assert s'.At(y).timers[j] == s.At(y).timers[j]; }
      } else {
        assert HasStarted(s, id);
      }
    }
  }

  /** The end of Flush: SetExpiration(-1). */
  lemma {:induction false} ReleaseKeeps(s: Store, x: Slot)
    requires Inv(s, Some(x)) && s.At(x).timers == []
    ensures Inv(WithBucket(s, x, Bucket(-1, [])), None)
  {
    var s' := WithBucket(s, x, Bucket(-1, []));
    WithBucketGeometry(s, x, Bucket(-1, []));
    forall y | s'.Has(y) ensures BucketOk(s', y, None) {
      WithBucketFrame(s, x, Bucket(-1, []), y);
      assert BucketOk(s, y, Some(x));
      if y != x { ReleasedBucket(s, s', y, x); }
    }
    forall e | e in s'.queue ensures EntryOk(s', e, None) {
      assert EntryOk(s, e, Some(x));
      WithBucketFrame(s, x, Bucket(-1, []), e.slot);
    }
    SamePlaces(s, s') by {
      forall y ensures (s'.Has(y) <==> s.Has(y)) && (s.Has(y) ==> s'.At(y).timers == s.At(y).timers) {
        WithBucketFrame(s, x, Bucket(-1, []), y);
      }
    }
  }

  lemma {:induction false} ReleasedBucket(s: Store, s': Store, y: Slot, x: Slot)
    requires s.Has(y) && y != x && BucketOk(s, y, Some(x))
    requires s'.Has(y) && s'.At(y) == s.At(y) && s'.size == s.size && s'.queue == s.queue
    requires s'.wheels[y.level].(buckets := []) == s.wheels[y.level].(buckets := [])
    requires s'.wheels[0].currentTime == s.wheels[0].currentTime
    ensures BucketOk(s', y, None)
  {
  }

  // ----------------------------------------------------------------- the wheel

  lemma {:induction false} ClockNotNegative(s: Store, l: nat)
    requires Geometry(s) && l < |s.wheels|
    ensures s.wheels[l].currentTime >= 0
  {
    assert WheelOk(s, l);
    TruncateBounds(s.wheels[0].currentTime, s.wheels[l].tick);
    AlignedBelow(0, s.wheels[l].currentTime, s.wheels[0].currentTime, s.wheels[l].tick);
  }

  // -------------------------------------------------- add, as a function

  /** A timer past the span of a level is not yet due on the next. */
  lemma {:induction false} ComesToNextLevel(s: Store, l: nat, expiration: int)
    requires Geometry(s) && l + 1 < |s.wheels|
    requires expiration >= s.wheels[l].currentTime + s.wheels[l].interval
    ensures expiration >= s.wheels[l + 1].currentTime + s.wheels[l + 1].tick
    ensures s.wheels[l + 1].tick > s.wheels[l].tick
  {
    assert WheelOk(s, l) && WheelOk(s, l + 1);
    Products(s.size, 2, s.wheels[l].tick);
    TruncateTwice(s.wheels[0].currentTime, s.wheels[l].tick, s.size);
    TruncateBounds(s.wheels[l].currentTime, s.wheels[l + 1].tick);
  }

  /** The timer has come up to level `l`, and add is going to end. */
  ghost predicate Comes(s: Store, l: nat, expiration: int) {
    && l < |s.wheels| && (l > 0 ==> expiration >= s.wheels[l].currentTime + s.wheels[l].tick)
    && (s.size >= 2 || (l == 0 && expiration < s.wheels[0].currentTime + s.wheels[0].tick))
  }

  datatype Outcome = Outcome(store: Store, added: bool)

  /** The timer as it is first stored at level `l`. */
  function Stored(t: Timer, l: nat): (r: Timer) {
    if t.flushes == 0 then t.(limit := l) else t
  }

  /** The chain when add goes up from level `l`. */
  function Above(s: Store, l: nat): (r: Store)
    requires l < |s.wheels|
  {
    if l + 1 == |s.wheels| then WithOverflow(s) else s
  }

  lemma {:induction false} GoingUp(s: Store, l: nat, expiration: int)
    requires Geometry(s) && Comes(s, l, expiration)
    requires expiration >= s.wheels[l].currentTime + s.wheels[l].interval
    requires expiration >= s.wheels[l].currentTime + s.wheels[l].tick
    ensures var s1 := Above(s, l);
      && Geometry(s1) && Comes(s1, l + 1, expiration) && s1.wheels[l] == s.wheels[l]
      && s1.wheels[l + 1].tick > s.wheels[l].tick && s.wheels[l].tick <= expiration
  {
    assert WheelOk(s, l);
    ClockNotNegative(s, l);
    var s1 := Above(s, l);
    if l + 1 == |s.wheels| { OverflowGeometry(s); }
    ComesToNextLevel(s1, l, expiration);
  }

  /** add, from level `l` on. */
  ghost function AddTo(s: Store, t: Timer, l: nat): (r: Outcome)
    requires Geometry(s) && Comes(s, l, t.expiration)
    decreases t.expiration - s.wheels[l].tick
  {
    var w := s.wheels[l];
    assert WheelOk(s, l);
    if t.expiration < w.currentTime + w.tick then Outcome(s, false)
    else if t.expiration < w.currentTime + w.interval then Outcome(Put(s, l, Stored(t, l)), true)
    else GoingUp(s, l, t.expiration); AddTo(Above(s, l), t, l + 1)
  }

  /** What is being re-inserted from a bucket of level `b` fits below that level. */
  ghost predicate Reinserted(s: Store, t: Timer, b: nat) {
    && |s.wheels| > 0 && b < |s.wheels|
    && s.wheels[0].currentTime <= t.expiration < s.wheels[0].currentTime + s.wheels[b].tick
    && t.flushes + b <= t.limit + 1
  }

  /** The level below the bucket being flushed spans everything that was in it. */
  lemma {:induction false} LevelBelowTakes(s: Store, x: Slot, t: Timer, l: nat)
    requires Inv(s, Some(x)) && l + 1 == x.level && Reinserted(s, t, x.level)
    ensures t.expiration < s.wheels[l].currentTime + s.wheels[l].interval
  {
    assert BucketOk(s, x, Some(x)) && WheelOk(s, l) && WheelOk(s, x.level);
    AlignedDown(s, l, x.level, s.wheels[0].currentTime);
  }

  /** A timer that is new, or comes out of the bucket being flushed and is below its level. */
  ghost predicate Addable(s: Store, t: Timer, l: nat, busy: Option<Slot>) {
    && t.id !in s.places && Comes(s, l, t.expiration) && t.limit < |s.wheels|
    && (busy.None? ==> t.flushes == 0)
    && (busy.Some? ==> t.flushes > 0 && Reinserted(s, t, busy.value.level)
                       && (if busy.value.level == 0 then l == 0 else l < busy.value.level))
  }

  /** The levels are there as before, perhaps with more on top. */
  ghost predicate SameLevels(s: Store, s': Store) {
    && |s.wheels| <= |s'.wheels| && s'.size == s.size && s'.started == s.started
    && forall k :: 0 <= k < |s.wheels| ==>
         s'.wheels[k].tick == s.wheels[k].tick && s'.wheels[k].currentTime == s.wheels[k].currentTime
  }

  lemma {:induction false} PutClocks(s: Store, l: nat, t: Timer)
    requires l < |s.wheels| && s.wheels[l].tick > 0 && |s.wheels[l].buckets| == s.size > 0
    ensures SameLevels(s, Put(s, l, t))
  {
  }

  /** What add keeps and where it puts the timer. */
  ghost predicate AddedWell(s: Store, t: Timer, l: nat, busy: Option<Slot>, r: Outcome) {
    && Inv(r.store, busy) && SameLevels(s, r.store)
    && (busy.Some? ==> s.Has(busy.value) && r.store.Has(busy.value) && r.store.At(busy.value) == s.At(busy.value))
    && (!r.added ==> r.store == s)
    && (r.added ==>
          && r.store.due == s.due[t.id := t.expiration] && t.id in r.store.places && r.store.places[t.id].Waiting?
          && r.store.places == s.places[t.id := r.store.places[t.id]]
          && (busy.Some? ==> r.store.places[t.id].slot.level < busy.value.level))
  }

  lemma {:induction false} StoreKeeps(s: Store, t: Timer, l: nat, busy: Option<Slot>)
    requires Inv(s, busy) && Addable(s, t, l, busy) && Takes(s, l, t)
    ensures WheelOk(s, l) && s.size > 0 && AddedWell(s, t, l, busy, Outcome(Put(s, l, Stored(t, l)), true))
  {
    assert WheelOk(s, l);
    if busy.Some? && busy.value.level == 0 { assert false; }
    PutKeeps(s, l, Stored(t, l), busy);
    PutClocks(s, l, Stored(t, l));
  }

  lemma {:induction false} UpKeeps(s: Store, t: Timer, l: nat, busy: Option<Slot>)
    requires Inv(s, busy) && Addable(s, t, l, busy) && s.wheels[l].tick > 0
    requires t.expiration >= s.wheels[l].currentTime + s.wheels[l].interval
    requires t.expiration >= s.wheels[l].currentTime + s.wheels[l].tick
    ensures Inv(Above(s, l), busy) && Addable(Above(s, l), t, l + 1, busy) && SameLevels(s, Above(s, l))
    ensures Above(s, l).places == s.places && Above(s, l).due == s.due
    ensures busy.Some? ==> Above(s, l).Has(busy.value) && Above(s, l).At(busy.value) == s.At(busy.value)
    ensures Above(s, l).wheels[l + 1].tick > s.wheels[l].tick && s.wheels[l].tick <= t.expiration
  {
    GoingUp(s, l, t.expiration);
    if busy.Some? {
      if busy.value.level == 0 { assert false; }
      if l + 1 == busy.value.level { LevelBelowTakes(s, busy.value, t, l); assert false; }
    }
    if l + 1 == |s.wheels| { OverflowKeeps(s, busy); }
  }

  /** add stores the timer exactly if it is not due within the tick, and keeps the invariant. */
  lemma {:induction false} AddKeeps(s: Store, t: Timer, l: nat, busy: Option<Slot>)
    requires Inv(s, busy) && Addable(s, t, l, busy)
    ensures AddedWell(s, t, l, busy, AddTo(s, t, l))
    ensures AddTo(s, t, l).added <==> t.expiration >= s.wheels[l].currentTime + s.wheels[l].tick
    decreases t.expiration - s.wheels[l].tick, 1
  {
    assert WheelOk(s, l);
    if t.expiration >= s.wheels[l].currentTime + s.wheels[l].tick {
      if t.expiration < s.wheels[l].currentTime + s.wheels[l].interval {
        StoreKeeps(s, t, l, busy);
      } else {
        AddKeepsAbove(s, t, l, busy);
      }
    }
  }

  lemma {:induction false} AddKeepsAbove(s: Store, t: Timer, l: nat, busy: Option<Slot>)
    requires Inv(s, busy) && Addable(s, t, l, busy) && s.wheels[l].tick > 0
    requires t.expiration >= s.wheels[l].currentTime + s.wheels[l].interval
    requires t.expiration >= s.wheels[l].currentTime + s.wheels[l].tick
    ensures AddedWell(s, t, l, busy, AddTo(s, t, l)) && AddTo(s, t, l).added
    decreases t.expiration - s.wheels[l].tick, 0
  {
    UpKeeps(s, t, l, busy);
    AddKeeps(Above(s, l), t, l + 1, busy);
    var r := AddsAbove(s, t, l);
    AddedAbove(s, Above(s, l), t, l, busy, r);
  }

  /** Past the span of a level, add is add of the level above. */
  lemma {:induction false} AddsAbove(s: Store, t: Timer, l: nat) returns (r: Outcome)
    requires Geometry(s) && Comes(s, l, t.expiration)
    requires t.expiration >= s.wheels[l].currentTime + s.wheels[l].interval
    requires t.expiration >= s.wheels[l].currentTime + s.wheels[l].tick
    ensures Geometry(Above(s, l)) && Comes(Above(s, l), l + 1, t.expiration)
    ensures r == AddTo(s, t, l) == AddTo(Above(s, l), t, l + 1)
  {
    GoingUp(s, l, t.expiration);
    r := AddTo(s, t, l);
  }

  lemma {:induction false} AddedAbove(s: Store, s1: Store, t: Timer, l: nat, busy: Option<Slot>, r: Outcome)
    requires SameLevels(s, s1) && s1.places == s.places && s1.due == s.due
    requires busy.Some? ==> s.Has(busy.value) && s1.Has(busy.value) && s1.At(busy.value) == s.At(busy.value)
    requires r.added && AddedWell(s1, t, l + 1, busy, r)
    ensures AddedWell(s, t, l, busy, r)
  {
  }

  // ---------------------------------------------- addOrRun and Flush, as functions

  /** addOrRun; of a store that is no wheel, nothing. */
  ghost function Settle(s: Store, t: Timer): (r: Store) {
    if !(Geometry(s) && Comes(s, 0, t.expiration)) then s
    else
      var r := AddTo(s, t, 0);
      if r.added || |r.store.wheels| == 0 then r.store else WithStart(r.store, t)
  }

  /** A timer after its bucket of level `l` was flushed: started, or on a lower level. */
  ghost predicate Settled(p: Place, l: nat) {
    p.Started? || p.slot.level < l
  }

  /** addOrRun gives the timer a place: started exactly if it is due within the tick. */
  ghost predicate SettledWell(s: Store, t: Timer, busy: Option<Slot>, r: Store) {
    && Inv(r, busy) && r.size == s.size && |r.wheels| >= |s.wheels| > 0
    && (forall k :: 0 <= k < |s.wheels| ==>
          r.wheels[k].tick == s.wheels[k].tick && r.wheels[k].currentTime == s.wheels[k].currentTime)
    && (busy.Some? ==> s.Has(busy.value) && r.Has(busy.value) && r.At(busy.value) == s.At(busy.value))
    && r.due == s.due[t.id := t.expiration] && s.started <= r.started
    && t.id in r.places && r.places == s.places[t.id := r.places[t.id]]
    && (r.places[t.id].Started? <==> t.expiration < s.wheels[0].currentTime + s.wheels[0].tick)
    && (busy.Some? ==> Settled(r.places[t.id], busy.value.level))
  }

  lemma {:induction false} SettleKeeps(s: Store, t: Timer, busy: Option<Slot>)
    requires Inv(s, busy) && Addable(s, t, 0, busy)
    ensures SettledWell(s, t, busy, Settle(s, t))
  {
    AddKeeps(s, t, 0, busy);
    if !AddTo(s, t, 0).added {
      StartKeeps(s, t, busy);
    }
  }

  /** One round of Flush: the first timer leaves the bucket and is settled. */
  ghost function FlushedFirst(s: Store, x: Slot): (r: Store)
    requires s.Has(x) && s.At(x).timers != []
  {
    var t := s.At(x).timers[0];
    Settle(WithoutFirst(s, x), t.(flushes := t.flushes + 1))
  }

  /** Flush. */
  ghost function Flushed(s: Store, x: Slot): (r: Store)
    decreases if s.Has(x) then |s.At(x).timers| else 0
  {
    if !s.Has(x) then s
    else if s.At(x).timers == [] then WithBucket(s, x, Bucket(-1, []))
    else
      var s1 := FlushedFirst(s, x);
      if s1.Has(x) && |s1.At(x).timers| < |s.At(x).timers| then Flushed(s1, x) else s1
  }

  /** The clock and the timers known stay; the timers of bucket x are settled and no other moves. */
  ghost predicate OnlyFrom(s: Store, s': Store, x: Slot) {
    && |s.wheels| > 0 && |s'.wheels| > 0 && s'.size == s.size && s'.wheels[0].currentTime == s.wheels[0].currentTime
    && s'.wheels[0].tick == s.wheels[0].tick && s'.places.Keys == s.places.Keys && s'.due == s.due && s.started <= s'.started
    && forall id :: id in s.places ==>
         s'.places[id] == s.places[id] || (s.places[id] == Waiting(x) && Settled(s'.places[id], x.level))
  }

  lemma {:induction false} FirstIsAddable(s: Store, x: Slot)
    requires Inv(s, Some(x)) && s.At(x).timers != []
    ensures var t := s.At(x).timers[0];
      && Inv(WithoutFirst(s, x), Some(x)) && WithoutFirst(s, x).At(x).timers == s.At(x).timers[1..]
      && Addable(WithoutFirst(s, x), t.(flushes := t.flushes + 1), 0, Some(x))
      && t.id in s.places && s.places[t.id] == Waiting(x) && IsDue(s, t)
  {
    var b := s.At(x);
    assert BucketOk(s, x, Some(x)) && TimerOk(b.timers[0], b.expiration, s.wheels[x.level].tick, x.level);
    WithoutFirstKeeps(s, x);
    assert WheelOk(s, 0);
  }

  /** A round of Flush settles one timer of the bucket and moves no other. */
  lemma {:induction false} FlushedFirstKeeps(s: Store, x: Slot)
    requires Inv(s, Some(x)) && s.At(x).timers != []
    ensures Inv(FlushedFirst(s, x), Some(x)) && FlushedFirst(s, x).At(x).timers == s.At(x).timers[1..]
    ensures OnlyFrom(s, FlushedFirst(s, x), x)
    ensures Settled(FlushedFirst(s, x).places[s.At(x).timers[0].id], x.level)
  {
    var t, s1 := s.At(x).timers[0], WithoutFirst(s, x);
    FirstIsAddable(s, x);
    SettleKeeps(s1, t.(flushes := t.flushes + 1), Some(x));
  }

  lemma {:induction false} FromTrans(s: Store, s1: Store, s2: Store, x: Slot)
    requires OnlyFrom(s, s1, x) && OnlyFrom(s1, s2, x)
    ensures OnlyFrom(s, s2, x)
  {
  }

  /** Flush settles every timer of the bucket on a lower level or starts it, and moves no other. */
  lemma {:induction false} FlushKeeps(s: Store, x: Slot)
    requires Inv(s, Some(x))
    ensures Inv(Flushed(s, x), None) && OnlyFrom(s, Flushed(s, x), x)
    ensures forall id :: id in s.places && s.places[id] == Waiting(x) ==> Settled(Flushed(s, x).places[id], x.level)
    decreases |s.At(x).timers|
  {
    if s.At(x).timers == [] {
      ReleaseKeeps(s, x);
      WithBucketGeometry(s, x, Bucket(-1, []));
      assert forall id :: id in s.places && s.places[id] == Waiting(x) ==> IsIn(s, x, id);
    } else {
      var s1 := FlushedFirst(s, x);
      FlushedFirstKeeps(s, x);
      FlushKeeps(s1, x);
      FromTrans(s, s1, Flushed(s1, x), x);
      FlushedRest(s, s1, Flushed(s1, x), x);
    }
  }

  lemma {:induction false} FlushedRest(s: Store, s1: Store, s2: Store, x: Slot)
    requires OnlyFrom(s, s1, x) && OnlyFrom(s1, s2, x)
    requires forall id :: id in s1.places && s1.places[id] == Waiting(x) ==> Settled(s2.places[id], x.level)
    ensures forall id :: id in s.places && s.places[id] == Waiting(x) ==> Settled(s2.places[id], x.level)
  {
  }

  /** What the goroutine of Start does with a bucket the queue delivers. */
  ghost function Expired(s: Store, e: Entry): (r: Store) {
    Flushed(Taken(s, e), e.slot)
  }

  /** The timers of bucket x are settled below its level or started, and no other moves. */
  ghost predicate Resettled(p: map<nat, Place>, p': map<nat, Place>, x: Slot) {
    && p'.Keys == p.Keys
    && forall id :: id in p ==> if p[id] == Waiting(x) then Settled(p'[id], x.level) else p'[id] == p[id]
  }

  lemma {:induction false} ExpireKeeps(s: Store, e: Entry)
    requires Inv(s, None) && Earliest(s, e)
    ensures Inv(Expired(s, e), None) && Resettled(s.places, Expired(s, e).places, e.slot)
    ensures Expired(s, e).due == s.due && Expired(s, e).size == s.size && s.started <= Expired(s, e).started
    ensures Expired(s, e).wheels[0].currentTime == e.priority >= s.wheels[0].currentTime
    ensures Expired(s, e).wheels[0].tick == s.wheels[0].tick
  {
    EntryTime(s, e);
    TakenKeeps(s, e);
    TakenGeometry(s, e);
    FlushKeeps(Taken(s, e), e.slot);
  }

  // ----------------------------------------------------------------- the wheel

  class TimingWheel {
    const size: nat
    var wheels: seq<Wheel>
    var queue: multiset<Entry>
    var started: seq<Start>
    ghost var places: map<nat, Place>
    ghost var due: map<nat, int>

    ghost function Snapshot(): (s: Store)
      reads this
    {
      Store(size, wheels, queue, started, places, due)
    }

    ghost predicate Valid()
      reads this
    {
      Inv(Snapshot(), None)
    }

    /** New, with the clock at `start`. */
    constructor (tick: int, size: nat, start: int)
      requires tick >= 1 && start >= 0
      ensures Valid() && Snapshot() == Initial(tick, size, start)
      ensures |wheels| == 1 && wheels[0].tick == tick && wheels[0].currentTime % tick == 0
      ensures wheels[0].currentTime <= start < wheels[0].currentTime + tick
      ensures queue == multiset{} && started == [] && places == map[]
    {
      this.size := size;
      wheels := [NewWheel(tick, size, start)];
      queue := multiset{};
      started := [];
      places := map[];
      due := map[];
      new;
      InitialInv(tick, size, start);
      InitialClock(tick, size, start);
    }

    /** add, from level `level` on. `busy` is the bucket being flushed, if any. */
    method Add(t: Timer, level: nat, ghost busy: Option<Slot>) returns (added: bool)
      requires Inv(Snapshot(), busy) && Addable(Snapshot(), t, level, busy)
      modifies this
      ensures Outcome(Snapshot(), added) == AddTo(old(Snapshot()), t, level)
      ensures AddedWell(old(Snapshot()), t, level, busy, Outcome(Snapshot(), added))
      ensures added <==> t.expiration >= old(wheels)[level].currentTime + old(wheels)[level].tick
    {
      AddKeeps(Snapshot(), t, level, busy);
      added := Climb(t, level, busy);
    }

    /** The branches of add. */
    method Climb(t: Timer, level: nat, ghost busy: Option<Slot>) returns (added: bool)
      requires Inv(Snapshot(), busy) && Addable(Snapshot(), t, level, busy)
      modifies this
      ensures Outcome(Snapshot(), added) == AddTo(old(Snapshot()), t, level)
      decreases t.expiration - wheels[level].tick
    {
      ghost var s := Snapshot();
      var w := wheels[level];
      assert WheelOk(s, level);
      if t.expiration < w.currentTime + w.tick {
        return false;
      } else if t.expiration < w.currentTime + w.interval {
        StoreAt(t, level, busy);
        return true;
      } else {
        GoingUp(s, level, t.expiration);
        UpKeeps(s, t, level, busy);
        if level + 1 == |wheels| {
          wheels := wheels + [NewWheel(w.interval, size, w.currentTime)];
        }
        assert Snapshot() == Above(s, level);
        added := Climb(t, level + 1, busy);
      }
    }

    /** The branch of add that finds the timer's bucket on this level. */
    method StoreAt(t: Timer, level: nat, ghost busy: Option<Slot>)
      requires Inv(Snapshot(), busy) && Addable(Snapshot(), t, level, busy) && Takes(Snapshot(), level, t)
      requires wheels[level].tick > 0 && |wheels[level].buckets| == size > 0
      modifies this
      ensures Snapshot() == Put(old(Snapshot()), level, Stored(t, level))
    {
      ghost var s := Snapshot();
      var w := wheels[level];
      // bucket.Add and SetExpiration
      var virtualID := t.expiration / w.tick;
      var i := virtualID % size;
      var b := w.buckets[i];
      var b' := Bucket(virtualID * w.tick, b.timers + [Stored(t, level)]);
      wheels := wheels[level := w.(buckets := w.buckets[i := b'])];
      // queue.Offer, unless the bucket already had this time
      if b.expiration != b'.expiration {
        queue := queue + multiset{Entry(Slot(level, i), b'.expiration)};
      }
      places := places[t.id := Waiting(Slot(level, i))];
      due := due[t.id := t.expiration];
      assert Snapshot() == Put(s, level, Stored(t, level));
    }

    /** addOrRun */
    method AddOrRun(t: Timer, ghost busy: Option<Slot>)
      requires Inv(Snapshot(), busy) && Addable(Snapshot(), t, 0, busy)
      modifies this
      ensures Snapshot() == Settle(old(Snapshot()), t)
      ensures SettledWell(old(Snapshot()), t, busy, Snapshot())
    {
      SettleKeeps(Snapshot(), t, busy);
      var added := Add(t, 0, busy);
      if !added {
        started := started + [Start(t, wheels[0].currentTime)];
        places := places[t.id := Started];
        due := due[t.id := t.expiration];
      }
    }

    /** AfterFunc, for a timer not added before. With fewer than two buckets to a wheel it returns only if the timer is due. */
    method AfterFunc(id: nat, expiration: int)
      requires Valid() && id !in places
      requires size >= 2 || expiration < wheels[0].currentTime + wheels[0].tick
      modifies this
      ensures Snapshot() == Settle(old(Snapshot()), Timer(id, expiration, 0, 0))
      ensures Valid() && due == old(due)[id := expiration] && id in places && places == old(places)[id := places[id]]
      ensures places[id].Started? <==> expiration < wheels[0].currentTime + wheels[0].tick
    {
      AddOrRun(Timer(id, expiration, 0, 0), None);
    }

    /**
     * advanceClock, called on level `level` for a time the clock of store `s` is to be set
     * to; it stops at the first level that is not a tick behind.
     */
    method AdvanceClock(expiration: int, level: nat, ghost s: Store, ghost time: int)
      requires Geometry(s) && level < |wheels| == |s.wheels| && time >= s.wheels[0].currentTime
      requires wheels[level..] == s.wheels[level..]
      requires SameFrom(s, level, expiration, time)
      modifies this`wheels
      ensures wheels == old(wheels)[..level] + Advanced(s.wheels, level, time)[level..]
      decreases |wheels| - level
    {
      var w := wheels[level];
      assert w == s.wheels[level] by { assert wheels[level..][0] == s.wheels[level..][0]; }
      assert WheelOk(s, level);
      if expiration >= w.currentTime + w.tick {
        var now := Truncate(expiration, w.tick);
        wheels := wheels[level := w.(currentTime := now)];
        if level + 1 < |wheels| {
          SameFromNext(s, level, expiration, time);
          AdvanceClock(now, level + 1, s, time);
        }
      } else {
        ClockStandsAt(s, level, expiration, time);
      }
    }

    /** One round of Flush's loop: take the first timer out and re-insert it. */
    method FlushFirst(x: Slot)
      requires Inv(Snapshot(), Some(x)) && Snapshot().At(x).timers != []
      modifies this
      ensures Snapshot() == FlushedFirst(old(Snapshot()), x)
      ensures Inv(Snapshot(), Some(x)) && Snapshot().At(x).timers == old(Snapshot()).At(x).timers[1..]
      ensures OnlyFrom(old(Snapshot()), Snapshot(), x) && Settled(places[old(Snapshot()).At(x).timers[0].id], x.level)
    {
      ghost var s := Snapshot();
      FlushedFirstKeeps(s, x);
      var b := wheels[x.level].buckets[x.index];
      var t := b.timers[0];
      FirstIsAddable(s, x);
      wheels := wheels[x.level := wheels[x.level].(buckets := wheels[x.level].buckets[x.index := b.(timers := b.timers[1..])])];
      places := places - {t.id};
      assert Snapshot() == WithoutFirst(s, x);
      AddOrRun(t.(flushes := t.flushes + 1), Some(x));
    }

    /** Flush of the bucket taken off the queue. */
    method Flush(x: Slot)
      requires Inv(Snapshot(), Some(x))
      modifies this
      ensures Snapshot() == Flushed(old(Snapshot()), x)
      ensures Valid() && OnlyFrom(old(Snapshot()), Snapshot(), x) && Resettled(old(places), places, x)
    {
      FlushKeeps(Snapshot(), x);
      while wheels[x.level].buckets[x.index].timers != []
        invariant Inv(Snapshot(), Some(x)) && Flushed(Snapshot(), x) == Flushed(old(Snapshot()), x)
        decreases |Snapshot().At(x).timers|
      {
        FlushFirst(x);
      }
      ghost var s := Snapshot();
      wheels := wheels[x.level := wheels[x.level].(buckets := wheels[x.level].buckets[x.index := Bucket(-1, [])])];
      assert Snapshot() == WithBucket(s, x, Bucket(-1, []));
    }

    /** The queue gives up the bucket and the clocks move to its time. */
    method Take(e: Entry)
      requires Valid() && Earliest(Snapshot(), e)
      modifies this`queue, this`wheels
      ensures Snapshot() == Taken(old(Snapshot()), e)
      ensures Inv(Snapshot(), Some(e.slot)) && wheels[0].currentTime == e.priority
    {
      TakenKeeps(Snapshot(), e);
      TakenGeometry(Snapshot(), e);
      AdvanceTo(e);
      queue := queue - multiset{e};
    }

    /** tw.advanceClock(b.expiration) */
    method AdvanceTo(e: Entry)
      requires Valid() && e in queue
      modifies this`wheels
      ensures wheels == Advanced(old(wheels), 0, e.priority)
    {
      ghost var s := Snapshot();
      EntryTime(s, e);
      AdvanceClock(e.priority, 0, s, e.priority);
    }

    /**
     * What the goroutine of Start does with a bucket the queue delivers: advance the clocks
     * to its time and flush it.
     */
    method Expire(e: Entry)
      requires Valid() && Earliest(Snapshot(), e)
      modifies this
      ensures Snapshot() == Expired(old(Snapshot()), e)
      ensures Valid() && wheels[0].currentTime == e.priority >= old(wheels[0].currentTime)
      ensures Resettled(old(places), places, e.slot) && due == old(due)
    {
      ExpireKeeps(Snapshot(), e);
      Take(e);
      Flush(e.slot);
    }

    /** One call of a run. */
    method Do(c: Call)
      requires Valid()
      requires c.After? ==> c.id !in places && Comes(Snapshot(), 0, c.expiration)
      requires c.Expire? ==> Earliest(Snapshot(), c.e)
      modifies this
      ensures Valid() && Calls(old(Snapshot()), c, Snapshot())
    {
      match c {
        case After(id, expiration) => AfterFunc(id, expiration);
        case Expire(e) => Expire(e);
      }
    }

    /** The queue's least entry. */
    method PickEarliest() returns (e: Entry)
      requires queue != multiset{}
      ensures Earliest(Snapshot(), e)
    {
      e :| e in queue;
      var rest := queue;
      while rest != multiset{}
        invariant e in queue && forall x :: x in queue ==> e.priority <= x.priority || x in rest
        decreases |rest|
      {
        var x :| x in rest;
        if x.priority < e.priority && x in queue {
          e := x;
        }
        rest := rest[x := 0];
      }
    }

    /** Delivering buckets for as long as there are any ends, and then every timer has started. */
    method Drain() returns (deliveries: nat)
      requires Valid()
      modifies this
      ensures Valid() && queue == multiset{} && due == old(due) && places.Keys == old(places).Keys
      ensures forall id :: id in places ==> places[id].Started?
      ensures deliveries <= WorkLeft(old(Snapshot()))
    {
      deliveries := 0;
      while queue != multiset{}
        invariant Valid() && due == old(due) && places.Keys == old(places).Keys
        invariant deliveries + WorkLeft(Snapshot()) <= WorkLeft(old(Snapshot()))
        decreases WorkLeft(Snapshot())
      {
        var e := PickEarliest();
        ExpireWorks(Snapshot(), e);
        Expire(e);
        deliveries := deliveries + 1;
      }
      forall id | id in places ensures places[id].Started? {
        if places[id].Waiting? { WaitingIsQueued(Snapshot(), id); }
      }
    }
  }

  // --------------------------------------------------------------------- runs

  /** The wheel New makes. */
  function Initial(tick: int, size: nat, start: int): (s: Store) {
    Store(size, [NewWheel(tick, size, start)], multiset{}, [], map[], map[])
  }

  lemma {:induction false} InitialInv(tick: int, size: nat, start: int)
    requires tick >= 1 && start >= 0
    ensures Inv(Initial(tick, size, start), None)
  {
    var s := Initial(tick, size, start);
    TruncateBounds(start, tick);
    AlignedBelow(0, Truncate(start, tick), start, tick);
    Unique(Truncate(start, tick), tick, Truncate(start, tick) / tick, 0);
    forall l | 0 <= l < |s.wheels| ensures WheelOk(s, l) {}
  }

  /** The clock of a new wheel stands at the beginning of the tick of `start`. */
  lemma {:induction false} InitialClock(tick: int, size: nat, start: int)
    requires tick >= 1
    ensures var s := Initial(tick, size, start);
      && |s.wheels| == 1 && s.wheels[0].tick == tick && s.wheels[0].currentTime % tick == 0
      && s.wheels[0].currentTime <= start < s.wheels[0].currentTime + tick
  {
    TruncateBounds(start, tick);
  }

  /** AfterFunc of a new timer, or the delivery of a bucket. */
  datatype Call = After(id: nat, expiration: int) | Expire(e: Entry)

  /** A call that returns, and the wheel it leaves. */
  ghost predicate Calls(s: Store, c: Call, s': Store) {
    match c
    case After(id, expiration) =>
      && id !in s.places && Comes(s, 0, expiration) && s' == Settle(s, Timer(id, expiration, 0, 0))
    case Expire(e) => Earliest(s, e) && s' == Expired(s, e)
  }

  /** The states a wheel goes through from New on. */
  ghost predicate IsRun(run: seq<Store>, calls: seq<Call>, tick: int, size: nat, start: int) {
    && |run| == |calls| + 1 && tick >= 1 && start >= 0 && run[0] == Initial(tick, size, start)
    && forall k: nat :: k < |calls| ==> CallAt(run, calls, k)
  }

  ghost predicate CallAt(run: seq<Store>, calls: seq<Call>, k: nat)
    requires |run| == |calls| + 1 && k < |calls|
  {
    Calls(run[k], calls[k], run[k + 1])
  }

  /** The times the timers of these calls were to expire at. */
  ghost function DueOf(calls: seq<Call>): (m: map<nat, int>) {
    if calls == [] then map[]
    else
      var c, m := calls[|calls| - 1], DueOf(calls[..|calls| - 1]);
      if c.After? then m[c.id := c.expiration] else m
  }

  /** What every call keeps. */
  ghost predicate Kept(s: Store, c: Call, s': Store) {
    && Inv(s', None) && s'.size == s.size && |s.wheels| > 0 && s'.wheels[0].tick == s.wheels[0].tick
    && s.started <= s'.started
    && match c
       case After(id, expiration) =>
         && s'.due == s.due[id := expiration] && s'.wheels[0].currentTime == s.wheels[0].currentTime
         && id in s'.places && s'.places == s.places[id := s'.places[id]]
         && (s'.places[id].Started? <==> expiration < s.wheels[0].currentTime + s.wheels[0].tick)
       case Expire(e) =>
         && s'.due == s.due && s'.wheels[0].currentTime == e.priority >= s.wheels[0].currentTime
         && Resettled(s.places, s'.places, e.slot)
  }

  lemma {:induction false} CallKeeps(s: Store, c: Call, s': Store)
    requires Inv(s, None) && Calls(s, c, s')
    ensures Kept(s, c, s')
  {
    match c {
      case After(id, expiration) => SettleKeeps(s, Timer(id, expiration, 0, 0), None);
      case Expire(e) => ExpireKeeps(s, e);
    }
  }

  /** In every state of every run the invariant holds, and exactly the timers added are known. */
  lemma {:induction false} RunInv(run: seq<Store>, calls: seq<Call>, tick: int, size: nat, start: int, k: nat)
    requires IsRun(run, calls, tick, size, start) && k < |run|
    ensures Inv(run[k], None) && run[k].size == size && run[k].wheels[0].tick == tick
    ensures run[k].due == DueOf(calls[..k]) && run[k].places.Keys == run[k].due.Keys
  {
    if k == 0 {
      InitialInv(tick, size, start);
      assert calls[..0] == [];
    } else {
      RunInv(run, calls, tick, size, start, k - 1);
      assert CallAt(run, calls, k - 1);
      OneCallMore(calls, k);
      KnownGrows(run[k - 1], calls[k - 1], run[k], calls[..k]);
    }
  }

  lemma {:induction false} OneCallMore(calls: seq<Call>, k: nat)
    requires 0 < k <= |calls|
    ensures |calls[..k]| == k && calls[..k][k - 1] == calls[k - 1] && calls[..k][..k - 1] == calls[..k - 1]
  {
  }

  lemma {:induction false} KnownGrows(s: Store, c: Call, s': Store, calls: seq<Call>)
    requires Inv(s, None) && Calls(s, c, s') && s.places.Keys == s.due.Keys
    requires |calls| > 0 && c == calls[|calls| - 1] && s.due == DueOf(calls[..|calls| - 1])
    ensures Inv(s', None) && s'.size == s.size && s'.wheels[0].tick == s.wheels[0].tick
    ensures s'.due == DueOf(calls) && s'.places.Keys == s'.due.Keys
  {
    CallKeeps(s, c, s');
  }

  lemma {:induction false} RunStep(run: seq<Store>, calls: seq<Call>, tick: int, size: nat, start: int, k: nat)
    requires IsRun(run, calls, tick, size, start) && k < |calls|
    ensures Kept(run[k], calls[k], run[k + 1])
  {
    RunInv(run, calls, tick, size, start, k);
    assert CallAt(run, calls, k);
    CallKeeps(run[k], calls[k], run[k + 1]);
  }

  /** What was started stays started, and the clock does not go back. */
  lemma {:induction false} RunGrows(run: seq<Store>, calls: seq<Call>, tick: int, size: nat, start: int, a: nat, b: nat)
    requires IsRun(run, calls, tick, size, start) && a <= b < |run|
    ensures run[a].started <= run[b].started
    ensures |run[a].wheels| > 0 && |run[b].wheels| > 0 && run[a].wheels[0].currentTime <= run[b].wheels[0].currentTime
    decreases b - a
  {
    if a < b {
      RunGrows(run, calls, tick, size, start, a, b - 1);
      StepGrows(run, calls, tick, size, start, b - 1);
      PrefixTrans(run[a].started, run[b - 1].started, run[b].started);
    } else {
      HasWheels(run, calls, tick, size, start, a);
    }
  }

  lemma {:induction false} HasWheels(run: seq<Store>, calls: seq<Call>, tick: int, size: nat, start: int, k: nat)
    requires IsRun(run, calls, tick, size, start) && k < |run|
    ensures |run[k].wheels| > 0
  {
    RunInv(run, calls, tick, size, start, k);
  }

  lemma {:induction false} PrefixTrans(a: seq<Start>, b: seq<Start>, c: seq<Start>)
    requires a <= b <= c
    ensures a <= c
  {
  }

  lemma {:induction false} StepGrows(run: seq<Store>, calls: seq<Call>, tick: int, size: nat, start: int, k: nat)
    requires IsRun(run, calls, tick, size, start) && k < |calls|
    ensures run[k].started <= run[k + 1].started && |run[k].wheels| > 0 && |run[k + 1].wheels| > 0
    ensures run[k].wheels[0].currentTime <= run[k + 1].wheels[0].currentTime
  {
    RunStep(run, calls, tick, size, start, k);
    KeptGrows(run[k], calls[k], run[k + 1]);
  }

  lemma {:induction false} KeptGrows(s: Store, c: Call, s': Store)
    requires Kept(s, c, s')
    ensures s.started <= s'.started && |s.wheels| > 0 && |s'.wheels| > 0
    ensures s.wheels[0].currentTime <= s'.wheels[0].currentTime
  {
  }

  /** In every state of every run, each level's clock is the level-0 clock truncated to its tick. */
  lemma {:induction false} ClocksInStep(run: seq<Store>, calls: seq<Call>, tick: int, size: nat, start: int, k: nat, l: nat)
    requires IsRun(run, calls, tick, size, start) && k < |run| && l < |run[k].wheels|
    ensures run[k].wheels[l].currentTime == Truncate(run[k].wheels[0].currentTime, run[k].wheels[l].tick)
  {
    RunInv(run, calls, tick, size, start, k);
    assert WheelOk(run[k], l);
  }

  /** In every state of every run, a bucket is queued exactly once, under its own time, exactly when it holds timers. */
  lemma {:induction false} QueuedIffFilled(run: seq<Store>, calls: seq<Call>, tick: int, size: nat, start: int, k: nat, x: Slot)
    requires IsRun(run, calls, tick, size, start) && k < |run| && run[k].Has(x)
    ensures var s := run[k];
      && (s.At(x).timers != [] <==> Entry(x, s.At(x).expiration) in s.queue)
      && (s.At(x).timers != [] ==> s.queue[Entry(x, s.At(x).expiration)] == 1)
      && (forall p :: Entry(x, p) in s.queue ==> p == s.At(x).expiration)
  {
    var s := run[k];
    RunInv(run, calls, tick, size, start, k);
    assert BucketOk(s, x, None);
    if Entry(x, s.At(x).expiration) in s.queue { assert EntryOk(s, Entry(x, s.At(x).expiration), None); }
    forall p | Entry(x, p) in s.queue ensures p == s.At(x).expiration {
      assert EntryOk(s, Entry(x, p), None);
    }
  }

  /** In every state of every run, the timers of a bucket are all due in the tick the bucket stands for: no lap collision. */
  lemma {:induction false} BucketIsOneTick(run: seq<Store>, calls: seq<Call>, tick: int, size: nat, start: int, k: nat, x: Slot, j: nat)
    requires IsRun(run, calls, tick, size, start) && k < |run| && run[k].Has(x) && j < |run[k].At(x).timers|
    ensures Truncate(run[k].At(x).timers[j].expiration, run[k].wheels[x.level].tick) == run[k].At(x).expiration
    ensures run[k].wheels[0].currentTime <= run[k].At(x).expiration
  {
    RunInv(run, calls, tick, size, start, k);
    var s := run[k];
    assert BucketOk(s, x, None) && WheelOk(s, x.level);
    assert TimerOk(s.At(x).timers[j], s.At(x).expiration, s.wheels[x.level].tick, x.level);
    TruncateUnique(s.At(x).timers[j].expiration, s.wheels[x.level].tick, s.At(x).expiration);
  }

  /** In every run a timer is started at most once, and once started it waits nowhere. */
  lemma {:induction false} StartsAtMostOnce(run: seq<Store>, calls: seq<Call>, tick: int, size: nat, start: int, k: nat, i: nat, j: nat)
    requires IsRun(run, calls, tick, size, start) && k < |run|
    requires i < |run[k].started| && j < |run[k].started| && run[k].started[i].timer.id == run[k].started[j].timer.id
    ensures i == j
    ensures forall x, n :: run[k].Has(x) && 0 <= n < |run[k].At(x).timers| ==>
      run[k].At(x).timers[n].id != run[k].started[i].timer.id
  {
    RunInv(run, calls, tick, size, start, k);
    assert i < j || i == j || j < i;
  }

  /**
   * In every run a started task was added to expire when its timer says, starts when that is
   * less than a tick of the level-0 clock away, never later than then if it has waited, and
   * was flushed at most once per level.
   */
  lemma {:induction false} StartedInTime(run: seq<Store>, calls: seq<Call>, tick: int, size: nat, start: int, k: nat, i: nat)
    requires IsRun(run, calls, tick, size, start) && k < |run| && i < |run[k].started|
    ensures var t, clock := run[k].started[i].timer, run[k].started[i].clock;
      && t.id in DueOf(calls[..k]) && DueOf(calls[..k])[t.id] == t.expiration
      && t.expiration < clock + tick && (t.flushes > 0 ==> clock <= t.expiration)
      && t.flushes <= t.limit + 1 <= |run[k].wheels|
  {
    RunInv(run, calls, tick, size, start, k);
    assert IsDue(run[k], run[k].started[i].timer);
  }

  // -------------------------------------------------------------- every timer runs

  /** How many flushes a timer may still need. */
  ghost function Weight(p: Place): (n: nat) {
    match p case Waiting(x) => x.level + 1 case Started => 0
  }

  ghost function Work(p: map<nat, Place>, ids: set<nat>): (n: nat)
    requires ids <= p.Keys
  {
    if ids == {} then 0
    else
      var id :| id in ids;
      Weight(p[id]) + Work(p, ids - {id})
  }

  lemma {:induction false} WorkSplit(p: map<nat, Place>, ids: set<nat>, id: nat)
    requires ids <= p.Keys && id in ids
    ensures Work(p, ids) == Weight(p[id]) + Work(p, ids - {id})
    decreases |ids|
  {
    var x :| x in ids && Work(p, ids) == Weight(p[x]) + Work(p, ids - {x});
    if x != id {
      WorkSplit(p, ids - {x}, id);
      WorkSplit(p, ids - {id}, x);
      assert ids - {x} - {id} == ids - {id} - {x};
    }
  }

  lemma {:induction false} WorkNotMore(p: map<nat, Place>, p': map<nat, Place>, ids: set<nat>)
    requires ids <= p.Keys && ids <= p'.Keys && (forall id :: id in ids ==> Weight(p'[id]) <= Weight(p[id]))
    ensures Work(p', ids) <= Work(p, ids)
    decreases |ids|
  {
    if ids != {} {
      var x :| x in ids;
      WorkSplit(p, ids, x);
      WorkSplit(p', ids, x);
      WorkNotMore(p, p', ids - {x});
    }
  }

  lemma {:induction false} WorkLess(p: map<nat, Place>, p': map<nat, Place>, ids: set<nat>, id: nat)
    requires ids <= p.Keys && ids <= p'.Keys && id in ids && Weight(p'[id]) < Weight(p[id])
    requires forall id :: id in ids ==> Weight(p'[id]) <= Weight(p[id])
    ensures Work(p', ids) < Work(p, ids)
  {
    WorkSplit(p, ids, id);
    WorkSplit(p', ids, id);
    WorkNotMore(p, p', ids - {id});
  }

  ghost function WorkLeft(s: Store): (n: nat) { Work(s.places, s.places.Keys) }

  /** Each delivered bucket brings all timers nearer to their start. */
  lemma {:induction false} ExpireWorks(s: Store, e: Entry)
    requires Inv(s, None) && Earliest(s, e)
    ensures WorkLeft(Expired(s, e)) < WorkLeft(s)
  {
    ExpireKeeps(s, e);
    assert EntryOk(s, e, None) && BucketOk(s, e.slot, None);
    var id := s.At(e.slot).timers[0].id;
    var p, p' := s.places, Expired(s, e).places;
    assert id in p && p[id] == Waiting(e.slot);
    WorkLess(p, p', p.Keys, id);
  }

  /** A waiting timer's bucket is queued, so a bucket will be delivered. */
  lemma {:induction false} WaitingIsQueued(s: Store, id: nat)
    requires Inv(s, None) && id in s.places && s.places[id].Waiting?
    ensures s.Has(s.places[id].slot) && Entry(s.places[id].slot, s.At(s.places[id].slot).expiration) in s.queue
  {
    var x := s.places[id].slot;
    assert IsIn(s, x, id);
    assert BucketOk(s, x, None);
  }

  /** A run of deliveries is no longer than the work there is. */
  lemma {:induction false} DeliveriesEnd(run: seq<Store>, calls: seq<Call>, tick: int, size: nat, start: int, a: nat, b: nat)
    requires IsRun(run, calls, tick, size, start) && a <= b < |run|
    requires forall k :: a <= k < b ==> calls[k].Expire?
    ensures WorkLeft(run[b]) + (b - a) <= WorkLeft(run[a])
    decreases b - a
  {
    if a < b {
      DeliveriesEnd(run, calls, tick, size, start, a, b - 1);
      RunInv(run, calls, tick, size, start, b - 1);
      assert CallAt(run, calls, b - 1);
      ExpireWorks(run[b - 1], calls[b - 1].e);
    }
  }

  /**
   * Every timer added in a run runs exactly once: when no bucket is left to deliver, each
   * was started, once, for the time it was added for, after at most one flush per level.
   */
  lemma {:induction false} RunsExactlyOnce(run: seq<Store>, calls: seq<Call>, tick: int, size: nat, start: int, k: nat, id: nat)
    returns (i: nat)
    requires IsRun(run, calls, tick, size, start) && k < |run| && run[k].queue == multiset{} && id in DueOf(calls[..k])
    ensures i < |run[k].started| && run[k].started[i].timer.id == id
    ensures run[k].started[i].timer.expiration == DueOf(calls[..k])[id]
    ensures run[k].started[i].timer.flushes <= |run[k].wheels|
    ensures forall j :: 0 <= j < |run[k].started| && run[k].started[j].timer.id == id ==> j == i
  {
    RunInv(run, calls, tick, size, start, k);
    var s := run[k];
    if s.places[id].Waiting? {
      WaitingIsQueued(s, id);
    }
    assert HasStarted(s, id);
    i :| 0 <= i < |s.started| && s.started[i].timer.id == id;
    StartedInTime(run, calls, tick, size, start, k, i);
    forall j: nat | j < |s.started| && s.started[j].timer.id == id ensures j == i {
      StartsAtMostOnce(run, calls, tick, size, start, k, i, j);
    }
  }

  // ---------------------------------------------------------- when add ends

  /** The tick of level `l` in a chain of wheels of `size` buckets. */
  function TickAt(tick: int, size: nat, l: nat): (t: int) {
    if l == 0 then tick else TickAt(tick, size, l - 1) * size
  }

  /** The clock of level `l` when the chain is built at clock `cur`. */
  function ClockAt(tick: int, size: nat, cur: int, l: nat): (c: int) {
    if l == 0 then cur else Truncate(ClockAt(tick, size, cur, l - 1), TickAt(tick, size, l))
  }

  /** Level `l` neither declines the timer nor stores it. */
  ghost predicate GoesUp(tick: int, size: nat, cur: int, l: nat, expiration: int) {
    var t, c := TickAt(tick, size, l), ClockAt(tick, size, cur, l);
    expiration >= c + t && expiration >= c + t * size
  }

  /** add comes to a level at which it returns. */
  ghost predicate Ends(tick: int, size: nat, cur: int, expiration: int) {
    exists l: nat :: !GoesUp(tick, size, cur, l, expiration)
  }

  /** The wheels add meets and makes are those of the chain. */
  lemma {:induction false} ChainIs(s: Store, l: nat)
    requires Geometry(s) && l < |s.wheels|
    ensures var w := s.wheels[0];
      && s.wheels[l].tick == TickAt(w.tick, s.size, l) && s.wheels[l].currentTime == ClockAt(w.tick, s.size, w.currentTime, l)
      && s.wheels[l].interval == s.wheels[l].tick * s.size
  {
    assert WheelOk(s, l);
    if l > 0 {
      ChainIs(s, l - 1);
      assert WheelOk(s, l - 1);
      Products(s.size, 1, s.wheels[l - 1].tick);
      TruncateTwice(s.wheels[0].currentTime, s.wheels[l - 1].tick, s.size);
    }
  }

  /** add goes on above level `l` of a wheel exactly if the chain says so. */
  lemma {:induction false} AddClimbs(s: Store, l: nat, expiration: int)
    requires Geometry(s) && l < |s.wheels|
    ensures var w := s.wheels[l];
      (expiration >= w.currentTime + w.tick && expiration >= w.currentTime + w.interval) <==>
      GoesUp(s.wheels[0].tick, s.size, s.wheels[0].currentTime, l, expiration)
  {
    ChainIs(s, l);
  }

  lemma {:induction false} TicksGrow(tick: int, size: nat, l: nat)
    requires tick >= 1 && size >= 2
    ensures TickAt(tick, size, l) > l
  {
    if l > 0 {
      TicksGrow(tick, size, l - 1);
      Products(size, 2, TickAt(tick, size, l - 1));
    }
  }

  lemma {:induction false} ClocksNotNegative(tick: int, size: nat, cur: int, l: nat)
    requires tick >= 1 && cur >= 0 && size >= 1
    ensures ClockAt(tick, size, cur, l) >= 0 && TickAt(tick, size, l) >= 1
  {
    if l > 0 {
      ClocksNotNegative(tick, size, cur, l - 1);
      Products(size, 1, TickAt(tick, size, l - 1));
      var c, t := ClockAt(tick, size, cur, l - 1), TickAt(tick, size, l);
      TruncateBounds(c, t);
      AlignedBelow(0, Truncate(c, t), c, t);
    }
  }

  /** With one bucket to a wheel all levels are alike, and with none they have no span. */
  lemma {:induction false} SmallChain(tick: int, size: nat, cur: int, l: nat)
    requires tick >= 1 && size <= 1 && Truncate(cur, tick) == cur
    ensures ClockAt(tick, size, cur, l) == cur && 0 <= TickAt(tick, size, l) <= tick
    ensures size == 1 ==> TickAt(tick, size, l) == tick
  {
    if l > 0 { SmallChain(tick, size, cur, l - 1); }
  }

  /** add of a timer ends exactly if wheels have at least two buckets or the timer is due within the tick. */
  lemma {:induction false} EndsIff(tick: int, size: nat, cur: int, expiration: int)
    requires tick >= 1 && cur >= 0 && Truncate(cur, tick) == cur
    ensures Ends(tick, size, cur, expiration) <==> size >= 2 || expiration < cur + tick
  {
    if size >= 2 {
      var l: nat := if expiration > 0 then expiration else 0;
      TicksGrow(tick, size, l);
      ClocksNotNegative(tick, size, cur, l);
      assert !GoesUp(tick, size, cur, l, expiration);
    } else if expiration < cur + tick {
      assert !GoesUp(tick, size, cur, 0, expiration);
    } else {
      forall l: nat ensures GoesUp(tick, size, cur, l, expiration) {
        SmallChain(tick, size, cur, l);
        assert TickAt(tick, size, l) * size == if size == 1 then tick else 0;
      }
    }
  }

  /** With one bucket to a wheel, a timer due in the next tick climbs for ever. */
  lemma {:induction false} OneBucketClimbs(tick: int, cur: int, l: nat)
    requires tick >= 1 && cur >= 0 && Truncate(cur, tick) == cur
    ensures GoesUp(tick, 1, cur, l, cur + tick)
  {
    EndsIff(tick, 1, cur, cur + tick);
    assert !Ends(tick, 1, cur, cur + tick);
  }

  /** add ends for every timer exactly if wheels have at least two buckets. */
  lemma {:induction false} WheelsNeedTwoBuckets(tick: int, size: nat, cur: int)
    requires tick >= 1 && cur >= 0 && Truncate(cur, tick) == cur
    ensures (forall expiration :: Ends(tick, size, cur, expiration)) <==> size >= 2
  {
    if size >= 2 {
      forall expiration ensures Ends(tick, size, cur, expiration) { EndsIff(tick, size, cur, expiration); }
    } else {
      EndsIff(tick, size, cur, cur + tick);
    }
  }

  /** In every state of every run, a call of AfterFunc returns exactly if add ends. */
  lemma {:induction false} ReturnsIffEnds(run: seq<Store>, calls: seq<Call>, tick: int, size: nat, start: int, k: nat, expiration: int)
    requires IsRun(run, calls, tick, size, start) && k < |run|
    ensures |run[k].wheels| > 0
    ensures Comes(run[k], 0, expiration) <==> Ends(tick, size, run[k].wheels[0].currentTime, expiration)
  {
    RunInv(run, calls, tick, size, start, k);
    assert WheelOk(run[k], 0);
    EndsIff(tick, size, run[k].wheels[0].currentTime, expiration);
  }
}
