/**
 * The integer hash map of hashmap/fastinteger/hashmap.go: open addressing with linear
 * probing, deletion that re-inserts the rest of the cluster, and growth by rehashing.
 * The hash function is arbitrary.
 */
module HashMap {
  import opened Basics
  import opened Bits

  /** A slot of the bucket: nil or a packet. */
  datatype Packet = Empty | Full(key: nat, value: nat)

  type Hash = nat -> nat

  /** hash & (len - 1), where a search for `key` starts; len is a power of two. */
  function Home(hash: Hash, key: nat, n: nat): (i: nat)
    requires n > 0
    ensures i < n
  {
    hash(key) % n
  }

  /** In a bucket whose length is a power of two, Home and Next are what the masks of find compute. */
  lemma {:induction false} MasksFind(hash: Hash, key: nat, i: nat, n: nat)
    requires IsPowerOfTwo(n) && i < n
    ensures And(hash(key), n - 1) == Home(hash, key, n) && And(i + 1, n - 1) == Next(i, n)
  {
    MaskIsRemainder(hash(key), n);
    MaskIsRemainder(i + 1, n);
    if i + 1 < n { Unique(i + 1, n, 0, i + 1); } else { Unique(i + 1, n, 1, 0); }
  }

  /** (i + 1) & (len - 1) */
  function Next(i: nat, n: nat): (j: nat)
    requires i < n
    ensures j < n
  {
    if i + 1 < n then i + 1 else 0
  }

  /** Steps from slot `a` forward to slot `b`, around the end. */
  function Dist(a: int, b: int, n: int): (d: int) {
    if a <= b then b - a else b - a + n
  }

  // ------------------------------------------------------------- the table

  ghost predicate Distinct(t: seq<Packet>) {
    forall i, j :: 0 <= i < j < |t| && t[i].Full? && t[j].Full? ==> t[i].key != t[j].key
  }

  /** No slot between the home of the packet in slot `s` and `s` itself is empty. */
  ghost predicate Reachable(hash: Hash, t: seq<Packet>, s: nat)
    requires s < |t| && t[s].Full?
  {
    var home := Home(hash, t[s].key, |t|);
    forall x :: 0 <= x < |t| && Dist(home, x, |t|) < Dist(home, s, |t|) ==> t[x].Full?
  }

  ghost predicate Probing(hash: Hash, t: seq<Packet>) {
    forall s :: 0 <= s < |t| && t[s].Full? ==> Reachable(hash, t, s)
  }

  /** The packets are exactly the entries of `m`. */
  ghost predicate Represents(t: seq<Packet>, m: map<nat, nat>) {
    && (forall i :: 0 <= i < |t| && t[i].Full? ==> t[i].key in m && m[t[i].key] == t[i].value)
    && (forall k :: k in m ==> Stored(t, k))
  }

  ghost predicate Stored(t: seq<Packet>, k: nat) {
    exists i :: 0 <= i < |t| && t[i].Full? && t[i].key == k
  }

  ghost predicate HasRoom(t: seq<Packet>) {
    exists e :: 0 <= e < |t| && t[e].Empty?
  }

  ghost predicate Table(hash: Hash, t: seq<Packet>, m: map<nat, nat>) {
    |t| > 0 && Distinct(t) && Probing(hash, t) && Represents(t, m)
  }

  // ---------------------------------------------------------------- find

  /** What find returns: the first slot from the key's home that is empty or holds the key. */
  ghost predicate IsFound(hash: Hash, t: seq<Packet>, key: nat, i: nat) {
    && |t| > 0 && i < |t|
    && (t[i].Full? ==> t[i].key == key)
    && forall x :: 0 <= x < |t| && Dist(Home(hash, key, |t|), x, |t|) < Dist(Home(hash, key, |t|), i, |t|) ==>
         t[x].Full? && t[x].key != key
  }

  /** find: as long as some slot is empty, it ends. */
  method Find(packets: array<Packet>, hash: Hash, key: nat) returns (i: nat)
    requires packets.Length > 0 && HasRoom(packets[..])
    ensures IsFound(hash, packets[..], key, i)
  {
    var n := packets.Length;
    ghost var home := Home(hash, key, n);
    ghost var e :| 0 <= e < |packets[..]| && packets[..][e].Empty?;
    i := Home(hash, key, n);
    while packets[i].Full? && packets[i].key != key
      invariant i < n
      invariant Dist(home, i, n) <= Dist(home, e, n)
      invariant forall x :: 0 <= x < n && Dist(home, x, n) < Dist(home, i, n) ==>
                  packets[x].Full? && packets[x].key != key
      decreases Dist(home, e, n) - Dist(home, i, n)
    {
      i := Next(i, n);
    }
  }

  /** An empty slot at the end of the search means the key is not stored. */
  lemma {:induction false} FoundMeans(hash: Hash, t: seq<Packet>, key: nat, i: nat)
    requires Probing(hash, t) && IsFound(hash, t, key, i)
    ensures t[i].Full? <==> Stored(t, key)
  {
    if Stored(t, key) {
      var s :| 0 <= s < |t| && t[s].Full? && t[s].key == key;
      assert Reachable(hash, t, s);
      var home := Home(hash, key, |t|);
      assert Dist(home, i, |t|) < Dist(home, s, |t|) || Dist(home, s, |t|) < Dist(home, i, |t|) || i == s;
    }
  }

  // ----------------------------------------------------------------- set

  /** Putting a packet into the empty slot its search ended in. */
  lemma {:induction false} StoreKeeps(hash: Hash, t: seq<Packet>, key: nat, value: nat, i: nat, m: map<nat, nat>)
    requires Table(hash, t, m) && IsFound(hash, t, key, i)
    ensures Table(hash, t[i := Full(key, value)], m[key := value])
  {
    var t' := t[i := Full(key, value)];
    FoundMeans(hash, t, key, i);
    forall s | 0 <= s < |t'| && t'[s].Full? ensures Reachable(hash, t', s) {
      if s != i { assert Reachable(hash, t, s); }
    }
    forall k | k in m[key := value] ensures Stored(t', k) {
      if k == key { assert t'[i].key == key; }
      else {
        assert Stored(t, k);
        var j :| 0 <= j < |t| && t[j].Full? && t[j].key == k;
        assert t'[j] == t[j];
      }
    }
  }

  /** packets.set */
  method Set(packets: array<Packet>, hash: Hash, key: nat, value: nat, ghost m: map<nat, nat>)
    requires packets.Length > 0 && HasRoom(packets[..]) && Table(hash, packets[..], m)
    modifies packets
    ensures Table(hash, packets[..], m[key := value])
    ensures exists i: nat :: IsFound(hash, old(packets[..]), key, i) && packets[..] == old(packets[..])[i := Full(key, value)]
  {
    var i := Find(packets, hash, key);
    StoreKeeps(hash, packets[..], key, value, i, m);
    if packets[i].Empty? {
      packets[i] := Full(key, value);
    } else {
      packets[i] := packets[i].(value := value);
    }
    assert packets[..] == old(packets[..])[i := Full(key, value)];
  }

  /** packets.get */
  method Get(packets: array<Packet>, hash: Hash, key: nat, ghost m: map<nat, nat>) returns (out: Option<nat>)
    requires packets.Length > 0 && HasRoom(packets[..]) && Table(hash, packets[..], m)
    ensures out == if key in m then Some(m[key]) else None
  {
    var i := Find(packets, hash, key);
    FoundMeans(hash, packets[..], key, i);
    if packets[i].Empty? {
      out := None;
    } else {
      out := Some(packets[i].value);
    }
  }

  // -------------------------------------------------------------- delete

  /** Slot `x` lies in the stretch from `a` up to but not including `b`. */
  ghost predicate Between(a: int, x: int, b: int, n: int) {
    Dist(a, x, n) < Dist(a, b, n)
  }

  /**
   * The sweep of delete at slot `i`: slot `d` was emptied, `e` is the end of the cluster,
   * packets from `i` to `e` wait to be re-inserted and may have gaps before them, but only
   * between `d` and `i`; all other packets are reachable.
   */
  ghost predicate Sweeping(hash: Hash, t: seq<Packet>, d: nat, i: nat, e: nat) {
    && d < |t| && i < |t| && e < |t| && t[e].Empty? && 0 < Dist(d, i, |t|) <= Dist(d, e, |t|)
    && (forall s :: 0 <= s < |t| && Dist(d, i, |t|) <= Dist(d, s, |t|) < Dist(d, e, |t|) ==> t[s].Full?)
    && (forall s :: 0 <= s < |t| && t[s].Full? ==> Swept(hash, t, d, i, e, s))
  }

  ghost predicate Waiting(n: int, d: int, i: int, e: int, s: int) {
    Dist(d, i, n) <= Dist(d, s, n) < Dist(d, e, n)
  }

  ghost predicate Swept(hash: Hash, t: seq<Packet>, d: nat, i: nat, e: nat, s: nat)
    requires s < |t| && t[s].Full?
  {
    var home := Home(hash, t[s].key, |t|);
    forall x :: 0 <= x < |t| && Between(home, x, s, |t|) && t[x].Empty? ==>
      Waiting(|t|, d, i, e, s) && Between(d, x, i, |t|)
  }

  /** A path that meets no empty slot and passes `a` ends before the next empty slot after `a`. */
  lemma {:induction false} PathStaysInCluster(n: int, home: int, s: int, a: int, e: int)
    requires 0 <= home < n && 0 <= s < n && 0 <= a < n && 0 <= e < n
    ensures Dist(home, a, n) < Dist(home, s, n) < Dist(home, e, n) ==> 0 < Dist(a, s, n) < Dist(a, e, n)
    ensures e != s ==> Dist(home, e, n) != Dist(home, s, n)
  {
  }

  /** The sweep begins. */
  lemma {:induction false} SweepBegins(hash: Hash, t: seq<Packet>, d: nat, e: nat)
    requires |t| > 1 && Probing(hash, t) && d < |t| && t[d].Full? && e < |t| && t[e].Empty?
    requires forall s :: 0 <= s < |t| && 0 < Dist(d, s, |t|) < Dist(d, e, |t|) ==> t[s].Full?
    ensures Sweeping(hash, t[d := Empty], d, Next(d, |t|), e)
  {
    var n, t', i := |t|, t[d := Empty], Next(d, |t|);
    forall s | 0 <= s < n && t'[s].Full? ensures Swept(hash, t', d, i, e, s) {
      assert Reachable(hash, t, s);
      var home := Home(hash, t[s].key, n);
      forall x | 0 <= x < n && Between(home, x, s, n) && t'[x].Empty?
        ensures Waiting(n, d, i, e, s) && Between(d, x, i, n)
      {
        assert x == d;
        assert Dist(home, e, n) > Dist(home, s, n);
        PathStaysInCluster(n, home, s, d, e);
      }
    }
  }

  /** When the sweep reaches the empty slot, every packet is reachable. */
  lemma {:induction false} SweepEnds(hash: Hash, t: seq<Packet>, d: nat, e: nat)
    requires Sweeping(hash, t, d, e, e)
    ensures Probing(hash, t)
  {
    forall s | 0 <= s < |t| && t[s].Full? ensures Reachable(hash, t, s) {
      assert Swept(hash, t, d, e, e, s);
    }
  }

  /** The packet at `i`, taken out, is put back in one of the gaps or in its own slot. */
  lemma {:induction false} PutBackInGap(hash: Hash, t: seq<Packet>, d: nat, i: nat, e: nat, f: nat)
    requires Sweeping(hash, t, d, i, e) && t[i].Full? && Distinct(t)
    requires IsFound(hash, t[i := Empty], t[i].key, f)
    ensures t[i := Empty][f].Empty? && (f == i || (Between(d, f, i, |t|) && t[f].Empty?))
  {
    var n, t1 := |t|, t[i := Empty];
    var home := Home(hash, t[i].key, n);
    assert f < i || f == i || i < f;
    assert Swept(hash, t, d, i, e, i);
    if f != i {
      assert Dist(home, f, n) < Dist(home, i, n);
      assert Between(home, f, i, n);
    }
  }

  ghost function PutBack(t: seq<Packet>, i: nat, f: nat): (r: seq<Packet>)
    requires i < |t| && f < |t|
  {
    t[i := Empty][f := t[i]]
  }

  lemma {:induction false} SweepStep(hash: Hash, t: seq<Packet>, d: nat, i: nat, e: nat, f: nat)
    requires Sweeping(hash, t, d, i, e) && t[i].Full? && Distinct(t)
    requires IsFound(hash, t[i := Empty], t[i].key, f)
    ensures Sweeping(hash, PutBack(t, i, f), d, Next(i, |t|), e)
    ensures Dist(d, Next(i, |t|), |t|) == Dist(d, i, |t|) + 1
  {
    var n, t2, i' := |t|, PutBack(t, i, f), Next(i, |t|);
    PutBackInGap(hash, t, d, i, e, f);
    assert Dist(d, i', n) == Dist(d, i, n) + 1;
    forall s | 0 <= s < n && t2[s].Full? ensures Swept(hash, t2, d, i', e, s) {
      if s == f { SweptBack(hash, t, d, i, e, f); }
      else { SweptOther(hash, t, d, i, e, f, s); }
    }
  }

  lemma {:induction false} SweptBack(hash: Hash, t: seq<Packet>, d: nat, i: nat, e: nat, f: nat)
    requires i < |t| && t[i].Full? && IsFound(hash, t[i := Empty], t[i].key, f)
    ensures Swept(hash, PutBack(t, i, f), d, Next(i, |t|), e, f)
  {
  }

  lemma {:induction false} SweptOther(hash: Hash, t: seq<Packet>, d: nat, i: nat, e: nat, f: nat, s: nat)
    requires Sweeping(hash, t, d, i, e) && t[i].Full? && f < |t| && s < |t| && s != f && s != i && t[s].Full?
    requires Dist(d, Next(i, |t|), |t|) == Dist(d, i, |t|) + 1
    ensures Swept(hash, PutBack(t, i, f), d, Next(i, |t|), e, s)
  {
    var n, t2, i' := |t|, PutBack(t, i, f), Next(i, |t|);
    var home := Home(hash, t[s].key, n);
    assert Swept(hash, t, d, i, e, s);
    forall x | 0 <= x < n && Between(home, x, s, n) && t2[x].Empty?
      ensures Waiting(n, d, i', e, s) && Between(d, x, i', n)
    {
      PathStaysInCluster(n, home, s, i, e);
      assert !Between(home, e, s, n) || Waiting(|t|, d, i, e, s);
      assert x != i ==> t[x].Empty?;
    }
  }

  /** Moving a packet to an empty slot changes no entry. */
  lemma {:induction false} MoveKeepsEntries(t: seq<Packet>, i: nat, f: nat, m: map<nat, nat>)
    requires i < |t| && f < |t| && t[i].Full? && t[i := Empty][f].Empty?
    requires Distinct(t) && Represents(t, m)
    ensures Distinct(PutBack(t, i, f)) && Represents(PutBack(t, i, f), m)
  {
    var t2 := PutBack(t, i, f);
    forall k | k in m ensures Stored(t2, k) {
      assert Stored(t, k);
      var j :| 0 <= j < |t| && t[j].Full? && t[j].key == k;
      if j == i { assert t2[f].key == k; } else { assert t2[j] == t[j]; }
    }
  }

  lemma {:induction false} EraseEntry(t: seq<Packet>, d: nat, m: map<nat, nat>)
    requires d < |t| && t[d].Full? && Distinct(t) && Represents(t, m)
    ensures Distinct(t[d := Empty]) && Represents(t[d := Empty], m - {t[d].key})
  {
    var t' := t[d := Empty];
    forall k | k in m - {t[d].key} ensures Stored(t', k) {
      assert Stored(t, k);
      var j :| 0 <= j < |t| && t[j].Full? && t[j].key == k;
      assert t'[j] == t[j];
    }
    forall j | 0 <= j < |t'| && t'[j].Full? ensures t'[j].key in m - {t[d].key} {
      assert j < d || d < j;
    }
  }

  /** The end of the cluster after `d`. */
  lemma {:induction false} NextEmpty(t: seq<Packet>, d: nat, e0: nat) returns (e: nat)
    requires d < |t| && e0 < |t| && t[e0].Empty?
    ensures e < |t| && t[e].Empty?
    ensures forall s :: 0 <= s < |t| && 0 < Dist(d, s, |t|) < Dist(d, e, |t|) ==> t[s].Full?
    decreases Dist(d, e0, |t|)
  {
    if s :| 0 <= s < |t| && 0 < Dist(d, s, |t|) < Dist(d, e0, |t|) && t[s].Empty? {
      e := NextEmpty(t, d, s);
    } else {
      e := e0;
    }
  }

  /** packets.delete */
  method Delete(packets: array<Packet>, hash: Hash, key: nat, ghost m: map<nat, nat>) returns (found: bool)
    requires packets.Length > 0 && HasRoom(packets[..]) && Table(hash, packets[..], m)
    modifies packets
    ensures found <==> key in m
    ensures Table(hash, packets[..], m - {key}) && HasRoom(packets[..])
  {
    var n := packets.Length;
    var i := Find(packets, hash, key);
    FoundMeans(hash, packets[..], key, i);
    if packets[i].Empty? {
      assert m - {key} == m;
      return false;
    }
    ghost var t, d := packets[..], i;
    ghost var e := EndOfCluster(t, d);
    SweepBegins(hash, t, d, e);
    EraseEntry(t, d, m);
    packets[i] := Empty;
    assert packets[..] == t[d := Empty];
    Sweep(packets, hash, Next(i, n), d, e, m - {key});
    return true;
  }

  lemma {:induction false} EndOfCluster(t: seq<Packet>, d: nat) returns (e: nat)
    requires d < |t| && HasRoom(t)
    ensures e < |t| && t[e].Empty?
    ensures forall s :: 0 <= s < |t| && 0 < Dist(d, s, |t|) < Dist(d, e, |t|) ==> t[s].Full?
  {
    var e0 :| 0 <= e0 < |t| && t[e0].Empty?;
    e := NextEmpty(t, d, e0);
  }

  /** The loop of delete: re-insert the packets up to the end of the cluster. */
  method Sweep(packets: array<Packet>, hash: Hash, start: nat, ghost d: nat, ghost e: nat, ghost m: map<nat, nat>)
    requires start < packets.Length && Sweeping(hash, packets[..], d, start, e)
    requires Distinct(packets[..]) && Represents(packets[..], m)
    modifies packets
    ensures Table(hash, packets[..], m) && HasRoom(packets[..])
  {
    var n, i := packets.Length, start;
    while packets[i].Full?
      invariant 0 <= i < n
      invariant Sweeping(hash, packets[..], d, i, e)
      invariant Distinct(packets[..]) && Represents(packets[..], m)
      decreases Dist(d, e, n) - Dist(d, i, n)
    {
      SweepOne(packets, hash, d, i, e, m);
      i := Next(i, n);
    }
    SweepStopsAtEnd(hash, packets[..], d, i, e);
    SweepEnds(hash, packets[..], d, e);
  }

  lemma {:induction false} SweepStopsAtEnd(hash: Hash, t: seq<Packet>, d: nat, i: nat, e: nat)
    requires Sweeping(hash, t, d, i, e) && t[i].Empty?
    ensures i == e && HasRoom(t)
  {
  }

  /** One round of delete's sweep: take the packet out and set it again. */
  method SweepOne(packets: array<Packet>, hash: Hash, ghost d: nat, i: nat, ghost e: nat, ghost m: map<nat, nat>)
    requires i < packets.Length && packets[i].Full?
    requires Sweeping(hash, packets[..], d, i, e) && Distinct(packets[..]) && Represents(packets[..], m)
    modifies packets
    ensures Sweeping(hash, packets[..], d, Next(i, packets.Length), e)
    ensures Dist(d, Next(i, packets.Length), packets.Length) == Dist(d, i, packets.Length) + 1
    ensures Distinct(packets[..]) && Represents(packets[..], m)
  {
    ghost var t := packets[..];
    var p := packets[i];
    packets[i] := Empty;
    assert packets[..] == t[i := Empty];
    assert packets[..][i].Empty?;
    var f := Find(packets, hash, p.key);
    PutBackInGap(hash, t, d, i, e, f);
    SweepStep(hash, t, d, i, e, f);
    MoveKeepsEntries(t, i, f, m);
    packets[f] := p;
    assert packets[..] == PutBack(t, i, f);
  }

  // ------------------------------------------------------------- counting

  /** The keys stored in the first `j` slots. */
  ghost function KeysUpTo(t: seq<Packet>, j: nat): (r: set<nat>)
    requires j <= |t|
  {
    if j == 0 then {}
    else KeysUpTo(t, j - 1) + (if t[j - 1].Full? then {t[j - 1].key} else {})
  }

  lemma {:induction false} KeysUpToMeans(t: seq<Packet>, j: nat, k: nat)
    requires j <= |t|
    ensures k in KeysUpTo(t, j) <==> exists i :: 0 <= i < j && t[i].Full? && t[i].key == k
  {
    if j > 0 {
      KeysUpToMeans(t, j - 1, k);
      if t[j - 1].Full? && t[j - 1].key == k { assert 0 <= j - 1 < j; }
    }
  }

  lemma {:induction false} FullTableCount(t: seq<Packet>, j: nat)
    requires j <= |t| && Distinct(t) && forall i :: 0 <= i < j ==> t[i].Full?
    ensures |KeysUpTo(t, j)| == j
  {
    if j > 0 {
      FullTableCount(t, j - 1);
      KeysUpToMeans(t, j - 1, t[j - 1].key);
    }
  }

  /** A table with fewer entries than slots has an empty slot. */
  lemma {:induction false} RoomLeft(t: seq<Packet>, m: map<nat, nat>)
    requires Distinct(t) && Represents(t, m) && |m| < |t|
    ensures HasRoom(t)
  {
    forall k | k in KeysUpTo(t, |t|) ensures k in m.Keys { KeysUpToMeans(t, |t|, k); }
    SubsetSize(KeysUpTo(t, |t|), m.Keys);
    assert |m.Keys| == |m|;
    if !HasRoom(t) {
      FullTableCount(t, |t|);
    }
  }

  // ------------------------------------------------------------------ the map

  method NewBucket(n: nat, hash: Hash) returns (packets: array<Packet>)
    requires n > 0
    ensures fresh(packets) && packets.Length == n
    ensures forall i :: 0 <= i < n ==> packets[i] == Empty
    ensures Table(hash, packets[..], map[])
  {
    packets := new Packet[n](_ => Empty);
  }

  /** `done` holds the entries of the first `i` slots. */
  ghost predicate Copied(t: seq<Packet>, i: nat, entries: map<nat, nat>, done: map<nat, nat>) {
    && i <= |t| && done.Keys == KeysUpTo(t, i) && |done| <= i
    && forall k :: k in done ==> k in entries && done[k] == entries[k]
  }

  ghost function WithPacket(m: map<nat, nat>, p: Packet): (r: map<nat, nat>) {
    if p.Full? then m[p.key := p.value] else m
  }

  lemma {:induction false} CopyStep(t: seq<Packet>, i: nat, entries: map<nat, nat>, done: map<nat, nat>)
    requires i < |t| && Represents(t, entries) && Copied(t, i, entries, done)
    ensures Copied(t, i + 1, entries, WithPacket(done, t[i]))
  {
    if t[i].Full? {
      AddedSize(done, t[i].key, t[i].value);
    }
  }

  /** One round of rebuild's loop. */
  method CopyPacket(p: Packet, bucket: array<Packet>, hash: Hash, ghost done: map<nat, nat>)
    requires |done| < bucket.Length && Table(hash, bucket[..], done)
    modifies bucket
    ensures Table(hash, bucket[..], WithPacket(done, p))
  {
    if p.Full? {
      RoomLeft(bucket[..], done);
      Set(bucket, hash, p.key, p.value, done);
    }
  }

  /** The loop of rebuild: set every packet of the old bucket in the new one. */
  method Rehash(packets: array<Packet>, bucket: array<Packet>, hash: Hash, ghost entries: map<nat, nat>)
    requires packets != bucket && bucket.Length > packets.Length
    requires Represents(packets[..], entries) && Table(hash, bucket[..], map[])
    modifies bucket
    ensures Table(hash, bucket[..], entries)
  {
    ghost var t := packets[..];
    ghost var done: map<nat, nat> := map[];
    for i := 0 to packets.Length
      invariant packets[..] == t
      invariant Table(hash, bucket[..], done) && Copied(t, i, entries, done)
    {
      CopyStep(t, i, entries, done);
      CopyPacket(packets[i], bucket, hash, done);
      done := WithPacket(done, t[i]);
    }
    AllCopied(t, entries, done);
  }

  /** The least power of two that is at least `n`. */
  ghost predicate IsLeastPower(p: nat, n: nat) {
    IsPowerOfTwo(p) && n <= p && forall q :: IsPowerOfTwo(q) && n <= q ==> p <= q
  }

  lemma {:induction false} RoundedUp(n: nat)
    ensures IsLeastPower(RoundUp(n), n)
  {
    forall q | IsPowerOfTwo(q) && n <= q ensures RoundUp(n) <= q {
      RoundUpIsLeast(n, q);
    }
  }

  class FastIntegerHashMap {
    const hash: Hash
    var count: nat
    var packets: array<Packet>
    ghost var entries: map<nat, nat>
    ghost var overwrites: nat      // calls of Set that replaced a value

    /** `count` also counts overwrites, and by it the bucket is at most three quarters full. */
    ghost predicate Valid()
      reads this, packets
    {
      && IsPowerOfTwo(packets.Length)
      && Table(hash, packets[..], entries)
      && count == |entries| + overwrites && 4 * count <= 3 * packets.Length
    }

    /** New */
    constructor (hint: nat, hash: Hash)
      ensures Valid() && entries == map[] && overwrites == 0 && this.hash == hash && fresh(packets)
      ensures IsLeastPower(packets.Length, if hint == 0 then 16 else hint)
    {
      var h := if hint == 0 then 16 else hint;
      var bucket := NewBucket(RoundUp(h), hash);
      RoundedUp(h);
      this.hash := hash;
      packets := bucket;
      count := 0;
      entries := map[];
      overwrites := 0;
    }

    /** Len is the number of entries exactly when no call of Set has replaced a value. */
    method Len() returns (n: nat)
      requires Valid()
      ensures n == |entries| <==> overwrites == 0
      ensures n == |entries| + overwrites
    {
      n := count;
    }

    lemma {:induction false} Room()
      requires Valid()
      ensures packets.Length > 0 && HasRoom(packets[..])
    {
      RoomLeft(packets[..], entries);
    }

    method Lookup(key: nat) returns (out: Option<nat>)
      requires Valid()
      ensures out == if key in entries then Some(entries[key]) else None
    {
      Room();
      out := Get(packets, hash, key, entries);
    }

    /** rebuild: the bucket doubles and the entries stay. */
    method Rebuild()
      requires Valid()
      modifies this`packets
      ensures fresh(packets) && packets.Length == 2 * old(packets.Length)
      ensures IsPowerOfTwo(packets.Length) && Table(hash, packets[..], entries)
    {
      var bucket := NewBucket(RoundUp(packets.Length + 1), hash);
      DoublePower(packets.Length);
      Rehash(packets, bucket, hash, entries);
      packets := bucket;
    }

    /** Set */
    method Put(key: nat, value: nat)
      requires Valid()
      modifies this, packets
      ensures Valid() && entries == old(entries)[key := value] && (packets == old(packets) || fresh(packets))
      ensures overwrites == old(overwrites) + if key in old(entries) then 1 else 0
      ensures packets.Length == if 4 * (old(count) + 1) > 3 * old(packets.Length) then 2 * old(packets.Length) else old(packets.Length)
    {
      MakeRoom();
      RoomLeft(packets[..], entries);
      Set(packets, hash, key, value, entries);
      AddedSize(entries, key, value);
      if key in entries { overwrites := overwrites + 1; }
      entries := entries[key := value];
      count := count + 1;
    }

    /** The test of the load factor in Set. */
    method MakeRoom()
      requires Valid()
      modifies this`packets
      ensures (packets == old(packets) && packets[..] == old(packets[..])) || fresh(packets)
      ensures IsPowerOfTwo(packets.Length) && Table(hash, packets[..], entries) && 4 * (count + 1) <= 3 * packets.Length
      ensures packets.Length == if 4 * (count + 1) > 3 * old(packets.Length) then 2 * old(packets.Length) else old(packets.Length)
    {
      if 4 * (count + 1) > 3 * packets.Length {
        Rebuild();
      }
    }

    /** Delete */
    method Remove(key: nat)
      requires Valid()
      modifies this, packets
      ensures Valid() && entries == old(entries) - {key}
      ensures overwrites == old(overwrites) && packets == old(packets)
    {
      Room();
      var found := Delete(packets, hash, key, entries);
      RemovedSize(entries, key);
      if found {
        count := count - 1;
      }
      entries := entries - {key};
    }
  }

  lemma {:induction false} DoublePower(n: nat)
    requires IsPowerOfTwo(n)
    ensures RoundUp(n + 1) == 2 * n
  {
    PowersApart(n, RoundUp(n + 1));
    RoundUpIsLeast(n + 1, 2 * n);
  }

  lemma {:induction false} AllCopied(t: seq<Packet>, entries: map<nat, nat>, done: map<nat, nat>)
    requires Represents(t, entries) && done.Keys == KeysUpTo(t, |t|)
    requires forall k :: k in done ==> k in entries && done[k] == entries[k]
    ensures done == entries
  {
    forall k | k in entries ensures k in done {
      assert Stored(t, k);
      KeysUpToMeans(t, |t|, k);
    }
  }

  lemma {:induction false} AddedSize(m: map<nat, nat>, k: nat, v: nat)
    ensures |m[k := v]| == |m| + if k in m then 0 else 1
  {
    assert m[k := v].Keys == m.Keys + {k};
    if k in m { assert m.Keys + {k} == m.Keys; }
    assert |m[k := v]| == |m[k := v].Keys| && |m| == |m.Keys|;
  }

  lemma {:induction false} RemovedSize(m: map<nat, nat>, k: nat)
    ensures k in m ==> |m - {k}| == |m| - 1 && |m| > 0
    ensures k !in m ==> m - {k} == m
  {
    assert (m - {k}).Keys == m.Keys - {k};
    assert |m - {k}| == |(m - {k}).Keys| && |m| == |m.Keys|;
  }

  /** Setting one key twice is counted twice. */
  method LenOvercounts(hash: Hash) returns (m: FastIntegerHashMap, n: nat)
    ensures fresh(m) && m.Valid() && m.entries == map[1 := 2] && n == 2
  {
    m := new FastIntegerHashMap(16, hash);
    m.Put(1, 1);
    m.Put(1, 2);
    n := m.Len();
    assert |map[1 := 2]| == 1;
  }
}
