/** The buffer cache (bio.c) over a simple block device: an LRU ring of buffers,
    proved transparent, i.e. a cached read returns what an uncached store would. */
module Bio {
  import opened Common
  import opened Blocks

  const NBUF := 30
  const HEAD := NBUF   // index of bcache.head in the link arrays

  datatype Key = Key(dev: nat, blockno: nat)

  /** struct buf, without its links.  `locked` is the buffer's sleep lock. */
  datatype Buf = Buf(key: Key, valid: bool, dirty: bool, refcnt: nat, locked: bool, data: Block)

  // ------------------------------------------------------------- the ring

  /** The i-th element of the ring head, ring[0], .., head. */
  function At(ring: seq<nat>, i: nat): nat
    requires i <= |ring| + 1
  {
    if i == 0 || i == |ring| + 1 then HEAD else ring[i - 1]
  }

  /** next and prev link exactly the buffers of `ring`, in that order, through head. */
  ghost predicate Linked(next: seq<nat>, prev: seq<nat>, ring: seq<nat>) {
    && |next| == |prev| == NBUF + 1
    && (forall i :: 0 <= i < |ring| ==> ring[i] < NBUF)
    && (forall i, j :: 0 <= i < j < |ring| ==> ring[i] != ring[j])
    && (forall i :: 0 <= i <= |ring| ==> LinkAt(next, prev, ring, i))
  }

  ghost predicate LinkAt(next: seq<nat>, prev: seq<nat>, ring: seq<nat>, i: nat)
    requires |next| == |prev| == NBUF + 1 && i <= |ring|
    requires forall i :: 0 <= i < |ring| ==> ring[i] < NBUF
  {
    next[At(ring, i)] == At(ring, i + 1) && prev[At(ring, i + 1)] == At(ring, i)
  }

  function IndexOf(ring: seq<nat>, b: nat): (i: nat)
    requires b in ring
    ensures i < |ring| && ring[i] == b
  {
    if ring[0] == b then 0 else 1 + IndexOf(ring[1..], b)
  }

  function Without(ring: seq<nat>, i: nat): (r: seq<nat>)
    requires i < |ring|
  {
    ring[..i] + ring[i + 1..]
  }

  /** Unlinking: the neighbours of b point past it. */
  lemma {:induction false} UnlinkRing(next: seq<nat>, prev: seq<nat>, ring: seq<nat>, i: nat)
    requires Linked(next, prev, ring) && i < |ring|
    ensures var b := ring[i];
            && next[b] <= NBUF && prev[b] <= NBUF
            && Linked(next[prev[b] := next[b]], prev[next[b] := prev[b]], Without(ring, i))
  {
    var b := ring[i];
    assert LinkAt(next, prev, ring, i) && LinkAt(next, prev, ring, i + 1);
    var next1, prev1, r := next[prev[b] := next[b]], prev[next[b] := prev[b]], Without(ring, i);
    forall j | 0 <= j <= |r|
      ensures LinkAt(next1, prev1, r, j)
    {
      var k := if j <= i then j else j + 1;
      assert LinkAt(next, prev, ring, k);
    }
  }

  /** Linking in: b goes between the head and its first buffer. */
  lemma {:induction false} PushRing(next: seq<nat>, prev: seq<nat>, ring: seq<nat>, b: nat)
    requires Linked(next, prev, ring) && b < NBUF && b !in ring
    ensures next[HEAD] <= NBUF
    ensures Linked(next[b := next[HEAD]][HEAD := b], prev[b := HEAD][next[HEAD] := b], [b] + ring)
  {
    assert LinkAt(next, prev, ring, 0);
    var next1, prev1, r := next[b := next[HEAD]][HEAD := b], prev[b := HEAD][next[HEAD] := b], [b] + ring;
    forall j | 0 <= j <= |r|
      ensures LinkAt(next1, prev1, r, j)
    {
      if j >= 1 {
        assert LinkAt(next, prev, ring, j - 1);
      }
    }
  }

  // ------------------------------------------------------------- the cache

  /** The buffer table.  `at` says which buffer holds a key (so at most one
      does); `store` is the reference semantics, a plain map from block to
      contents that only a holder's modification changes. */
  ghost predicate TableOk(bufs: seq<Buf>, disk: map<Key, Block>, at: map<Key, nat>, store: map<Key, Block>) {
    && |bufs| == NBUF && disk.Keys == store.Keys
    && (forall b :: 0 <= b < NBUF ==> BufOk(bufs, disk, at, store, b))
    && (forall k :: k in at ==> at[k] < NBUF && bufs[at[k]].key == k && k.dev != 0)
    && (forall k :: k in disk && !(k in at && bufs[at[k]].valid) ==> disk[k] == store[k])
  }

  ghost predicate BufOk(bufs: seq<Buf>, disk: map<Key, Block>, at: map<Key, nat>, store: map<Key, Block>, b: nat)
    requires b < |bufs|
  {
    var x := bufs[b];
    && (x.key.dev != 0 ==> x.key in at && at[x.key] == b && x.key in disk && x.key in store)
    && (x.key.dev != 0 && x.valid ==> x.data == store[x.key])
    && (x.locked ==> x.refcnt > 0)
    && (x.dirty || x.refcnt > 0 ==> x.key.dev != 0) && (x.dirty ==> x.valid)
    // an unlocked buffer that differs from the disk is marked
    && (x.key.dev != 0 && x.valid && !x.locked && !x.dirty ==> x.data == disk[x.key])
  }

  /** At most one buffer holds a block; a clean unlocked one agrees with the disk, and a
      valid one with the reference store. */
  lemma {:induction false} OneBuffer(bufs: seq<Buf>, disk: map<Key, Block>, at: map<Key, nat>, store: map<Key, Block>,
        b: nat, c: nat)
    requires TableOk(bufs, disk, at, store) && b < NBUF && c < NBUF && bufs[b].key.dev != 0
    ensures bufs[b].key == bufs[c].key ==> b == c
    ensures bufs[b].key in store && (bufs[b].valid ==> bufs[b].data == store[bufs[b].key])
    ensures bufs[b].valid && !bufs[b].locked && !bufs[b].dirty ==> disk[bufs[b].key] == store[bufs[b].key]
  {
    assert BufOk(bufs, disk, at, store, b) && BufOk(bufs, disk, at, store, c);
  }

  /** A free clean buffer takes over key k: nothing readable changes. */
  lemma {:induction false} Recycle(bufs: seq<Buf>, disk: map<Key, Block>, at: map<Key, nat>, store: map<Key, Block>,
        b: nat, k: Key)
    requires TableOk(bufs, disk, at, store) && b < NBUF && bufs[b].refcnt == 0 && !bufs[b].dirty
    requires k !in at && k.dev != 0 && k in disk
    ensures var x := bufs[b].(key := k, valid := false, dirty := false, refcnt := 1);
            TableOk(bufs[b := x], disk, (at - {bufs[b].key})[k := b], store)
  {
    var x := bufs[b].(key := k, valid := false, dirty := false, refcnt := 1);
    var bufs1, at1 := bufs[b := x], (at - {bufs[b].key})[k := b];
    assert BufOk(bufs, disk, at, store, b);
    forall c | 0 <= c < NBUF
      ensures BufOk(bufs1, disk, at1, store, c)
    {
      assert BufOk(bufs, disk, at, store, c);
    }
  }

  /** Changing buffer b only, with its key kept, preserves the table if the new
      buffer does. */
  lemma {:induction false} Refill(bufs: seq<Buf>, disk: map<Key, Block>, at: map<Key, nat>, store: map<Key, Block>,
        b: nat, x: Buf, disk1: map<Key, Block>, store1: map<Key, Block>)
    requires TableOk(bufs, disk, at, store) && b < NBUF && bufs[b].key == x.key && x.key.dev != 0
    requires disk1.Keys == store1.Keys == disk.Keys
    requires forall k :: k in disk && k != x.key ==> disk1[k] == disk[k] && store1[k] == store[k]
    requires x.locked ==> x.refcnt > 0
    requires x.key in disk && (x.valid ==> x.data == store1[x.key]) && (x.dirty ==> x.valid)
    requires !x.valid ==> disk1[x.key] == store1[x.key]
    requires x.valid && !x.locked && !x.dirty ==> x.data == disk1[x.key]
    ensures TableOk(bufs[b := x], disk1, at, store1)
  {
    assert BufOk(bufs, disk, at, store, b);
    var bufs1 := bufs[b := x];
    forall c | 0 <= c < NBUF
      ensures BufOk(bufs1, disk1, at, store1, c)
    {
      assert BufOk(bufs, disk, at, store, c);
    }
  }

  /** ring is a permutation of all buffers, most recently released first. */
  ghost predicate RingOk(next: seq<nat>, prev: seq<nat>, ring: seq<nat>, stamp: seq<nat>, clock: nat) {
    && Linked(next, prev, ring) && |ring| == |stamp| == NBUF
    && (forall b :: 0 <= b < NBUF ==> b in ring)
    && (forall b :: 0 <= b < NBUF ==> stamp[b] < clock)
    && (forall i, j :: 0 <= i < j < |ring| ==> stamp[ring[i]] > stamp[ring[j]])
  }

  /** brelse moves buffer b from anywhere in the ring to its front. */
  lemma {:induction false} MoveToFront(next: seq<nat>, prev: seq<nat>, ring: seq<nat>, stamp: seq<nat>, clock: nat,
        i: nat)
    requires RingOk(next, prev, ring, stamp, clock) && i < |ring|
    ensures var b := ring[i];
            && next[b] <= NBUF && prev[b] <= NBUF
            && var next1, prev1 := next[prev[b] := next[b]], prev[next[b] := prev[b]];
               && next1[HEAD] <= NBUF
               && RingOk(next1[b := next1[HEAD]][HEAD := b], prev1[b := HEAD][next1[HEAD] := b],
                         [b] + Without(ring, i), stamp[b := clock], clock + 1)
  {
    var b, r := ring[i], Without(ring, i);
    UnlinkRing(next, prev, ring, i);
    PushRing(next[prev[b] := next[b]], prev[next[b] := prev[b]], r, b);
    var r1, stamp1 := [b] + r, stamp[b := clock];
    forall c | 0 <= c < NBUF
      ensures c in r1
    {
      assert c in ring;
    }
    forall x, y | 0 <= x < y < |r1|
      ensures stamp1[r1[x]] > stamp1[r1[y]]
    {
      if x > 0 {
        assert r[x - 1] == ring[if x - 1 < i then x - 1 else x] && r[y - 1] == ring[if y - 1 < i then y - 1 else y];
      }
    }
  }

  // ------------------------------------------------------- running out of buffers

  /** bget may take this buffer for another block. */
  predicate Reusable(bufs: seq<Buf>, b: nat)
    requires b < |bufs|
  {
    bufs[b].refcnt == 0 && !bufs[b].dirty
  }

  /** The buffers the log has pinned, and those that are referenced and not pinned. */
  ghost function Pinned(bufs: seq<Buf>): set<nat> { set b | 0 <= b < |bufs| && bufs[b].dirty }

  ghost function Held(bufs: seq<Buf>): set<nat> { set b | 0 <= b < |bufs| && bufs[b].refcnt > 0 && !bufs[b].dirty }

  ghost function Below(n: nat): (s: set<nat>)
    ensures |s| == n && forall b :: b in s <==> 0 <= b < n
  {
    if n == 0 then {} else Below(n - 1) + {n - 1}
  }

  /** No buffer can be reused, and so bget of an uncached block panics, exactly when
      pinned and held ones are all there are. */
  lemma {:induction false} BusyExactly(bufs: seq<Buf>)
    ensures (forall c :: 0 <= c < |bufs| ==> !Reusable(bufs, c)) <==> |Pinned(bufs)| + |Held(bufs)| == |bufs|
    ensures |Pinned(bufs)| + |Held(bufs)| <= |bufs|
  {
    var busy, all := Pinned(bufs) + Held(bufs), Below(|bufs|);
    assert |busy| == |Pinned(bufs)| + |Held(bufs)| && busy <= all;
    SubsetSize(busy, all);
    if c :| 0 <= c < |bufs| && Reusable(bufs, c) {
      assert busy <= all - {c};
      SubsetSize(busy, all - {c});
    } else {
      forall c | c in all
        ensures c in busy
      {
        assert !Reusable(bufs, c);
      }
      assert busy == all;
    }
  }

  /** With at most p pinned and h other held buffers at any time bget never runs out, as
      long as p + h is less than NBUF; Exhaust shows that this is needed. */
  lemma {:induction false} EnoughBuffers(bufs: seq<Buf>, p: nat, h: nat)
    requires |bufs| == NBUF && |Pinned(bufs)| <= p && |Held(bufs)| <= h && p + h < NBUF
    ensures exists c :: 0 <= c < NBUF && Reusable(bufs, c)
  {
    BusyExactly(bufs);
  }

  /** bcache and the device under it.  Each method but Brelse, which is two of them, is
      one critical section of the source, so any interleaving of callers is a sequence
      of these calls. */
  class BufferCache {
    var bufs: seq<Buf>
    var next: seq<nat>
    var prev: seq<nat>
    var disk: map<Key, Block>
    ghost var ring: seq<nat>
    ghost var stamp: seq<nat>
    ghost var clock: nat
    ghost var at: map<Key, nat>
    ghost var store: map<Key, Block>

    ghost predicate Valid()
      reads this
    {
      TableOk(bufs, disk, at, store) && RingOk(next, prev, ring, stamp, clock)
    }

    /** binit: all buffers empty (dev 0), each pushed at the front of the ring. */
    constructor (disk: map<Key, Block>)
      ensures Valid() && this.disk == disk && store == disk
      ensures forall b :: 0 <= b < NBUF ==> bufs[b].key.dev == 0 && Reusable(bufs, b)
    {
      bufs := seq(NBUF, _ => Buf(Key(0, 0), false, false, 0, false, ZeroBlock()));
      var nx: seq<nat> := seq(NBUF + 1, _ => HEAD);
      var pv: seq<nat> := seq(NBUF + 1, _ => HEAD);
      ghost var r: seq<nat> := [];
      assert Linked(nx, pv, r);
      var b := 0;
      while b < NBUF
        invariant 0 <= b <= NBUF && Linked(nx, pv, r) && |r| == b
        invariant forall i :: 0 <= i < b ==> r[i] == b - 1 - i
        invariant forall c :: 0 <= c < b ==> c in r
      {
        PushRing(nx, pv, r, b);
        var first := nx[HEAD];
        nx, pv := nx[b := first], pv[b := HEAD];
        pv := pv[first := b];
        nx := nx[HEAD := b];
        r := [b] + r;
        b := b + 1;
      }
      next, prev, ring := nx, pv, r;
      stamp := seq(NBUF, i => i);
      clock := NBUF;
      this.disk, store, at := disk, disk, map[];
    }

    /** bget, up to the point where it waits for the buffer's lock.  A cached
        block gains a reference; otherwise the least recently released buffer
        that is unreferenced and clean is reused; if there is none it panics. */
    method Bget(k: Key) returns (b: nat, panic: bool)
      requires Valid() && k.dev != 0 && k in disk
      modifies this`bufs, this`at
      ensures panic <==> k !in old(at) && forall c :: 0 <= c < NBUF ==> !Reusable(old(bufs), c)
      ensures panic ==> bufs == old(bufs) && at == old(at)
      ensures !panic ==> Valid() && b < NBUF && bufs[b].key == k && bufs[b].refcnt > 0
      ensures !panic ==> forall c :: 0 <= c < NBUF && c != b ==> bufs[c] == old(bufs)[c]
      ensures !panic && k in old(at) ==> b == old(at)[k] && bufs[b] == old(bufs)[b].(refcnt := old(bufs)[b].refcnt + 1)
      ensures !panic && k !in old(at) ==>
                && Reusable(old(bufs), b)
                && bufs[b] == old(bufs)[b].(key := k, valid := false, dirty := false, refcnt := 1) && !bufs[b].locked
                && forall c :: 0 <= c < NBUF && Reusable(old(bufs), c) ==> stamp[b] <= stamp[c]
    {
      var found;
      b, found := FindCached(k);
      if found {
        assert BufOk(bufs, disk, at, store, b);
        Refill(bufs, disk, at, store, b, bufs[b].(refcnt := bufs[b].refcnt + 1), disk, store);
        bufs := bufs[b := bufs[b].(refcnt := bufs[b].refcnt + 1)];
        return b, false;
      }
      b, found := FindVictim();
      if found {
        assert BufOk(bufs, disk, at, store, b);
        Recycle(bufs, disk, at, store, b, k);
        at := (at - {bufs[b].key})[k := b];
        bufs := bufs[b := bufs[b].(key := k, valid := false, dirty := false, refcnt := 1)];
        return b, false;
      }
      return 0, true;
    }

    /** bget's first loop, from the most recently used end. */
    method FindCached(k: Key) returns (b: nat, found: bool)
      requires Valid() && k.dev != 0
      ensures found <==> k in at
      ensures found ==> b == at[k] && b < NBUF
    {
      assert LinkAt(next, prev, ring, 0);
      ghost var place := if k in at then IndexOf(ring, at[k]) else 0;
      b := next[HEAD];
      ghost var i := 1;
      while b != HEAD
        invariant 1 <= i <= |ring| + 1 && b == At(ring, i)
        invariant k in at ==> i <= place + 1
        decreases |ring| + 1 - i
      {
        assert BufOk(bufs, disk, at, store, b) && LinkAt(next, prev, ring, i);
        if bufs[b].key == k {
          return b, true;
        }
        b := next[b];
        i := i + 1;
      }
      return b, false;
    }

    /** bget's second loop, from the least recently used end. */
    method FindVictim() returns (b: nat, found: bool)
      requires Valid()
      ensures found ==> b < NBUF && Reusable(bufs, b)
      ensures found ==> forall c :: 0 <= c < NBUF && Reusable(bufs, c) ==> stamp[b] <= stamp[c]
      ensures !found ==> forall c :: 0 <= c < NBUF ==> !Reusable(bufs, c)
    {
      assert LinkAt(next, prev, ring, |ring|);
      b := prev[HEAD];
      ghost var i := |ring|;
      while b != HEAD
        invariant 0 <= i <= |ring| && b == At(ring, i)
        invariant forall j :: i <= j < |ring| ==> !Reusable(bufs, ring[j])
        decreases i
      {
        if bufs[b].refcnt == 0 && !bufs[b].dirty {
          forall c | 0 <= c < NBUF && Reusable(bufs, c)
            ensures stamp[b] <= stamp[c]
          {
            var j := IndexOf(ring, c);
          }
          return b, true;
        }
        assert LinkAt(next, prev, ring, i - 1);
        b := prev[b];
        i := i - 1;
      }
      forall c | 0 <= c < NBUF
        ensures !Reusable(bufs, c)
      {
        var j := IndexOf(ring, c);
      }
      return b, false;
    }

    /** The sleep lock of b, taken by a caller that holds a reference. */
    method Acquire(b: nat)
      requires Valid() && b < NBUF && bufs[b].refcnt > 0 && !bufs[b].locked
      modifies this`bufs
      ensures Valid() && bufs == old(bufs)[b := old(bufs)[b].(locked := true)]
    {
      assert BufOk(bufs, disk, at, store, b);
      Refill(bufs, disk, at, store, b, bufs[b].(locked := true), disk, store);
      bufs := bufs[b := bufs[b].(locked := true)];
    }

    /** The rest of bread: fetch the block unless it is there.  Transparency: the
        data returned is what the reference store holds for the block. */
    method Fill(b: nat) returns (data: Block)
      requires Valid() && b < NBUF && bufs[b].locked
      modifies this`bufs
      ensures Valid() && bufs == old(bufs)[b := old(bufs)[b].(valid := true, data := data)]
      ensures bufs[b].key in store && data == store[bufs[b].key]
    {
      assert BufOk(bufs, disk, at, store, b);
      if !bufs[b].valid {
        var x := bufs[b].(valid := true, data := disk[bufs[b].key]);
        Refill(bufs, disk, at, store, b, x, disk, store);
        bufs := bufs[b := x];
      }
      data := bufs[b].data;
    }

    /** The holder changes the buffer's contents. */
    method Modify(b: nat, data: Block)
      requires Valid() && b < NBUF && bufs[b].locked && bufs[b].valid
      modifies this`bufs, this`store
      ensures Valid() && bufs == old(bufs)[b := old(bufs)[b].(data := data)]
      ensures store == old(store)[bufs[b].key := data]
    {
      assert BufOk(bufs, disk, at, store, b);
      Refill(bufs, disk, at, store, b, bufs[b].(data := data), disk, store[bufs[b].key := data]);
      store := store[bufs[b].key := data];
      bufs := bufs[b := bufs[b].(data := data)];
    }

    /** log_write sets the dirty flag, which pins the buffer. */
    method MarkDirty(b: nat)
      requires Valid() && b < NBUF && bufs[b].locked && bufs[b].valid
      modifies this`bufs
      ensures Valid() && bufs == old(bufs)[b := old(bufs)[b].(dirty := true)]
    {
      assert BufOk(bufs, disk, at, store, b);
      Refill(bufs, disk, at, store, b, bufs[b].(dirty := true), disk, store);
      bufs := bufs[b := bufs[b].(dirty := true)];
    }

    /** bwrite: the disk takes the buffer's contents, the buffer becomes clean. */
    method Bwrite(b: nat) returns (panic: bool)
      requires Valid() && b < NBUF && bufs[b].valid
      modifies this`bufs, this`disk
      ensures panic <==> !old(bufs)[b].locked
      ensures panic ==> disk == old(disk) && bufs == old(bufs)
      ensures !panic ==>
                && Valid() && disk == old(disk)[bufs[b].key := bufs[b].data]
                && bufs == old(bufs)[b := old(bufs)[b].(dirty := false)]
    {
      if !bufs[b].locked {
        return true;
      }
      assert BufOk(bufs, disk, at, store, b);
      var x := bufs[b].(dirty := false);
      Refill(bufs, disk, at, store, b, x, disk[x.key := x.data], store);
      disk := disk[x.key := x.data];
      bufs := bufs[b := x];
      return false;
    }

    /** brelse up to its releasesleep.  The caller must have marked what it modified. */
    method Unlock(b: nat) returns (panic: bool)
      requires Valid() && b < NBUF && bufs[b].key in disk
      requires bufs[b].valid && !bufs[b].dirty ==> bufs[b].data == disk[bufs[b].key]
      modifies this`bufs
      ensures panic <==> !old(bufs)[b].locked
      ensures panic ==> bufs == old(bufs)
      ensures !panic ==> Valid() && bufs == old(bufs)[b := old(bufs)[b].(locked := false)] && bufs[b].refcnt > 0
    {
      if !bufs[b].locked {
        return true;
      }
      assert BufOk(bufs, disk, at, store, b);
      Refill(bufs, disk, at, store, b, bufs[b].(locked := false), disk, store);
      bufs := bufs[b := bufs[b].(locked := false)];
      return false;
    }

    /** The rest of brelse, under bcache.lock: drop a reference, which is not that of a
        process that has locked the buffer since; the last one out moves it to the front. */
    method Unref(b: nat)
      requires Valid() && b < NBUF && bufs[b].refcnt > (if bufs[b].locked then 1 else 0)
      modifies this`bufs, this`next, this`prev, this`ring, this`stamp, this`clock
      ensures Valid() && bufs == old(bufs)[b := old(bufs)[b].(refcnt := old(bufs)[b].refcnt - 1)]
      ensures stamp == (if bufs[b].refcnt == 0 then old(stamp)[b := old(clock)] else old(stamp))
      ensures (bufs[b].refcnt == 0 ==> ring[0] == b) && (bufs[b].refcnt > 0 ==> ring == old(ring))
    {
      assert BufOk(bufs, disk, at, store, b);
      var x := bufs[b].(refcnt := bufs[b].refcnt - 1);
      Refill(bufs, disk, at, store, b, x, disk, store);
      bufs := bufs[b := x];
      if x.refcnt == 0 {
        ToFront(b);
      }
    }

    /** brelse when nobody comes between its two critical sections. */
    method Brelse(b: nat) returns (panic: bool)
      requires Valid() && b < NBUF && bufs[b].key in disk
      requires bufs[b].valid && !bufs[b].dirty ==> bufs[b].data == disk[bufs[b].key]
      modifies this`bufs, this`next, this`prev, this`ring, this`stamp, this`clock
      ensures panic <==> !old(bufs)[b].locked
      ensures panic ==> bufs == old(bufs) && next == old(next) && prev == old(prev) && ring == old(ring)
      ensures !panic ==>
                && old(bufs)[b].refcnt > 0 && Valid()
                && bufs == old(bufs)[b := old(bufs)[b].(locked := false, refcnt := old(bufs)[b].refcnt - 1)]
                && stamp == (if bufs[b].refcnt == 0 then old(stamp)[b := old(clock)] else old(stamp))
                && (bufs[b].refcnt == 0 ==> ring[0] == b) && (bufs[b].refcnt > 0 ==> ring == old(ring))
    {
      panic := Unlock(b);
      if !panic {
        Unref(b);
      }
    }

    /** brelse's pointer surgery. */
    method ToFront(b: nat)
      requires RingOk(next, prev, ring, stamp, clock) && b < NBUF
      modifies this`next, this`prev, this`ring, this`stamp, this`clock
      ensures RingOk(next, prev, ring, stamp, clock)
      ensures stamp == old(stamp)[b := old(clock)] && ring[0] == b
      ensures exists i :: 0 <= i < NBUF && old(ring)[i] == b && ring == [b] + Without(old(ring), i)
    {
      ghost var i := IndexOf(ring, b);
      MoveToFront(next, prev, ring, stamp, clock, i);
      assert LinkAt(next, prev, ring, i + 1);
      prev := prev[next[b] := prev[b]];
      next := next[prev[b] := next[b]];
      next := next[b := next[HEAD]];
      prev := prev[b := HEAD];
      prev := prev[next[HEAD] := b];
      next := next[HEAD := b];
      ring, stamp, clock := [b] + Without(ring, i), stamp[b := clock], clock + 1;
    }
  }


  /** n blocks of device 1 are in use, p of them pinned and released, the others held. */
  ghost predicate InUse(bufs: seq<Buf>, n: nat, p: nat) {
    && |bufs| == NBUF && p <= n
    && (forall b :: 0 <= b < NBUF && bufs[b].key.dev != 0 ==> bufs[b].key.dev == 1 && bufs[b].key.blockno < n)
    && (forall b :: 0 <= b < NBUF && bufs[b].key.dev == 0 ==> Reusable(bufs, b))
    && |Pinned(bufs)| == p && |Held(bufs)| == n - p
  }

  lemma {:induction false} NotCached(cache: BufferCache, n: nat, p: nat)
    requires cache.Valid() && InUse(cache.bufs, n, p)
    ensures Key(1, n) !in cache.at
    ensures (exists c :: 0 <= c < NBUF && Reusable(cache.bufs, c)) <==> n < NBUF
  {
    BusyExactly(cache.bufs);
  }

  lemma {:induction false} OneMoreHeld(bufs: seq<Buf>, after: seq<Buf>, b: nat, n: nat, p: nat)
    requires InUse(bufs, n, p) && |after| == NBUF && b < NBUF && Reusable(bufs, b)
    requires forall c :: 0 <= c < NBUF && c != b ==> after[c] == bufs[c]
    requires after[b].key == Key(1, n) && after[b].refcnt > 0 && !after[b].dirty
    ensures InUse(after, n + 1, p)
  {
    assert Pinned(after) == Pinned(bufs) && Held(after) == Held(bufs) + {b};
  }

  lemma {:induction false} OneMorePinned(bufs: seq<Buf>, after: seq<Buf>, b: nat, n: nat)
    requires InUse(bufs, n, n) && |after| == NBUF && b < NBUF && Reusable(bufs, b)
    requires forall c :: 0 <= c < NBUF && c != b ==> after[c] == bufs[c]
    requires after[b].key == Key(1, n) && after[b].refcnt == 0 && after[b].dirty
    ensures InUse(after, n + 1, n + 1)
  {
    assert Pinned(after) == Pinned(bufs) + {b} && Held(after) == Held(bufs);
  }

  /** The lock, the read, log_write and brelse of a buffer bget has just taken. */
  method LogAndRelease(cache: BufferCache, b: nat)
    requires cache.Valid() && b < NBUF && cache.bufs[b].refcnt == 1 && !cache.bufs[b].locked
    modifies cache
    ensures cache.Valid() && cache.disk == old(cache.disk) && cache.at == old(cache.at)
    ensures cache.bufs[b].key == old(cache.bufs)[b].key && cache.bufs[b].refcnt == 0 && cache.bufs[b].dirty
    ensures forall c :: 0 <= c < NBUF && c != b ==> cache.bufs[c] == old(cache.bufs)[c]
  {
    assert BufOk(cache.bufs, cache.disk, cache.at, cache.store, b);
    cache.Acquire(b);
    var data := cache.Fill(b);
    cache.MarkDirty(b);
    var panic := cache.Brelse(b);
  }

  /** bread of a block that is not cached, then log_write and brelse. */
  method PinOne(cache: BufferCache, n: nat)
    requires cache.Valid() && InUse(cache.bufs, n, n) && n < NBUF && Key(1, n) in cache.disk
    modifies cache
    ensures cache.Valid() && InUse(cache.bufs, n + 1, n + 1) && cache.disk == old(cache.disk)
  {
    NotCached(cache, n, n);
    var b, panic := cache.Bget(Key(1, n));
    LogAndRelease(cache, b);
    OneMorePinned(old(cache.bufs), cache.bufs, b, n);
  }

  /** The run that runs out: p blocks are read, logged and released, NBUF - p more are
      read and held, and the next block finds no buffer. */
  method Exhaust(disk: map<Key, Block>, p: nat) returns (cache: BufferCache, panic: bool)
    requires p <= NBUF && forall n :: 0 <= n <= NBUF ==> Key(1, n) in disk
    ensures panic && |Pinned(cache.bufs)| == p && |Held(cache.bufs)| == NBUF - p
  {
    cache := new BufferCache(disk);
    assert Pinned(cache.bufs) == {} && Held(cache.bufs) == {};
    var n := 0;
    while n < p
      invariant 0 <= n <= p && cache.Valid() && cache.disk == disk && InUse(cache.bufs, n, n)
    {
      PinOne(cache, n);
      n := n + 1;
    }
    while n < NBUF
      invariant p <= n <= NBUF && cache.Valid() && cache.disk == disk && InUse(cache.bufs, n, p)
    {
      ghost var before := cache.bufs;
      NotCached(cache, n, p);
      var b;
      b, panic := cache.Bget(Key(1, n));
      OneMoreHeld(before, cache.bufs, b, n, p);
      n := n + 1;
    }
    NotCached(cache, n, p);
    var b;
    b, panic := cache.Bget(Key(1, n));
  }
}
