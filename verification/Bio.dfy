/**
 bio.c: the buffer cache. `ring` lists the ring of buffers from the head, most recently
 released first; `stamp[b]` is the time at which buffer `b` was last released.
 Each method is one critical section under `bcache.lock` or one step of the lock holder.
 */
module Bio {
  import opened BlockDisk
  import opened Rings
  import opened BufferRing
  import opened BufferState

  const NBUF := 30
  const HEAD := 30  // &bcache.head

  datatype Outcome = Done | Panic

  /** `ring` is the head followed by every buffer once. */
  ghost predicate WholeRing(ring: seq<nat>) {
    && |ring| == NBUF + 1 && ring[0] == HEAD && Distinct(ring)
    && (forall i :: 1 <= i <= NBUF ==> ring[i] < NBUF)
    && forall b :: 0 <= b < NBUF ==> b in ring
  }

  /** Further along the ring is released earlier. */
  ghost predicate ByRelease(ring: seq<nat>, stamp: seq<nat>, clock: nat) {
    && WholeRing(ring) && |stamp| == NBUF
    && (forall b :: 0 <= b < NBUF ==> stamp[b] < clock)
    && forall i, j :: 1 <= i < j <= NBUF ==> stamp[ring[i]] > stamp[ring[j]]
  }

  lemma MovedMembers(ring: seq<nat>, i: nat, b: nat)
    requires 1 <= i < |ring| && b in ring
    ensures b in Inserted(Removed(ring, i), 0, ring[i])
  {
    hide Removed, Inserted;
    var j :| 0 <= j < |ring| && ring[j] == b;
    var r := Removed(ring, i);
    var r' := Inserted(r, 0, ring[i]);
    var k := if j == 0 then 0 else if j == i then 1 else if j < i then j + 1 else j;
    assert r'[k] == b;
  }

  /** Releasing a buffer moves it to the front: the ring stays whole and in order of release. */
  lemma MoveToFront(ring: seq<nat>, stamp: seq<nat>, clock: nat, i: nat)
    requires ByRelease(ring, stamp, clock) && 1 <= i <= NBUF
    ensures ByRelease(Inserted(Removed(ring, i), 0, ring[i]), stamp[ring[i] := clock], clock + 1)
  {
    var b, r := ring[i], Removed(ring, i);
    var r' := Inserted(r, 0, b);
    RemovedDistinct(ring, i);
    InsertedDistinct(r, b);
    hide Removed, Inserted, Distinct;
    assert forall k :: 2 <= k <= NBUF ==> r'[k] == ring[if k - 1 < i then k - 1 else k];
    assert forall k :: 1 <= k < |r| ==> r[k] != b;
    forall c | 0 <= c < NBUF ensures c in r' { MovedMembers(ring, i, c); }
  }

  /** The ring after the first `b` buffers have been pushed. */
  ghost predicate Pushed(ring: seq<nat>, b: nat) {
    && |ring| == b + 1 && ring[0] == HEAD && b <= NBUF
    && forall i :: 1 <= i <= b ==> ring[i] == b - i
  }

  lemma PushNext(ring: seq<nat>, b: nat)
    requires Pushed(ring, b) && b < NBUF
    ensures b !in ring && Pushed(Inserted(ring, 0, b), b + 1)
  {
    hide Inserted;
  }

  lemma AloneLinked(link: seq<Link>)
    requires |link| == NBUF + 1 && link[HEAD] == Link(HEAD, HEAD)
    ensures Linked(link, [HEAD]) && Pushed([HEAD], 0)
  {
  }

  lemma PushedAll(ring: seq<nat>)
    requires Pushed(ring, NBUF)
    ensures ByRelease(ring, seq(NBUF, i => i), NBUF)
  {
    forall c | 0 <= c < NBUF ensures c in ring { assert ring[NBUF - c] == c; }
  }

  lemma UnusedBufs(d: Image, bufs: seq<Buf>)
    requires forall i :: 0 <= i < |bufs| ==> bufs[i] == Buf(0, 0, false, false, 0, false, Block([]))
    ensures BufsOk(d, bufs)
  {
  }

  /** The four assignments that make `b` the first buffer after the head. */
  method PushFront(link: array<Link>, b: nat)
    requires link.Length == NBUF + 1 && b < NBUF && link[HEAD].next <= NBUF && link[HEAD].next != b
    modifies link
    ensures link[..] == LinkedAfter(old(link[..]), HEAD, b)
  {
    var n := link[HEAD].next;
    link[b] := Link(HEAD, n);
    link[n] := link[n].(prev := b);
    link[HEAD] := link[HEAD].(next := b);
  }

  /** The two assignments that take `b` out of the ring. */
  method Unlink(link: array<Link>, b: nat)
    requires link.Length == NBUF + 1 && b < NBUF && link[b].next <= NBUF && link[b].prev <= NBUF
    modifies link
    ensures link[..] == Unlinked(old(link[..]), b)
  {
    var n, p := link[b].next, link[b].prev;
    link[n] := link[n].(prev := p);
    link[p] := link[p].(next := n);
  }

  lemma GetKeeps(d: Image, bufs: seq<Buf>, b: nat)
    requires BufsOk(d, bufs) && b < |bufs|
    ensures var x := bufs[b].(refcnt := bufs[b].refcnt + 1);
            BufsOk(d, bufs[b := x]) && ViewKept(d, bufs, d, bufs[b := x])
  {
    assert Coherent(d, bufs[b]);
    CountKeeps(d, bufs, b, bufs[b].(refcnt := bufs[b].refcnt + 1));
  }

  lemma LockKeeps(d: Image, bufs: seq<Buf>, b: nat)
    requires BufsOk(d, bufs) && b < |bufs| && bufs[b].refcnt > 0
    ensures var x := bufs[b].(locked := true);
            BufsOk(d, bufs[b := x]) && ViewKept(d, bufs, d, bufs[b := x])
  {
    assert Coherent(d, bufs[b]);
    CountKeeps(d, bufs, b, bufs[b].(locked := true));
  }

  lemma PinKeeps(d: Image, bufs: seq<Buf>, b: nat)
    requires BufsOk(d, bufs) && b < |bufs| && bufs[b].valid
    ensures var x := bufs[b].(dirty := true);
            BufsOk(d, bufs[b := x]) && ViewKept(d, bufs, d, bufs[b := x])
  {
    assert Coherent(d, bufs[b]);
    CountKeeps(d, bufs, b, bufs[b].(dirty := true));
  }

  /** A clean buffer holds what the disk holds. */
  ghost predicate LeftClean(d: Image, b: Buf) {
    b.valid && !b.dirty ==> b.blockno < |d| && b.data == d[b.blockno]
  }

  lemma ReleaseKeeps(d: Image, bufs: seq<Buf>, b: nat)
    requires BufsOk(d, bufs) && b < |bufs| && bufs[b].refcnt > 0
    requires LeftClean(d, bufs[b])
    ensures var x := bufs[b].(locked := false, refcnt := bufs[b].refcnt - 1);
            BufsOk(d, bufs[b := x]) && ViewKept(d, bufs, d, bufs[b := x])
  {
    assert Coherent(d, bufs[b]);
    CountKeeps(d, bufs, b, bufs[b].(locked := false, refcnt := bufs[b].refcnt - 1));
  }

  /** Unlinking `b` and linking it first keeps the ring whole and in order of release. */
  lemma MovePlan(link: seq<Link>, ring: seq<nat>, stamp: seq<nat>, clock: nat, b: nat) returns (i: nat)
    requires |link| == NBUF + 1 && b < NBUF && Linked(link, ring) && ByRelease(ring, stamp, clock)
    ensures 1 <= i < |ring| && |ring| > 1 && b < |stamp| && link[b].next <= NBUF && link[b].prev <= NBUF
    ensures var l := Unlinked(link, b);
            && l[HEAD].next <= NBUF && l[HEAD].next != b
            && Linked(LinkedAfter(l, HEAD, b), Inserted(Removed(ring, i), 0, b))
            && ByRelease(Inserted(Removed(ring, i), 0, b), stamp[b := clock], clock + 1)
  {
    assert b in ring;
    i :| 0 <= i < |ring| && ring[i] == b;
    hide Linked, LinkedAfter, Unlinked, Inserted, Removed;
    MoveToFront(ring, stamp, clock, i);
    NeighboursOf(link, ring, i);
    UnlinkKeeps(link, ring, i);
    RemovedDistinct(ring, i);
    assert Removed(ring, i)[0] == HEAD;
    hide ByRelease;
    LinkAfterHead(Unlinked(link, b), Removed(ring, i), b);
  }

  class Bcache {
    var disk: Image
    const buf: array<Buf>        // bcache.buf, the fields of each struct but its links
    const link: array<Link>      // prev and next of each buffer and, last, of the head
    ghost var ring: seq<nat>
    ghost var stamp: seq<nat>
    ghost var clock: nat

    ghost predicate Valid()
      reads this, buf, link
    {
      && buf.Length == NBUF && link.Length == NBUF + 1
      && Linked(link[..], ring)
      && ByRelease(ring, stamp, clock)
      && BufsOk(disk, buf[..])
    }

    /** `binit`: every buffer is pushed in front of the ones before it. */
    constructor (disk: Image)
      ensures Valid() && fresh(buf) && fresh(link) && this.disk == disk
      ensures forall b :: 0 <= b < NBUF ==> Names(buf[b], 0, 0) && buf[b].refcnt == 0 && !buf[b].valid
    {
      hide Linked, LinkedAfter, Inserted, ByRelease, WholeRing, Pushed, BufsOk;
      this.disk := disk;
      buf := new Buf[NBUF](_ => Buf(0, 0, false, false, 0, false, Block([])));
      link := new Link[NBUF + 1](_ => Link(HEAD, HEAD));
      ring, clock, stamp := [HEAD], NBUF, seq(NBUF, i => i);
      new;
      UnusedBufs(disk, buf[..]);
      AloneLinked(link[..]);
      PushAll();
      PushedAll(ring);
    }

    /** The loop of `binit`. */
    method PushAll()
      requires link.Length == NBUF + 1 && Linked(link[..], ring) && Pushed(ring, 0)
      modifies this`ring, link
      ensures Linked(link[..], ring) && Pushed(ring, NBUF)
    {
      hide LinkedAfter, Inserted;
      var b := 0;
      while b < NBUF
        invariant 0 <= b <= NBUF && Linked(link[..], ring) && Pushed(ring, b)
      {
        PushNext(ring, b);
        LinkAfterHead(link[..], ring, b);
        PushFront(link, b);
        ring := Inserted(ring, 0, b);
        b := b + 1;
      }
    }

    /** What a reader of block `k` gets through the cache. */
    ghost function Content(k: nat): Block
      requires k < |disk|
      reads this, buf
    {
      View(disk, buf[..], k)
    }

    /** Forward along the ring: the buffer that names the block, or the head. */
    method FindCached(dev: nat, blockno: nat) returns (b: nat)
      requires Valid()
      ensures b == HEAD || (b < NBUF && Names(buf[b], dev, blockno))
      ensures b == HEAD ==> forall c :: 0 <= c < NBUF ==> !Names(buf[c], dev, blockno)
    {
      hide Linked, BufsOk;
      NeighboursOf(link[..], ring, 0);
      b := link[HEAD].next;
      ghost var i := 1;
      while b != HEAD
        invariant 1 <= i <= NBUF + 1 && b == ring[if i <= NBUF then i else 0]
        invariant forall k :: 1 <= k < i ==> !Names(buf[ring[k]], dev, blockno)
        decreases NBUF + 1 - i
      {
        assert 1 <= i <= NBUF;
        if Names(buf[b], dev, blockno) {
          return;
        }
        NeighboursOf(link[..], ring, i);
        b := link[b].next;
        i := i + 1;
      }
      forall c | 0 <= c < NBUF ensures !Names(buf[c], dev, blockno) {
        assert c in ring;
        var k :| 0 <= k < |ring| && ring[k] == c;
      }
    }

    /** Backward along the ring: the free buffer released longest ago, or the head. */
    method FindVictim() returns (b: nat)
      requires Valid()
      ensures b == HEAD || (b < NBUF && Free(buf[b]))
      ensures b == HEAD ==> forall c :: 0 <= c < NBUF ==> !Free(buf[c])
      ensures b != HEAD ==> forall c :: 0 <= c < NBUF && Free(buf[c]) ==> stamp[b] <= stamp[c]
    {
      hide Linked, BufsOk;
      NeighboursOf(link[..], ring, 0);
      b := link[HEAD].prev;
      ghost var i: int := NBUF;
      while b != HEAD
        invariant 0 <= i <= NBUF && b == ring[i]
        invariant forall k :: i < k <= NBUF ==> !Free(buf[ring[k]])
        decreases i
      {
        assert i >= 1;
        if Free(buf[b]) {
          forall c | 0 <= c < NBUF && Free(buf[c]) ensures stamp[b] <= stamp[c] {
            assert c in ring;
            var k :| 0 <= k < |ring| && ring[k] == c;
          }
          return;
        }
        NeighboursOf(link[..], ring, i);
        b := link[b].prev;
        i := i - 1;
      }
      forall c | 0 <= c < NBUF ensures !Free(buf[c]) {
        assert c in ring;
        var k :| 0 <= k < |ring| && ring[k] == c;
      }
    }

    /**
     The buffer for a block, with one more reference; HEAD stands for the panic "no buffers".
     A hit changes only the reference count. A miss reuses the clean unreferenced buffer that
     was released longest ago, never a dirty one.
     */
    method Bget(dev: nat, blockno: nat) returns (b: nat)
      requires Valid()
      modifies buf
      ensures Valid() && (b < NBUF || b == HEAD)
      ensures b == HEAD <==> forall c :: 0 <= c < NBUF ==> !Names(old(buf[c]), dev, blockno) && !Free(old(buf[c]))
      ensures b == HEAD ==> buf[..] == old(buf[..])
      ensures b < NBUF && Names(old(buf[b]), dev, blockno) ==>
                buf[..] == old(buf[..])[b := old(buf[b]).(refcnt := old(buf[b]).refcnt + 1)]
      ensures b < NBUF && !Names(old(buf[b]), dev, blockno) ==>
                && (forall c :: 0 <= c < NBUF ==> !Names(old(buf[c]), dev, blockno))
                && Free(old(buf[b])) && (forall c :: 0 <= c < NBUF && Free(old(buf[c])) ==> stamp[b] <= stamp[c])
                && buf[..] == old(buf[..])[b := Buf(dev, blockno, false, false, 1, false, old(buf[b]).data)]
      ensures ViewKept(disk, old(buf[..]), disk, buf[..])
    {
      hide Linked, ByRelease, View, Unique, Coherent;
      ghost var bufs := buf[..];
      b := FindCached(dev, blockno);
      if b != HEAD {
        GetKeeps(disk, bufs, b);
        buf[b] := buf[b].(refcnt := buf[b].refcnt + 1);
        assert buf[..] == bufs[b := bufs[b].(refcnt := bufs[b].refcnt + 1)];
        return;
      }
      b := FindVictim();
      if b != HEAD {
        RecycleKeeps(disk, bufs, b, Buf(dev, blockno, false, false, 1, false, bufs[b].data));
        buf[b] := Buf(dev, blockno, false, false, 1, false, buf[b].data);
        assert buf[..] == bufs[b := Buf(dev, blockno, false, false, 1, false, bufs[b].data)];
      }
    }

    /** `acquiresleep(&b->lock)`: taken at once if nobody holds it; otherwise the caller sleeps and tries again. */
    method Lock(b: nat) returns (taken: bool)
      requires Valid() && b < NBUF && buf[b].refcnt > 0
      modifies buf
      ensures Valid() && taken == !old(buf[b]).locked
      ensures buf[..] == old(buf[..])[b := old(buf[b]).(locked := true)]
      ensures ViewKept(disk, old(buf[..]), disk, buf[..])
    {
      hide Linked, ByRelease, View, Unique;
      ghost var bufs := buf[..];
      taken := !buf[b].locked;
      LockKeeps(disk, bufs, b);
      buf[b] := buf[b].(locked := true);
      assert buf[..] == bufs[b := bufs[b].(locked := true)];
    }

    /** The rest of `bread`: the locked buffer comes back with the contents of its block. */
    method Fill(b: nat) returns (r: Outcome)
      requires Valid() && b < NBUF && buf[b].locked
      modifies buf
      ensures Valid()
      ensures r == Panic <==> !old(buf[b]).valid && (old(buf[b]).dev != 1 || old(buf[b]).blockno >= |disk|)
      ensures r == Panic || old(buf[b]).valid ==> buf[..] == old(buf[..])
      ensures r == Done ==>
                buf[..] == old(buf[..])[b := buf[b]] && buf[b].valid && Names(buf[b], 1, old(buf[b]).blockno)
      ensures r == Done ==> buf[b].blockno < |disk| && buf[b].data == Content(buf[b].blockno)
      ensures ViewKept(disk, old(buf[..]), disk, buf[..])
    {
      ghost var bufs := buf[..];
      assert Coherent(disk, bufs[b]);
      hide Linked, ByRelease, View, Unique;
      if !buf[b].valid {
        if buf[b].dev != 1 || buf[b].blockno >= |disk| {
          return Panic;
        }
        FillKeeps(disk, bufs, b);
        buf[b] := buf[b].(valid := true, data := disk[buf[b].blockno]);
        assert buf[..] == bufs[b := bufs[b].(valid := true, data := disk[bufs[b].blockno])];
      }
      assert Holds(buf[..], b, buf[b].blockno);
      ViewIs(disk, buf[..], buf[b].blockno, b);
      return Done;
    }

    /** The lock holder changes the buffer: readers of that block, and of no other, see the change. */
    method Edit(b: nat, data: Block)
      requires Valid() && b < NBUF && buf[b].locked && buf[b].valid
      modifies buf
      ensures Valid()
      ensures buf[..] == old(buf[..])[b := old(buf[b]).(data := data)]
      ensures ViewSet(disk, old(buf[..]), disk, buf[..], buf[b].blockno, data)
    {
      hide Linked, ByRelease, View, Unique, Coherent;
      ghost var bufs := buf[..];
      EditSets(disk, bufs, b, data);
      buf[b] := buf[b].(data := data);
      assert buf[..] == bufs[b := bufs[b].(data := data)];
    }

    /** `log_write` pins a buffer: it stays in the cache until it is written. */
    method Pin(b: nat)
      requires Valid() && b < NBUF && buf[b].locked && buf[b].valid
      modifies buf
      ensures Valid()
      ensures buf[..] == old(buf[..])[b := old(buf[b]).(dirty := true)]
      ensures ViewKept(disk, old(buf[..]), disk, buf[..])
    {
      hide Linked, ByRelease, View, Unique;
      ghost var bufs := buf[..];
      PinKeeps(disk, bufs, b);
      buf[b] := buf[b].(dirty := true);
      assert buf[..] == bufs[b := bufs[b].(dirty := true)];
    }

    /** Write the buffer to disk: its readers see what it holds, which for a valid buffer they did before. */
    method Bwrite(b: nat) returns (r: Outcome)
      requires Valid() && b < NBUF
      modifies this`disk, buf
      ensures Valid()
      ensures r == Panic <==> !old(buf[b]).locked || old(buf[b]).dev != 1 || old(buf[b]).blockno >= |old(disk)|
      ensures r == Panic ==> buf[..] == old(buf[..]) && disk == old(disk)
      ensures r == Done ==> buf[..] == old(buf[..])[b := old(buf[b]).(valid := true, dirty := false)]
      ensures r == Done ==> disk == old(disk)[old(buf[b]).blockno := old(buf[b]).data]
      ensures r == Done ==> ViewSet(old(disk), old(buf[..]), disk, buf[..], old(buf[b]).blockno, old(buf[b]).data)
      ensures r == Panic || old(buf[b]).valid ==> ViewKept(old(disk), old(buf[..]), disk, buf[..])
    {
      ghost var bufs := buf[..];
      hide Linked, ByRelease, View, Unique, Coherent;
      if !buf[b].locked || buf[b].dev != 1 || buf[b].blockno >= |disk| {
        return Panic;
      }
      WriteBackSets(disk, bufs, b);
      disk := disk[buf[b].blockno := buf[b].data];
      buf[b] := buf[b].(valid := true, dirty := false);
      assert buf[..] == bufs[b := bufs[b].(valid := true, dirty := false)];
      return Done;
    }

    /** The link updates of `brelse`: take the buffer out of the ring and put it in first. */
    method MoveFirst(b: nat)
      requires buf.Length == NBUF && link.Length == NBUF + 1 && b < NBUF
      requires Linked(link[..], ring) && ByRelease(ring, stamp, clock)
      modifies this`ring, this`stamp, this`clock, link
      ensures Linked(link[..], ring) && ByRelease(ring, stamp, clock)
      ensures |ring| > 1 && ring[1] == b && b < |old(stamp)| && stamp == old(stamp)[b := old(clock)]
    {
      hide Linked, LinkedAfter, Unlinked, Inserted, Removed, ByRelease, WholeRing;
      ghost var i := MovePlan(link[..], ring, stamp, clock, b);
      Unlink(link, b);
      PushFront(link, b);
      ring, stamp, clock := Inserted(Removed(ring, i), 0, b), stamp[b := clock], clock + 1;
    }

    /**
     Release a locked buffer. With the last reference gone it becomes the most recently released
     buffer of the ring. The cache stays coherent exactly if the holder has not left the buffer
     changed and unlogged.
     */
    method Brelse(b: nat) returns (r: Outcome)
      requires Valid() && b < NBUF
      modifies this`ring, this`stamp, this`clock, buf, link
      ensures r == Panic <==> !old(buf[b]).locked
      ensures r == Panic ==> Valid() && buf[..] == old(buf[..]) && ring == old(ring) && stamp == old(stamp)
      ensures Linked(link[..], ring) && ByRelease(ring, stamp, clock)
      ensures r == Done ==>
                && old(buf[b]).refcnt > 0
                && buf[..] == old(buf[..])[b := old(buf[b]).(locked := false, refcnt := old(buf[b]).refcnt - 1)]
                && (buf[b].refcnt > 0 ==> ring == old(ring) && stamp == old(stamp))
                && (buf[b].refcnt == 0 ==> ring[1] == b && stamp == old(stamp)[b := old(clock)])
      ensures r == Done ==> (Valid() <==> LeftClean(disk, old(buf[b])))
      ensures Valid() ==> ViewKept(disk, old(buf[..]), disk, buf[..])
    {
      ghost var bufs := buf[..];
      assert Coherent(disk, bufs[b]);
      if !buf[b].locked {
        return Panic;
      }
      hide Linked, ByRelease, View, Unique;
      if LeftClean(disk, bufs[b]) { ReleaseKeeps(disk, bufs, b); }
      buf[b] := buf[b].(locked := false, refcnt := buf[b].refcnt - 1);
      assert buf[..] == bufs[b := bufs[b].(locked := false, refcnt := bufs[b].refcnt - 1)];
      assert !LeftClean(disk, bufs[b]) ==> !Coherent(disk, buf[..][b]);
      if buf[b].refcnt == 0 {
        MoveFirst(b);
      }
      return Done;
    }
  }
}
