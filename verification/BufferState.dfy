/** The buffers of bio.c as values: cache coherence and the disk contents the cache presents. */
module BufferState {
  import opened BlockDisk

  datatype Buf = Buf(dev: nat, blockno: nat, valid: bool, dirty: bool, refcnt: nat, locked: bool, data: Block)

  predicate Names(b: Buf, dev: nat, blockno: nat) {
    b.dev == dev && b.blockno == blockno
  }

  /** `bget` may reuse the buffer for another block. */
  predicate Free(b: Buf) {
    b.refcnt == 0 && !b.dirty
  }

  /** A valid buffer names a block of disk 1; unless it is dirty or in use it equals that block. */
  ghost predicate Coherent(d: Image, b: Buf) {
    && (b.dirty ==> b.valid)
    && (b.locked ==> b.refcnt > 0)
    && (b.valid ==> b.dev == 1 && b.blockno < |d|)
    && (b.valid && !b.dirty && !b.locked ==> b.data == d[b.blockno])
  }

  /** No two buffers name the same block, except the unused ones, which all start as (0, 0). */
  ghost predicate Unique(bufs: seq<Buf>) {
    forall i, j :: 0 <= i < j < |bufs| && Names(bufs[j], bufs[i].dev, bufs[i].blockno) ==> Names(bufs[i], 0, 0)
  }

  ghost predicate BufsOk(d: Image, bufs: seq<Buf>) {
    Unique(bufs) && forall i :: 0 <= i < |bufs| ==> Coherent(d, bufs[i])
  }

  ghost predicate Holds(bufs: seq<Buf>, i: int, k: nat) {
    0 <= i < |bufs| && bufs[i].valid && Names(bufs[i], 1, k)
  }

  /** What a reader of block `k` gets through the cache. */
  ghost function View(d: Image, bufs: seq<Buf>, k: nat): Block
    requires k < |d|
  {
    if exists i :: Holds(bufs, i, k) then (var i :| Holds(bufs, i, k); bufs[i].data) else d[k]
  }

  lemma ViewIs(d: Image, bufs: seq<Buf>, k: nat, i: int)
    requires BufsOk(d, bufs) && k < |d| && Holds(bufs, i, k)
    ensures View(d, bufs, k) == bufs[i].data
  {
  }

  /** The cache presents the same disk before and after, except for block `k`, which becomes `data`. */
  ghost predicate ViewSet(d: Image, bufs: seq<Buf>, d': Image, bufs': seq<Buf>, k: nat, data: Block) {
    && |d| == |d'|
    && forall a :: 0 <= a < |d| ==> View(d', bufs', a) == if a == k then data else View(d, bufs, a)
  }

  ghost predicate ViewKept(d: Image, bufs: seq<Buf>, d': Image, bufs': seq<Buf>) {
    |d| == |d'| && forall a :: 0 <= a < |d| ==> View(d', bufs', a) == View(d, bufs, a)
  }

  /** Changing one buffer changes the view of no block that it names neither before nor after. */
  lemma OtherBlocks(d: Image, bufs: seq<Buf>, d': Image, bufs': seq<Buf>, b: nat, a: nat)
    requires BufsOk(d, bufs) && BufsOk(d', bufs') && b < |bufs| == |bufs'| && bufs' == bufs[b := bufs'[b]]
    requires a < |d| == |d'| && d[a] == d'[a] && !Names(bufs[b], 1, a) && !Names(bufs'[b], 1, a)
    ensures View(d', bufs', a) == View(d, bufs, a)
  {
    if i :| Holds(bufs, i, a) {
      assert Holds(bufs', i, a);
      ViewIs(d, bufs, a, i);
      ViewIs(d', bufs', a, i);
    } else {
      assert forall i :: Holds(bufs', i, a) ==> Holds(bufs, i, a);
    }
  }

  /** Nobody names (`dev`, `blockno`), so no buffer shadows it. */
  lemma Unshadowed(d: Image, bufs: seq<Buf>, a: nat)
    requires a < |d| && forall i :: 0 <= i < |bufs| ==> !(bufs[i].valid && Names(bufs[i], 1, a))
    ensures View(d, bufs, a) == d[a]
  {
  }

  lemma UpdateUnique(bufs: seq<Buf>, b: nat, x: Buf)
    requires Unique(bufs) && b < |bufs| && Names(x, bufs[b].dev, bufs[b].blockno)
    ensures Unique(bufs[b := x])
  {
  }

  // ----- the steps -----

  /** Recycling a free buffer for a block nobody holds hides nothing: its data was the disk's. */
  lemma RecycleKeeps(d: Image, bufs: seq<Buf>, b: nat, x: Buf)
    requires BufsOk(d, bufs) && b < |bufs| && Free(bufs[b])
    requires forall i :: 0 <= i < |bufs| ==> !Names(bufs[i], x.dev, x.blockno)
    requires !x.valid && !x.dirty && !x.locked
    ensures BufsOk(d, bufs[b := x]) && ViewKept(d, bufs, d, bufs[b := x])
  {
    var bufs' := bufs[b := x];
    forall a | 0 <= a < |d| ensures View(d, bufs', a) == View(d, bufs, a) {
      if Holds(bufs, b, a) {
        ViewIs(d, bufs, a, b);
        forall i | 0 <= i < |bufs'| ensures !(bufs'[i].valid && Names(bufs'[i], 1, a)) {}
        Unshadowed(d, bufs', a);
      } else if Names(bufs[b], 1, a) || Names(x, 1, a) {
        forall i | 0 <= i < |bufs| && i != b ensures !Names(bufs[i], 1, a) {}
        Unshadowed(d, bufs, a);
        Unshadowed(d, bufs', a);
      } else {
        OtherBlocks(d, bufs, d, bufs', b, a);
      }
    }
  }

  /** A change of the counters or flags of a buffer that keeps its name, validity and data. */
  lemma CountKeeps(d: Image, bufs: seq<Buf>, b: nat, x: Buf)
    requires BufsOk(d, bufs) && b < |bufs| && Coherent(d, x)
    requires Names(x, bufs[b].dev, bufs[b].blockno) && x.valid == bufs[b].valid && x.data == bufs[b].data
    ensures BufsOk(d, bufs[b := x]) && ViewKept(d, bufs, d, bufs[b := x])
  {
    var bufs' := bufs[b := x];
    UpdateUnique(bufs, b, x);
    forall a | 0 <= a < |d| ensures View(d, bufs', a) == View(d, bufs, a) {
      if i :| Holds(bufs, i, a) {
        assert Holds(bufs', i, a);
        ViewIs(d, bufs, a, i);
        ViewIs(d, bufs', a, i);
      } else {
        assert forall i :: Holds(bufs', i, a) ==> Holds(bufs, i, a);
      }
    }
  }

  /** `iderw` on a buffer that is not valid: read the block in. */
  lemma FillKeeps(d: Image, bufs: seq<Buf>, b: nat)
    requires BufsOk(d, bufs) && b < |bufs| && !bufs[b].valid && bufs[b].dev == 1 && bufs[b].blockno < |d|
    ensures var x := bufs[b].(valid := true, data := d[bufs[b].blockno]);
            BufsOk(d, bufs[b := x]) && ViewKept(d, bufs, d, bufs[b := x])
  {
    var k, x := bufs[b].blockno, bufs[b].(valid := true, data := d[bufs[b].blockno]);
    var bufs' := bufs[b := x];
    UpdateUnique(bufs, b, x);
    forall a | 0 <= a < |d| ensures View(d, bufs', a) == View(d, bufs, a) {
      if a == k {
        Unshadowed(d, bufs, a);
        ViewIs(d, bufs', a, b);
      } else {
        OtherBlocks(d, bufs, d, bufs', b, a);
      }
    }
  }

  /** `iderw` on a dirty buffer: its readers see what it holds, which they did before if it was valid. */
  lemma WriteBackSets(d: Image, bufs: seq<Buf>, b: nat)
    requires BufsOk(d, bufs) && b < |bufs| && bufs[b].dev == 1 && bufs[b].blockno < |d|
    ensures var k, x := bufs[b].blockno, bufs[b].(valid := true, dirty := false);
            && BufsOk(d[k := x.data], bufs[b := x]) && ViewSet(d, bufs, d[k := x.data], bufs[b := x], k, x.data)
            && (bufs[b].valid ==> ViewKept(d, bufs, d[k := x.data], bufs[b := x]))
  {
    var k, x := bufs[b].blockno, bufs[b].(valid := true, dirty := false);
    var d', bufs' := d[k := x.data], bufs[b := x];
    UpdateUnique(bufs, b, x);
    forall i | 0 <= i < |bufs'| ensures Coherent(d', bufs'[i]) {
      assert Coherent(d, bufs[i]);
    }
    forall a | 0 <= a < |d| ensures View(d', bufs', a) == if a == k then x.data else View(d, bufs, a) {
      if a == k {
        ViewIs(d', bufs', a, b);
      } else {
        OtherBlocks(d, bufs, d', bufs', b, a);
      }
    }
    if bufs[b].valid { ViewIs(d, bufs, k, b); }
  }

  /** The holder of a locked buffer changes its data: one block of the view changes. */
  lemma EditSets(d: Image, bufs: seq<Buf>, b: nat, data: Block)
    requires BufsOk(d, bufs) && b < |bufs| && bufs[b].valid && bufs[b].locked
    ensures var x := bufs[b].(data := data);
            BufsOk(d, bufs[b := x]) && ViewSet(d, bufs, d, bufs[b := x], bufs[b].blockno, data)
  {
    var k, x := bufs[b].blockno, bufs[b].(data := data);
    var bufs' := bufs[b := x];
    UpdateUnique(bufs, b, x);
    forall a | 0 <= a < |d| ensures View(d, bufs', a) == if a == k then data else View(d, bufs, a) {
      if a == k {
        ViewIs(d, bufs', a, b);
      } else {
        OtherBlocks(d, bufs, d, bufs', b, a);
      }
    }
  }
}
