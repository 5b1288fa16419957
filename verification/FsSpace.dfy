/**
 fs.c: how many blocks an operation needs. The blocks of a file are filled in order; a hole costs
 one block, and the first block beyond the direct ones may cost the indirect block besides.
 */
module FsSpace {
  import opened Machine
  import opened FsLayout
  import opened FsOwnership

  /** How many bits of the bitmap are clear. */
  function FreeCount(used: seq<bool>): (n: nat) {
    if |used| == 0 then 0 else FreeCount(used[..|used| - 1]) + if used[|used| - 1] then 0 else 1
  }

  lemma {:induction false} FreeTaken(used: seq<bool>, b: nat)
    requires b < |used| && !used[b]
    ensures FreeCount(used) == FreeCount(used[b := true]) + 1
  {
    var n := |used| - 1;
    if b == n {
      assert used[b := true][..n] == used[..n];
    } else {
      assert used[b := true][..n] == used[..n][b := true];
      FreeTaken(used[..n], b);
    }
  }

  lemma TakenCount(v: Volume, b: nat)
    requires b < |v.used| == |v.disk| && !v.used[b]
    ensures FreeCount(v.used) == FreeCount(Balloced(v, b).used) + 1
  {
    FreeTaken(v.used, b);
  }

  lemma {:induction false} NoneFree(used: seq<bool>)
    ensures FreeCount(used) == 0 <==> forall b :: 0 <= b < |used| ==> used[b]
  {
    if |used| > 0 {
      var n := |used| - 1;
      NoneFree(used[..n]);
      assert forall b :: 0 <= b < n ==> used[..n][b] == used[b];
    }
  }

  /** Block `bn` of file `i` is not allocated. */
  predicate Hole(v: Volume, i: nat, bn: nat)
    requires i < |v.inodes|
  {
    Ref(v.disk, v.inodes[i], SlotOf(bn)) == 0
  }

  predicate NoIndirect(v: Volume, i: nat)
    requires i < |v.inodes|
  {
    Ref(v.disk, v.inodes[i], NDIRECT) == 0
  }

  /** How many blocks `bmap` takes for block `bn`. */
  function Cost(v: Volume, i: nat, bn: nat): (n: nat)
    requires i < |v.inodes|
  {
    if !Hole(v, i, bn) then 0 else if bn >= NDIRECT && NoIndirect(v, i) then 2 else 1
  }

  /** The holes among blocks `a` up to `b`. */
  function Holes(v: Volume, i: nat, a: nat, b: nat): (n: nat)
    requires i < |v.inodes|
  {
    if a >= b then 0 else Holes(v, i, a, b - 1) + if Hole(v, i, b - 1) then 1 else 0
  }

  /** How many blocks it takes to fill blocks `a` up to `b`: the holes, and the indirect block if it is missing. */
  function Need(v: Volume, i: nat, a: nat, b: nat): (n: nat)
    requires i < |v.inodes|
  {
    Holes(v, i, a, b) + if a < b && b > NDIRECT && NoIndirect(v, i) then 1 else 0
  }

  lemma {:induction false} NeedGrows(v: Volume, i: nat, a: nat, b: nat, c: nat)
    requires i < |v.inodes| && b <= c
    ensures Need(v, i, a, b) <= Need(v, i, a, c)
    decreases c - b
  {
    if b < c { NeedGrows(v, i, a, b, c - 1); }
  }

  /** Block `bn` has been filled, and nothing else has become of the file's holes. */
  ghost predicate FilledOne(v: Volume, v': Volume, i: nat, bn: nat) {
    && i < |v.inodes| && i < |v'.inodes|
    && FreeCount(v'.used) + Cost(v, i, bn) == FreeCount(v.used)
    && (forall k :: 0 <= k < MAXFILE ==> (Hole(v', i, k) <==> Hole(v, i, k) && k != bn))
    && (NoIndirect(v', i) <==> NoIndirect(v, i) && bn < NDIRECT)
  }

  lemma SlotsApart(k: nat, bn: nat)
    ensures SlotOf(k) == SlotOf(bn) <==> k == bn
    ensures SlotOf(k) != NDIRECT && (k < MAXFILE ==> SlotOf(k) < NSLOT)
  {
  }

  /** An entry needs its table: beyond the direct blocks a file without indirect block is all holes. */
  lemma HoleWithout(v: Volume, i: nat, bn: nat)
    requires i < |v.inodes| && bn >= NDIRECT && NoIndirect(v, i)
    ensures Hole(v, i, bn)
  {
  }

  lemma EntryCost(v: Volume, i: nat, e: nat)
    requires i < |v.inodes| && |v.inodes[i].addrs| == NDIRECT + 1
    ensures var addr := Ref(v.disk, v.inodes[i], NDIRECT + 1 + e);
            && Cost(v, i, NDIRECT + e) == (if addr != 0 then 0 else if v.inodes[i].addrs[NDIRECT] == 0 then 2 else 1)
            && SlotOf(NDIRECT + e) == NDIRECT + 1 + e && (Hole(v, i, NDIRECT + e) <==> addr == 0)
            && (NoIndirect(v, i) <==> v.inodes[i].addrs[NDIRECT] == 0)
  {
  }

  lemma DirectCost(v: Volume, i: nat, bn: nat)
    requires i < |v.inodes| && |v.inodes[i].addrs| == NDIRECT + 1 && bn < NDIRECT
    ensures Cost(v, i, bn) == (if v.inodes[i].addrs[bn] != 0 then 0 else 1) && SlotOf(bn) == bn
    ensures Hole(v, i, bn) <==> v.inodes[i].addrs[bn] == 0
  {
  }

  lemma NamedOne(v: Volume, v': Volume, i: nat, bn: nat, b: nat)
    requires NamesAlso(v, v', i, SlotOf(bn), b) && b != 0 && bn < MAXFILE && (bn >= NDIRECT ==> !NoIndirect(v, i))
    requires FreeCount(v'.used) + 1 == FreeCount(v.used)
    ensures FilledOne(v, v', i, bn)
  {
    hide Ref, SlotOf, FreeCount;
    forall k | 0 <= k < MAXFILE ensures Hole(v', i, k) <==> Hole(v, i, k) && k != bn {
      SlotsApart(k, bn);
      assert IsSlot(v, i, SlotOf(k));
    }
    SlotsApart(bn, bn);
    assert IsSlot(v, i, NDIRECT);
  }

  lemma NamedTwo(v: Volume, v1: Volume, v2: Volume, i: nat, bn: nat, b1: nat, b2: nat)
    requires NamesAlso(v, v1, i, NDIRECT, b1) && b1 != 0 && NamesAlso(v1, v2, i, SlotOf(bn), b2)
    requires b2 != 0 && NDIRECT <= bn < MAXFILE
    requires FreeCount(v1.used) + 1 == FreeCount(v.used) && FreeCount(v2.used) + 1 == FreeCount(v1.used)
    ensures FilledOne(v, v2, i, bn)
  {
    HoleWithout(v, i, bn);
    hide Ref, SlotOf, FreeCount;
    forall k | 0 <= k < MAXFILE ensures Hole(v2, i, k) <==> Hole(v, i, k) && k != bn {
      SlotsApart(k, bn);
      assert IsSlot(v, i, SlotOf(k)) && IsSlot(v1, i, SlotOf(k));
    }
    SlotsApart(bn, bn);
    assert IsSlot(v, i, NDIRECT) && IsSlot(v1, i, NDIRECT);
  }

  lemma NamedNone(v: Volume, i: nat, bn: nat)
    requires i < |v.inodes| && !Hole(v, i, bn)
    ensures FilledOne(v, v, i, bn)
  {
    if bn >= NDIRECT && NoIndirect(v, i) { HoleWithout(v, i, bn); }
  }

  /** Blocks `a` up to `b` have been filled in order. */
  ghost predicate Filled(v: Volume, v': Volume, i: nat, a: nat, b: nat) {
    && i < |v.inodes| && i < |v'.inodes| && a <= b
    && FreeCount(v'.used) + Need(v, i, a, b) == FreeCount(v.used)
    && (forall k :: 0 <= k < MAXFILE ==> (Hole(v', i, k) <==> Hole(v, i, k) && !(a <= k < b)))
    && (NoIndirect(v', i) <==> NoIndirect(v, i) && (a == b || b <= NDIRECT))
  }

  /** Filling blocks `a` up to `b` puts a block number into the inode itself: a direct one, or the indirect block. */
  ghost predicate FillsInode(v: Volume, i: nat, a: nat, b: nat)
    requires i < |v.inodes|
  {
    (exists k :: a <= k < b && k < NDIRECT && Hole(v, i, k)) || (a < b && b > NDIRECT && NoIndirect(v, i))
  }

  /** The next block costs what the need grows by. */
  lemma CostIsNeed(v: Volume, v1: Volume, i: nat, a: nat, b: nat)
    requires Filled(v, v1, i, a, b) && b < MAXFILE
    ensures Need(v, i, a, b + 1) == Need(v, i, a, b) + Cost(v1, i, b)
  {
    hide Hole, NoIndirect, FreeCount;
    if b >= NDIRECT && NoIndirect(v, i) { HoleWithout(v, i, b); }
  }

  lemma FilledMore(v: Volume, v1: Volume, v2: Volume, i: nat, a: nat, b: nat)
    requires Filled(v, v1, i, a, b) && FilledOne(v1, v2, i, b) && b < MAXFILE
    ensures Filled(v, v2, i, a, b + 1)
  {
    CostIsNeed(v, v1, i, a, b);
    hide Hole, NoIndirect, FreeCount, Need, Cost;
  }

  lemma FilledNothing(v: Volume, i: nat, a: nat)
    requires i < |v.inodes|
    ensures Filled(v, v, i, a, a)
  {
  }

  /** The number of the block behind the `n` bytes from `off`. */
  function EndBlock(off: nat, n: nat): (b: nat) {
    if n == 0 then off / BSIZE else (off + n - 1) / BSIZE + 1
  }

  /** Every block under the `n` bytes from `off` is allocated or can be, within the largest file. */
  ghost predicate CanMap(v: Volume, i: nat, off: nat, n: nat)
    requires i < |v.inodes|
  {
    n == 0 || (EndBlock(off, n) <= MAXFILE && Need(v, i, off / BSIZE, EndBlock(off, n)) <= FreeCount(v.used))
  }

  lemma StartFill(v: Volume, i: nat, off: nat)
    requires i < |v.inodes|
    ensures Filled(v, v, i, off / BSIZE, EndBlock(off, 0))
  {
    FilledNothing(v, i, off / BSIZE);
  }

  lemma NeedNothing(v: Volume, i: nat, off: nat)
    requires i < |v.inodes|
    ensures Need(v, i, off / BSIZE, EndBlock(off, 0)) == 0
  {
  }

  /** A round of the loops over blocks that handles `q` bytes fills the next block. */
  lemma EndStep(off: nat, tot: nat, q: nat, n: nat)
    requires tot < n && (tot == 0 || (off + tot) % BSIZE == 0)
    requires q == if n - tot < BSIZE - (off + tot) % BSIZE then n - tot else BSIZE - (off + tot) % BSIZE
    ensures 0 < q && (tot + q == n || (off + tot + q) % BSIZE == 0)
    ensures (off + tot) / BSIZE == EndBlock(off, tot) < EndBlock(off, tot + q) <= EndBlock(off, n)
    ensures EndBlock(off, tot + q) == EndBlock(off, tot) + 1
  {
  }

  /** If the next block cannot be filled, the range cannot. */
  lemma CannotMap(v: Volume, v1: Volume, i: nat, off: nat, b: nat, n: nat)
    requires Filled(v, v1, i, off / BSIZE, b) && b < EndBlock(off, n) && n > 0
    requires b >= MAXFILE || Cost(v1, i, b) > FreeCount(v1.used)
    ensures !CanMap(v, i, off, n)
  {
    if b < MAXFILE {
      CostIsNeed(v, v1, i, off / BSIZE, b);
      NeedGrows(v, i, off / BSIZE, b + 1, EndBlock(off, n));
    }
  }

  /** The range can be read: its holes can be filled, or it has none if no transaction is open to fill them in. */
  ghost predicate CanRead(v: Volume, i: nat, off: nat, n: nat, open: bool)
    requires i < |v.inodes|
  {
    CanMap(v, i, off, n) && (open || n == 0 || Need(v, i, off / BSIZE, EndBlock(off, n)) == 0)
  }

  lemma CannotRead(v: Volume, v1: Volume, i: nat, off: nat, b: nat, n: nat)
    requires Filled(v, v1, i, off / BSIZE, b) && b < EndBlock(off, n) && n > 0 && Hole(v1, i, b)
    ensures !CanRead(v, i, off, n, false)
  {
    if b < MAXFILE {
      CostIsNeed(v, v1, i, off / BSIZE, b);
      NeedGrows(v, i, off / BSIZE, b + 1, EndBlock(off, n));
    }
  }

  /** No block is needed where there is no hole. */
  lemma NoNeed(v: Volume, v1: Volume, i: nat, a: nat, b: nat)
    requires Filled(v, v1, i, a, b) && b < MAXFILE && Need(v, i, a, b) == 0 && !Hole(v1, i, b)
    ensures Need(v, i, a, b + 1) == 0
  {
    CostIsNeed(v, v1, i, a, b);
  }

  lemma MapsAll(v: Volume, v1: Volume, i: nat, off: nat, n: nat)
    requires Filled(v, v1, i, off / BSIZE, EndBlock(off, n)) && (n > 0 ==> EndBlock(off, n) <= MAXFILE)
    ensures CanMap(v, i, off, n)
  {
  }

  /** Writing the bytes of a block fills no hole. */
  lemma SameHoles(v: Volume, v1: Volume, v2: Volume, i: nat, bn: nat)
    requires FilledOne(v, v1, i, bn) && v2.used == v1.used && v2.inodes == v1.inodes
    requires forall t :: 0 <= t < NSLOT ==> Ref(v2.disk, v1.inodes[i], t) == Ref(v1.disk, v1.inodes[i], t)
    ensures FilledOne(v, v2, i, bn)
  {
    hide Ref, FreeCount;
    forall k | 0 <= k < MAXFILE ensures Hole(v2, i, k) <==> Hole(v, i, k) && k != bn { SlotsApart(k, bn); }
  }
}
