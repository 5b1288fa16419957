/**
 fs.c: when the inodes on disk are those in memory. `bmap` changes an inode in memory only; `writei`
 copies it to disk only if the file grows, `readi` never does.
 */
module FsStep {
  import opened Machine
  import opened FsLayout
  import opened FsOwnership
  import opened FsSpace
  import opened FsChange

  /** The blocks under the `n` bytes from `off` have been filled, and all block numbers there were are kept. */
  ghost predicate Mapped(v: Volume, v': Volume, i: nat, off: nat, n: nat) {
    Filled(v, v', i, off / BSIZE, EndBlock(off, n)) && RefsKept(v, v')
  }

  /** Filling a range changes the inode exactly if there is a hole in the inode itself. */
  lemma AddrsKeptIff(v: Volume, v': Volume, i: nat, a: nat, b: nat)
    requires Filled(v, v', i, a, b) && RefsKept(v, v')
    requires |v.inodes[i].addrs| == |v'.inodes[i].addrs| == NDIRECT + 1
    ensures v'.inodes[i].addrs == v.inodes[i].addrs <==> !FillsInode(v, i, a, b)
  {
    hide RefsKept;
    var old_, new_ := v.inodes[i].addrs, v'.inodes[i].addrs;
    if !FillsInode(v, i, a, b) {
      forall s | 0 <= s <= NDIRECT ensures new_[s] == old_[s] {
        if old_[s] != 0 {
          SlotKept(v, v', i, s);
        } else if s < NDIRECT {
          assert Hole(v, i, s) && Hole(v', i, s);
        }
      }
    } else if k :| a <= k < b && k < NDIRECT && Hole(v, i, k) {
      assert !Hole(v', i, k);
    }
  }

  lemma SlotKept(v: Volume, v': Volume, i: nat, s: nat)
    requires RefsKept(v, v') && i < |v.inodes| && s <= NDIRECT
    requires |v.inodes[i].addrs| == |v'.inodes[i].addrs| == NDIRECT + 1 && v.inodes[i].addrs[s] != 0
    ensures v'.inodes[i].addrs[s] == v.inodes[i].addrs[s]
  {
    assert IsSlot(v, i, s) && Ref(v.disk, v.inodes[i], s) != 0;
  }

  lemma AddrsLength(v: Volume, owner: Owner, i: nat)
    requires Sound(v, owner) && i < |v.inodes|
    ensures |v.inodes[i].addrs| == NDIRECT + 1
  {
  }

  lemma CopiedRefs(v: Volume, v': Volume, i: nat, off: nat, src: Bytes)
    requires Copied(v, v', i, off, src)
    ensures RefsKept(v, v')
  {
  }

  /** The size of a file has nothing to do with its holes. */
  lemma ResizedRefs(v: Volume, i: nat, size: nat, j: nat, t: nat)
    requires i < |v.inodes| && j < |v.inodes|
    ensures Ref(Resized(v, i, size).disk, Resized(v, i, size).inodes[j], t) == Ref(v.disk, v.inodes[j], t)
  {
  }

  lemma MappedResized(v: Volume, v1: Volume, v2: Volume, i: nat, off: nat, n: nat)
    requires Mapped(v, v1, i, off, n) && i < |v.inodes|
    requires v2 == v1 || v2 == Resized(v1, i, off + n)
    ensures Mapped(v, v2, i, off, n)
  {
    if v2 != v1 {
      hide Ref, FreeCount, EndBlock;
      forall k | 0 <= k < MAXFILE ensures Hole(v2, i, k) <==> Hole(v1, i, k) {
        ResizedRefs(v1, i, off + n, i, SlotOf(k));
      }
      ResizedRefs(v1, i, off + n, i, NDIRECT);
      forall j, t | IsSlot(v, j, t) && Ref(v.disk, v.inodes[j], t) != 0
        ensures Ref(v2.disk, v2.inodes[j], t) == Ref(v.disk, v.inodes[j], t)
      {
        ResizedRefs(v1, i, off + n, j, t);
      }
    }
  }

  // ----- one range after another -----

  lemma {:induction false} HolesSplit(v: Volume, v1: Volume, i: nat, a: nat, b: nat, c: nat)
    requires Filled(v, v1, i, a, b) && b <= c <= MAXFILE
    ensures Holes(v, i, a, c) == Holes(v, i, a, b) + Holes(v1, i, b, c)
    decreases c
  {
    hide FreeCount, Hole, NoIndirect, Need;
    if b < c { HolesSplit(v, v1, i, a, b, c - 1); }
  }

  lemma {:induction false} HolesSkip(v: Volume, i: nat, b: nat, c: nat)
    requires i < |v.inodes| && b < c && !Hole(v, i, b)
    ensures Holes(v, i, b, c) == Holes(v, i, b + 1, c)
    decreases c
  {
    hide Hole;
    if b + 1 < c { HolesSkip(v, i, b, c - 1); }
  }

  /** A range right behind one that has been filled begins in its last block or behind it. */
  lemma NextRange(off: nat, s: nat, t: nat)
    requires t > 0
    ensures EndBlock(off + s, t) == EndBlock(off, s + t)
    ensures off / BSIZE <= (off + s) / BSIZE < EndBlock(off, s + t) && EndBlock(off, s) <= EndBlock(off, s + t)
    ensures (off + s) / BSIZE == EndBlock(off, s) || ((off + s) / BSIZE == EndBlock(off, s) - 1 && s > 0)
  {
  }

  /** What the second range still needs and what the first has taken are what both need together. */
  lemma NeedSplit(v: Volume, v1: Volume, i: nat, a: nat, b: nat, b': nat, c: nat)
    requires Filled(v, v1, i, a, b) && a <= b' < c <= MAXFILE && (b' == b || (b' == b - 1 && a < b)) && b <= c
    ensures Need(v, i, a, c) == Need(v, i, a, b) + Need(v1, i, b', c)
  {
    hide FreeCount, Hole, NoIndirect;
    HolesSplit(v, v1, i, a, b, c);
    if b' != b { HolesSkip(v1, i, b', c); }
  }

  /** After a range has been filled the next can be filled if and only if both could be to begin with. */
  lemma MapNextIff(v: Volume, v1: Volume, i: nat, off: nat, s: nat, t: nat)
    requires Mapped(v, v1, i, off, s) && t > 0
    ensures CanMap(v, i, off, s + t) <==> CanMap(v1, i, off + s, t)
  {
    NextRange(off, s, t);
    hide EndBlock, Need, FreeCount, RefsKept;
    if EndBlock(off, s + t) <= MAXFILE {
      NeedSplit(v, v1, i, off / BSIZE, EndBlock(off, s), (off + s) / BSIZE, EndBlock(off, s + t));
    }
  }

  lemma MappedTwice(v: Volume, v1: Volume, v2: Volume, i: nat, off: nat, s: nat, t: nat)
    requires Mapped(v, v1, i, off, s) && Mapped(v1, v2, i, off + s, t) && t > 0 && EndBlock(off, s + t) <= MAXFILE
    ensures Mapped(v, v2, i, off, s + t)
  {
    NextRange(off, s, t);
    KeptOnce(v, v1, v2);
    hide EndBlock, Need, FreeCount, RefsKept, Hole, NoIndirect;
    NeedSplit(v, v1, i, off / BSIZE, EndBlock(off, s), (off + s) / BSIZE, EndBlock(off, s + t));
  }

  lemma MappedNothing(v: Volume, i: nat, off: nat)
    requires i < |v.inodes|
    ensures Mapped(v, v, i, off, 0)
  {
    StartFill(v, i, off);
  }

  /** A shorter range can be filled if a longer one can. */
  lemma CanMapLess(v: Volume, i: nat, off: nat, m: nat, n: nat)
    requires i < |v.inodes| && m <= n && CanMap(v, i, off, n)
    ensures CanMap(v, i, off, m)
  {
    if m > 0 { NeedGrows(v, i, off / BSIZE, EndBlock(off, m), EndBlock(off, n)); }
  }

  // ----- in step -----

  /** What `writei` does to the inodes on disk: it copies inode `i` there exactly if the file grows. */
  ghost function Updated(v: Volume, v': Volume, i: nat, end: nat, dinodes: seq<Inode>): (d: seq<Inode>)
    requires i < |v.inodes| == |v'.inodes| == |dinodes|
    ensures |d| == |dinodes|
  {
    if end > v.inodes[i].size then dinodes[i := v'.inodes[i]] else dinodes
  }

  /** The write leaves nothing in memory that it does not copy to disk. */
  ghost predicate KeepsStep(v: Volume, i: nat, off: nat, n: nat)
    requires i < |v.inodes|
  {
    off + n > v.inodes[i].size || !FillsInode(v, i, off / BSIZE, EndBlock(off, n))
  }

  /** A write keeps disk and memory in step if and only if the file grows or no hole is filled in the inode itself. */
  lemma StepIff(v: Volume, v': Volume, i: nat, off: nat, src: Bytes)
    requires Mapped(v, v', i, off, |src|) && Wrote(v, v', i, off, src)
    requires |v.inodes[i].addrs| == |v'.inodes[i].addrs| == NDIRECT + 1
    ensures Updated(v, v', i, off + |src|, v.inodes) == v'.inodes <==> KeepsStep(v, i, off, |src|)
  {
    hide RefsKept, FillsInode, Contents, Filled, EndBlock;
    AddrsKeptIff(v, v', i, off / BSIZE, EndBlock(off, |src|));
  }

  lemma ReadStep(v: Volume, v': Volume, i: nat, off: nat, n: nat)
    requires i < |v.inodes| && Mapped(v, v', i, off, n) && OnlyAddrs(v, v', i)
    requires |v.inodes[i].addrs| == |v'.inodes[i].addrs| == NDIRECT + 1
    ensures v'.inodes == v.inodes <==> !FillsInode(v, i, off / BSIZE, EndBlock(off, n))
  {
    hide RefsKept, FillsInode, Filled, EndBlock;
    AddrsKeptIff(v, v', i, off / BSIZE, EndBlock(off, n));
  }

  // ----- what falling behind means -----

  /** The inodes `d` are those of `v`, except that inode `i` lacks block numbers. */
  ghost predicate Behind(v: Volume, d: seq<Inode>, i: nat) {
    && i < |v.inodes| == |d| && |d[i].addrs| == NDIRECT + 1
    && (forall j :: 0 <= j < |d| && j != i ==> d[j] == v.inodes[j])
    && (forall s :: 0 <= s < |v.inodes[i].addrs| && s <= NDIRECT ==>
          d[i].addrs[s] == v.inodes[i].addrs[s] || d[i].addrs[s] == 0)
  }

  lemma BehindRef(v: Volume, d: seq<Inode>, i: nat, j: int, t: int)
    requires WellFormed(v) && Behind(v, d, i) && IsSlot(v, j, t)
    ensures var b := Ref(v.disk, d[j], t); b == Ref(v.disk, v.inodes[j], t) || b == 0
  {
  }

  /** A block that only the memory knows has its bit set and belongs to nobody: the disk is sound for no owners. */
  lemma BlockLost(v: Volume, owner: Owner, d: seq<Inode>, i: nat, s: nat, owner': Owner)
    requires Sound(v, owner) && Behind(v, d, i) && s <= NDIRECT && v.inodes[i].addrs[s] != 0 == d[i].addrs[s]
    ensures !Sound(v.(inodes := d), owner')
  {
    var b, w := v.inodes[i].addrs[s], v.(inodes := d);
    OwnerOf(v, owner, i, s);
    assert v.used[b] && v.start <= b;
    if Sound(w, owner') {
      assert b in owner';
      var (j, t) := owner'[b];
      BehindRef(v, d, i, j, t);
      OwnerOf(v, owner, j, t);
    }
  }

  /** The disk, with the inodes on it, is sound for some owners if and only if it is in step. */
  lemma SoundOnDiskIff(v: Volume, owner: Owner, d: seq<Inode>, i: nat)
    requires Sound(v, owner) && Behind(v, d, i) && d[i].kind == v.inodes[i].kind && d[i].size == v.inodes[i].size
    ensures (exists owner' :: Sound(v.(inodes := d), owner')) <==> d == v.inodes
  {
    hide NamedAreOwned, OwnedAreNamed, BitmapOk;
    if s :| 0 <= s <= NDIRECT && d[i].addrs[s] != v.inodes[i].addrs[s] {
      forall owner' ensures !Sound(v.(inodes := d), owner') { BlockLost(v, owner, d, i, s, owner'); }
    } else {
      assert d[i].addrs == v.inodes[i].addrs;
      assert d[i] == v.inodes[i];
      assert d == v.inodes && v.(inodes := d) == v;
    }
  }

  lemma StaysBehind(v: Volume, v': Volume, i: nat)
    requires i < |v.inodes| == |v'.inodes| && RefsKept(v, v')
    requires |v.inodes[i].addrs| == |v'.inodes[i].addrs| == NDIRECT + 1
    requires forall j :: 0 <= j < |v.inodes| && j != i ==> v'.inodes[j] == v.inodes[j]
    ensures Behind(v', v.inodes, i)
  {
    hide RefsKept;
    forall s | 0 <= s <= NDIRECT
      ensures v.inodes[i].addrs[s] == v'.inodes[i].addrs[s] || v.inodes[i].addrs[s] == 0
    {
      if v.inodes[i].addrs[s] != 0 { SlotKept(v, v', i, s); }
    }
  }

  /** After a write to a disk that was in step the disk is sound if and only if the write keeps step. */
  lemma WriteSoundIff(v: Volume, v': Volume, owner': Owner, i: nat, off: nat, src: Bytes)
    requires Mapped(v, v', i, off, |src|) && Wrote(v, v', i, off, src) && Sound(v', owner')
    requires |v.inodes[i].addrs| == NDIRECT + 1
    ensures var d := Updated(v, v', i, off + |src|, v.inodes);
            (exists o :: Sound(v'.(inodes := d), o)) <==> KeepsStep(v, i, off, |src|)
  {
    var d := Updated(v, v', i, off + |src|, v.inodes);
    StepIff(v, v', i, off, src);
    hide RefsKept, FillsInode, Contents, Filled, EndBlock, NamedAreOwned, OwnedAreNamed, BitmapOk;
    if off + |src| > v.inodes[i].size {
      assert v'.(inodes := d) == v';
    } else {
      StaysBehind(v, v', i);
      SoundOnDiskIff(v', owner', d, i);
    }
  }

  /** The same after a read, which never copies the inode to disk. */
  lemma ReadSoundIff(v: Volume, v': Volume, owner': Owner, i: nat, off: nat, n: nat)
    requires i < |v.inodes| && Mapped(v, v', i, off, n) && OnlyAddrs(v, v', i) && Sound(v', owner')
    requires |v.inodes[i].addrs| == NDIRECT + 1
    ensures (exists o :: Sound(v'.(inodes := v.inodes), o)) <==> !FillsInode(v, i, off / BSIZE, EndBlock(off, n))
  {
    ReadStep(v, v', i, off, n);
    hide RefsKept, FillsInode, Filled, EndBlock, NamedAreOwned, OwnedAreNamed, BitmapOk;
    StaysBehind(v, v', i);
    SoundOnDiskIff(v', owner', v.inodes, i);
  }
}
