/**
 fs.c: block allocation, the block map of an inode, truncation, and reading and writing a
 file's bytes. `v` is the volume as seen through the buffer cache and the inode cache,
 `dinodes` the inodes on disk, `logged` the blocks passed to `log_write` so far.
 */
module Fs {
  import opened Machine
  import opened FsLayout
  import opened FsOwnership
  import opened FsChange
  import opened FsSpace
  import opened FsStep

  class FileSystem {
    const inodestart: nat
    const bmapstart: nat
    var v: Volume
    var dinodes: seq<Inode>
    ghost var owner: Owner
    ghost var logged: set<nat>

    ghost predicate Valid()
      reads this
    {
      Sound(v, owner) && |dinodes| == |v.inodes|
    }

    /** A volume whose inodes are all unused, with its metadata in the blocks below `start`. */
    constructor (inodestart: nat, bmapstart: nat, start: nat, blocks: nat, inodes: nat)
      requires 1 <= start <= blocks < WRAP
      ensures Valid() && owner == map[] && |v.used| == blocks && |v.inodes| == inodes && dinodes == v.inodes
    {
      this.inodestart, this.bmapstart := inodestart, bmapstart;
      v := Volume(start, seq(blocks, b => b < start), seq(blocks, _ => Zeroes()),
                  seq(inodes, _ => Inode(FileType.Free, 0, seq(NDIRECT + 1, _ => 0))));
      dinodes := seq(inodes, _ => Inode(FileType.Free, 0, seq(NDIRECT + 1, _ => 0)));
      owner, logged := map[], {};
    }

    /** The block of the bitmap that holds the bit of block `b`. */
    function Bblock(b: nat): (r: nat)
      ensures b < BPB ==> r == bmapstart
    {
      b / BPB + bmapstart
    }

    function Iblock(i: nat): nat {
      i / IPB + inodestart
    }

    /** Take the first block whose bit is clear, set the bit and zero the block; 0 stands for the panic. */
    method Balloc() returns (b: nat)
      requires WellFormed(v) && v.used[0]
      modifies this`v, this`logged
      ensures b == 0 <==> forall c :: 0 <= c < |old(v).used| ==> old(v).used[c]
      ensures b == 0 ==> v == old(v) && logged == old(logged)
      ensures b != 0 ==> b < |old(v).used| && !old(v).used[b] && (forall c :: 0 <= c < b ==> old(v).used[c])
      ensures b != 0 ==> v == Balloced(old(v), b) && logged == old(logged) + {Bblock(b), b}
    {
      var base := 0;
      while base < |v.used|
        invariant 0 <= base
        invariant forall c :: 0 <= c < base && c < |v.used| ==> v.used[c]
      {
        var bi := 0;
        while bi < BPB && base + bi < |v.used|
          invariant 0 <= bi <= BPB
          invariant forall c :: 0 <= c < base + bi && c < |v.used| ==> v.used[c]
        {
          if !v.used[base + bi] {
            b := base + bi;
            v := v.(used := v.used[b := true], disk := v.disk[b := Zeroes()]);
            logged := logged + {Bblock(b), b};
            return;
          }
          bi := bi + 1;
        }
        base := base + BPB;
      }
      return 0;
    }

    /** Clear the bit of block `b`; false stands for the panic "freeing free block". */
    method Bfree(b: nat) returns (ok: bool)
      requires b < |v.used|
      modifies this`v, this`logged
      ensures ok == old(v).used[b]
      ensures v == old(v).(used := old(v).used[b := false])
      ensures logged == if ok then old(logged) + {Bblock(b)} else old(logged)
    {
      if !v.used[b] {
        return false;
      }
      v := v.(used := v.used[b := false]);
      logged := logged + {Bblock(b)};
      return true;
    }

    /** Copy inode `i` to disk. */
    method Iupdate(i: nat)
      requires i < |v.inodes| == |dinodes|
      modifies this`dinodes, this`logged
      ensures dinodes == old(dinodes)[i := v.inodes[i]] && logged == old(logged) + {Iblock(i)}
    {
      dinodes := dinodes[i := v.inodes[i]];
      logged := logged + {Iblock(i)};
    }

    /** Fill an empty direct slot, or the empty indirect slot, with a fresh block. */
    method AllocAddr(i: nat, s: nat) returns (b: nat)
      requires Valid() && i < |v.inodes| && s <= NDIRECT && v.inodes[i].addrs[s] == 0
      modifies this`v, this`owner, this`logged
      ensures Valid() && SameBytes(old(v), v) && OnlyAddrs(old(v), v, i)
      ensures b == 0 ==> v == old(v) && owner == old(owner) && logged == old(logged)
      ensures b == 0 ==> forall c :: 0 <= c < |v.used| ==> v.used[c]
      ensures |v.used| == |old(v).used| && b < |v.used| && (|v.used| <= BPB ==> Bblock(b) == bmapstart)
      ensures b != 0 ==> b !in old(owner) && owner == old(owner)[b := (i, s)] && NamesAlso(old(v), v, i, s, b)
      ensures b != 0 ==> v.inodes[i].addrs[s] == b && b < |v.disk| && v.disk[b] == Zeroes()
      ensures b != 0 ==> logged == old(logged) + {Bblock(b), b}
      ensures if b == 0 then FreeCount(v.used) == 0 else FreeCount(v.used) + 1 == FreeCount(old(v).used)
    {
      hide SetEntry, NamesAlso, SameBytes, Bblock, FreeCount;
      ghost var v0 := v;
      NoneFree(v.used);
      b := Balloc();
      if b != 0 {
        FreeTaken(v0.used, b);
        AllocDirect(v0, owner, i, s, b);
        DirectKeepsBytes(v0, owner, i, s, b);
        DirectNames(v0, owner, i, s, b);
        v := SetAddr(v, i, s, b);
        owner := owner[b := (i, s)];
      } else {
        NothingMoves(v);
      }
    }

    /** Fill an empty entry of the indirect block with a fresh block. */
    method AllocEntryOf(i: nat, e: nat) returns (b: nat)
      requires Valid() && i < |v.inodes| && e < NINDIRECT
      requires v.inodes[i].addrs[NDIRECT] != 0 && Ref(v.disk, v.inodes[i], NDIRECT + 1 + e) == 0
      modifies this`v, this`owner, this`logged
      ensures Valid() && SameBytes(old(v), v) && OnlyAddrs(old(v), v, i)
      ensures b == 0 ==> v == old(v) && owner == old(owner) && logged == old(logged)
      ensures b == 0 ==> forall c :: 0 <= c < |v.used| ==> v.used[c]
      ensures |v.used| == |old(v).used| && b < |v.used| && (|v.used| <= BPB ==> Bblock(b) == bmapstart)
      ensures b != 0 ==> b !in old(owner) && owner == old(owner)[b := (i, NDIRECT + 1 + e)]
      ensures b != 0 ==> NamesAlso(old(v), v, i, NDIRECT + 1 + e, b)
      ensures v.inodes == old(v).inodes
      ensures b != 0 ==> logged == old(logged) + {Bblock(b), b, v.inodes[i].addrs[NDIRECT]}
      ensures if b == 0 then FreeCount(v.used) == 0 else FreeCount(v.used) + 1 == FreeCount(old(v).used)
    {
      hide SetAddr, SetEntry, NamesAlso, SameBytes, Bblock, Balloced, Word, PutWord, OnlyAddrs, FreeCount;
      ghost var v0 := v;
      IndirectIsOwned(v, owner, i);
      NoneFree(v.used);
      b := Balloc();
      if b != 0 {
        TakenCount(v0, b);
        AllocEntry(v0, owner, i, e, b);
        EntryKeepsBytes(v0, owner, i, e, b);
        EntryNames(v0, owner, i, e, b);
        EntryRef(v0, owner, i, e);
        InodesKept(v0, SetEntry(v, i, e, b), i);
        v := SetEntry(v, i, e, b);
        owner := owner[b := (i, NDIRECT + 1 + e)];
        logged := logged + {v.inodes[i].addrs[NDIRECT]};
      } else {
        NothingMoves(v);
      }
    }

    /** `bmap` for block number NDIRECT + `e`: load the indirect block, allocating it if need be, then its entry. */
    method MapIndirect(i: nat, e: nat) returns (addr: nat)
      requires Valid() && i < |v.inodes| && e < NINDIRECT
      modifies this`v, this`owner, this`logged
      ensures Valid() && SameBytes(old(v), v) && OnlyAddrs(old(v), v, i) && RefsKept(old(v), v)
      ensures addr != 0 ==> Ref(v.disk, v.inodes[i], NDIRECT + 1 + e) == addr
      ensures addr != 0 ==> addr in owner && owner[addr] == (i, NDIRECT + 1 + e)
      ensures addr == 0 ==> forall c :: 0 <= c < |v.used| ==> v.used[c]
      ensures Ref(old(v).disk, old(v).inodes[i], NDIRECT + 1 + e) != 0 ==>
                && addr == Ref(old(v).disk, old(v).inodes[i], NDIRECT + 1 + e)
                && v == old(v) && owner == old(owner) && logged == old(logged)
      ensures addr != 0 ==> v.inodes[i].addrs[NDIRECT] != 0
      ensures addr != 0 && |v.used| <= BPB ==> logged <= old(logged) + {bmapstart, addr, v.inodes[i].addrs[NDIRECT]}
      ensures if Cost(old(v), i, NDIRECT + e) > FreeCount(old(v).used) then addr == 0
              else addr != 0 && FilledOne(old(v), v, i, NDIRECT + e)
    {
      hide SetAddr, SetEntry, SameBytes, Balloced, Zeroes, OnlyAddrs, RefsKept, Ref, Word, Bblock, NamesAlso;
      hide Cost, Hole, NoIndirect, FilledOne, FreeCount, SlotOf, Sound;
      ghost var v0 := v;
      EntryRef(v, owner, i, e);
      EntryCost(v, i, e);
      NothingMoves(v);
      NamesAlsoKeeps(v, v, i, 0, 0);
      addr := v.inodes[i].addrs[NDIRECT];
      if addr == 0 {
        addr := AllocAddr(i, NDIRECT);
        NamesAlsoKeeps(v0, v, i, NDIRECT, addr);
        if addr == 0 {
          return;
        }
      }
      ghost var v1, ind := v, addr;
      EntryRef(v, owner, i, e);
      EntryCost(v, i, e);
      addr := Word(v.disk[addr], e);
      if addr == 0 {
        addr := AllocEntryOf(i, e);
        NamesAlsoKeeps(v1, v, i, NDIRECT + 1 + e, addr);
        KeptTwice(v0, v1, v, i);
        if addr != 0 {
          EntryIsNamed(v1, v, i, NDIRECT + 1 + e, addr);
          if v0.inodes[i].addrs[NDIRECT] == 0 {
            NamedTwo(v0, v1, v, i, NDIRECT + e, ind, addr);
          } else {
            NamedOne(v0, v, i, NDIRECT + e, addr);
          }
        }
      } else {
        OwnerOf(v, owner, i, NDIRECT + 1 + e);
        EntryStays(v0, v1, i, NDIRECT, NDIRECT + 1 + e, ind);
        NamedNone(v, i, NDIRECT + e);
      }
    }

    /** Give back the block in slot `s`, if there is one; its bit is set, so `bfree` cannot panic. */
    method FreeSlot(b: nat, ghost v0: Volume, i: nat, s: nat, ghost done: Progress, ghost next: Progress)
      requires Sound(v0, owner) && IsSlot(v0, i, s) && Then(done, next, s) && b == Ref(v0.disk, v0.inodes[i], s)
      requires |v.used| == |v0.used| && Freed(v0, owner, i, done, v.used)
      modifies this`v, this`logged
      ensures v == old(v).(used := v.used) && |v.used| == |v0.used|
      ensures Freed(v0, owner, i, next, v.used)
      ensures |v.used| <= BPB ==> logged <= old(logged) + {bmapstart}
    {
      FreedMore(v0, owner, i, done, next, v.used, s);
      if b != 0 {
        OwnerOf(v0, owner, i, s);
        hide Sound, Freed, Ref;
        var ok := Bfree(b);
        assert ok;
      }
    }

    method FreeDirect(i: nat)
      requires Valid() && i < |v.inodes|
      modifies this`v, this`logged
      ensures |v.used| == |old(v).used| && Freed(old(v), owner, i, Progress(NDIRECT, 0, false), v.used)
      ensures |old(v).inodes[i].addrs| == NDIRECT + 1
      ensures v == old(v).(used := v.used, inodes := old(v).inodes[i := Cleared(old(v).inodes[i], NDIRECT)])
      ensures |v.used| <= BPB ==> logged <= old(logged) + {bmapstart}
    {
      ghost var v0 := v;
      hide Sound, Freed, Ref, Cleared, Then;
      FreedNone(v, owner, i);
      var k := 0;
      while k < NDIRECT
        invariant 0 <= k <= NDIRECT
        invariant |v.used| == |v0.used| && Freed(v0, owner, i, Progress(k, 0, false), v.used)
        invariant |v0.inodes[i].addrs| == NDIRECT + 1
        invariant v == v0.(used := v.used, inodes := v0.inodes[i := Cleared(v0.inodes[i], k)])
        invariant |v.used| <= BPB ==> logged <= old(logged) + {bmapstart}
      {
        SlotRef(v0, owner, i, k);
        ClearedMore(v0.inodes[i], k);
        DirectThen(k);
        if v.inodes[i].addrs[k] != 0 {
          FreeSlot(v.inodes[i].addrs[k], v0, i, k, Progress(k, 0, false), Progress(k + 1, 0, false));
          v := v.(inodes := v.inodes[i := v.inodes[i].(addrs := v.inodes[i].addrs[k := 0])]);
        } else {
          FreedMore(v0, owner, i, Progress(k, 0, false), Progress(k + 1, 0, false), v.used, k);
        }
        k := k + 1;
      }
    }

    method FreeEntries(i: nat, ghost v0: Volume)
      requires Sound(v0, owner) && i < |v0.inodes| && v0.inodes[i].addrs[NDIRECT] != 0
      requires |v.inodes| == |v0.inodes| && v.disk == v0.disk && |v.used| == |v0.used|
      requires |v.inodes[i].addrs| == NDIRECT + 1 && v.inodes[i].addrs[NDIRECT] == v0.inodes[i].addrs[NDIRECT]
      requires Freed(v0, owner, i, Progress(NDIRECT, 0, false), v.used)
      modifies this`v, this`logged
      ensures v == old(v).(used := v.used) && |v.used| == |v0.used|
      ensures Freed(v0, owner, i, Progress(NDIRECT, NINDIRECT, false), v.used)
      ensures |v.used| <= BPB ==> logged <= old(logged) + {bmapstart}
    {
      EntryRef(v0, owner, i, 0);
      hide Sound, Freed, Ref, Word, Then, IsSlot;
      var a := v.disk[v.inodes[i].addrs[NDIRECT]];
      var j := 0;
      while j < NINDIRECT
        invariant 0 <= j <= NINDIRECT
        invariant v == old(v).(used := v.used) && |v.used| == |v0.used|
        invariant Freed(v0, owner, i, Progress(NDIRECT, j, false), v.used)
        invariant |v.used| <= BPB ==> logged <= old(logged) + {bmapstart}
      {
        EntryRef(v0, owner, i, j);
        EntryThen(j);
        if Word(a, j) != 0 {
          FreeSlot(Word(a, j), v0, i, NDIRECT + 1 + j, Progress(NDIRECT, j, false), Progress(NDIRECT, j + 1, false));
        } else {
          FreedMore(v0, owner, i, Progress(NDIRECT, j, false), Progress(NDIRECT, j + 1, false), v.used,
                    NDIRECT + 1 + j);
        }
        j := j + 1;
      }
    }

    /** The blocks of inode `i` are given back and its block numbers cleared. */
    method FreeBlocks(i: nat)
      requires Valid() && i < |v.inodes|
      modifies this`v, this`logged
      ensures |v.used| == |old(v).used| && Freed(old(v), owner, i, Progress(NDIRECT, NINDIRECT, true), v.used)
      ensures |old(v).inodes[i].addrs| == NDIRECT + 1
      ensures v == old(v).(used := v.used, inodes := old(v).inodes[i := Cleared(old(v).inodes[i], NDIRECT + 1)])
      ensures |v.used| <= BPB ==> logged <= old(logged) + {bmapstart}
    {
      ghost var v0 := v;
      hide Sound, Freed, Ref, Cleared, Then;
      FreeDirect(i);
      SlotRef(v0, owner, i, NDIRECT);
      ClearedMore(v0.inodes[i], NDIRECT);
      if v.inodes[i].addrs[NDIRECT] != 0 {
        FreeEntries(i, v0);
        IndirectThen();
        FreeSlot(v.inodes[i].addrs[NDIRECT], v0, i, NDIRECT, Progress(NDIRECT, NINDIRECT, false),
                 Progress(NDIRECT, NINDIRECT, true));
        v := v.(inodes := v.inodes[i := v.inodes[i].(addrs := v.inodes[i].addrs[NDIRECT := 0])]);
      } else {
        FreedNoIndirect(v0, owner, i, v.used);
      }
    }

    /** Discard the contents of inode `i`: exactly the blocks it owned are given back. */
    method Itrunc(i: nat)
      requires Valid() && i < |v.inodes|
      modifies this
      ensures Valid() && owner == Others(old(owner), i)
      ensures v == Truncated(old(v), i).(used := v.used)
      ensures |v.used| == |old(v).used| && forall b :: 0 <= b < |v.used| ==>
                (v.used[b] <==> old(v).used[b] && !(b in old(owner) && old(owner)[b].0 == i))
      ensures dinodes == old(dinodes)[i := v.inodes[i]]
      ensures |v.used| <= BPB ==> |logged - old(logged)| <= 2
    {
      ghost var v0 := v;
      hide Sound, Freed, Others, Cleared;
      FreeBlocks(i);
      ClearedAll(v0.inodes[i]);
      FreedAll(v0, owner, i, v.used);
      v := v.(inodes := v.inodes[i := v.inodes[i].(size := 0)]);
      assert v == Truncated(v0, i).(used := v.used);
      owner := Others(owner, i);
      Iupdate(i);
      LoggedTwo(old(logged), logged, bmapstart, Iblock(i));
    }

    /** The disk block that holds block `bn` of the file, allocated if need be; 0 stands for a panic. */
    method Bmap(i: nat, bn: nat) returns (addr: nat)
      requires Valid() && i < |v.inodes|
      modifies this`v, this`owner, this`logged
      ensures Valid() && SameBytes(old(v), v) && OnlyAddrs(old(v), v, i) && RefsKept(old(v), v)
      ensures addr != 0 ==> bn < MAXFILE && Ref(v.disk, v.inodes[i], SlotOf(bn)) == addr
      ensures addr != 0 ==> addr in owner && owner[addr] == (i, SlotOf(bn))
      ensures addr == 0 ==> bn >= MAXFILE || forall c :: 0 <= c < |v.used| ==> v.used[c]
      ensures bn < MAXFILE && Ref(old(v).disk, old(v).inodes[i], SlotOf(bn)) != 0 ==>
                && addr == Ref(old(v).disk, old(v).inodes[i], SlotOf(bn))
                && v == old(v) && owner == old(owner) && logged == old(logged)
      ensures addr != 0 && |v.used| <= BPB ==> logged <= old(logged) + {bmapstart, addr} + IndirectOf(v, i)
      ensures if bn >= MAXFILE || Cost(old(v), i, bn) > FreeCount(old(v).used) then addr == 0
              else addr != 0 && FilledOne(old(v), v, i, bn)
    {
      hide SetAddr, SetEntry, SameBytes, Balloced, OwnedAreNamed, BitmapOk, Cost, Hole, FilledOne, FreeCount;
      ghost var v0 := v;
      NothingMoves(v);
      if bn < NDIRECT {
        DirectCost(v, i, bn);
        addr := v.inodes[i].addrs[bn];
        if addr == 0 {
          addr := AllocAddr(i, bn);
          NamesAlsoKeeps(v0, v, i, bn, addr);
          if addr != 0 { NamedOne(v0, v, i, bn, addr); }
        } else {
          OwnerOf(v, owner, i, bn);
          NamedNone(v, i, bn);
        }
        return;
      }
      if bn < MAXFILE {
        addr := MapIndirect(i, bn - NDIRECT);
        return;
      }
      return 0;
    }

    /**
     Read up to `n` bytes from `off`; `open` says that some transaction is open. Holes read as zeroes;
     a file without holes is read without changing anything.
     */
    method Readi(i: nat, off: nat, n: nat, open: bool) returns (r: Io, dst: Bytes)
      requires Valid() && i < |v.inodes| && off < WRAP && n < WRAP
      modifies this`v, this`owner, this`logged
      ensures Valid() && SameBytes(old(v), v) && OnlyAddrs(old(v), v, i)
      ensures ReadAnswers(old(v), v, i, off, n, open, r, dst)
      ensures r.Count? ==> Mapped(old(v), v, i, off, r.n)
      ensures FileOk(old(v), i) ==> r != Panic && v == old(v) && owner == old(owner) && logged == old(logged)
    {
      hide Sound, SameBytes, OnlyAddrs, Mapped, ByteAt, Ref, CanRead, FileOk, FillsInode, EndBlock;
      AddrsLength(v, owner, i);
      NothingMoves(v);
      dst := [];
      if v.inodes[i].kind == Dev {
        return Device, dst;
      }
      if off > v.inodes[i].size || (off + n) % WRAP < off {
        return Fail, dst;
      }
      var m := if off + n > v.inodes[i].size then v.inodes[i].size - off else n;
      var ok;
      ok, dst := CopyOut(i, off, m, open);
      if ok {
        AddrsLength(v, owner, i);
        ReadStep(old(v), v, i, off, m);
      }
      return if ok then Count(m) else Panic, dst;
    }

    /** The loop of `readi`: block by block, collect the `m` bytes from `off` on. */
    method CopyOut(i: nat, off: nat, m: nat, open: bool) returns (ok: bool, dst: Bytes)
      requires Valid() && i < |v.inodes| && off + m <= v.inodes[i].size
      modifies this`v, this`owner, this`logged
      ensures Valid() && SameBytes(old(v), v) && OnlyAddrs(old(v), v, i)
      ensures ok <==> CanRead(old(v), i, off, m, open)
      ensures ok ==> Mapped(old(v), v, i, off, m) && dst == Flat(old(v).disk, old(v).inodes[i], off + m)[off..]
      ensures FileOk(old(v), i) ==> ok && v == old(v) && owner == old(owner) && logged == old(logged)
    {
      hide Sound, SameBytes, OnlyAddrs, RefsKept, ByteAt, Ref, FileOk;
      hide EndBlock, CanMap, Filled, FilledOne, Cost, FreeCount, Hole, Need;
      ghost var v0, a := v, off / BSIZE;
      NothingMoves(v);
      NamesAlsoKeeps(v, v, i, 0, 0);
      StartFill(v, i, off);
      NeedNothing(v, i, off);
      dst := [];
      var tot := 0;
      while tot < m
        invariant 0 <= tot <= m && |dst| == tot && (tot == 0 || tot == m || (off + tot) % BSIZE == 0)
        invariant Valid() && i < |v.inodes| && SameBytes(v0, v) && OnlyAddrs(v0, v, i) && RefsKept(v0, v)
        invariant forall k :: 0 <= k < tot ==> dst[k] == ByteAt(v0.disk, v0.inodes[i], off + k)
        invariant Filled(v0, v, i, a, EndBlock(off, tot)) && (tot > 0 ==> EndBlock(off, tot) <= MAXFILE)
        invariant !open ==> Need(v0, i, a, EndBlock(off, tot)) == 0
        invariant FileOk(v0, i) ==> v == v0 && owner == old(owner) && logged == old(logged)
      {
        var at := off + tot;
        var q := Min(m - tot, BSIZE - at % BSIZE);
        ghost var v1 := v;
        EndStep(off, tot, q, m);
        if FileOk(v0, i) { HeldInFile(v0, i, at); }
        if !open && Hole(v, i, at / BSIZE) {
          CannotRead(v0, v, i, off, EndBlock(off, tot), m);
          return false, dst;      // log_write outside of trans
        }
        var addr := Bmap(i, at / BSIZE);
        KeptTwice(v0, v1, v, i);
        if addr == 0 {
          CannotMap(v0, v1, i, off, EndBlock(off, tot), m);
          return false, dst;
        }
        FilledMore(v0, v1, v, i, a, EndBlock(off, tot));
        if !open { NoNeed(v0, v1, i, a, EndBlock(off, tot)); }
        ghost var part := ReadBlock(v0, v1, v, owner, i, at, q, addr);
        dst := dst + v.disk[addr][at % BSIZE..at % BSIZE + q];
        tot := tot + q;
      }
      MapsAll(v0, v, i, off, m);
      return true, dst;
    }

    /** One round of the loop of `writei`: map the block, lay `part` over it, log it. */
    method PutPart(i: nat, at: nat, part: Bytes) returns (addr: nat)
      requires Valid() && i < |v.inodes| && 0 < |part| && at % BSIZE + |part| <= BSIZE && at + |part| <= MAXFILE * BSIZE
      modifies this`v, this`owner, this`logged
      ensures Valid() && OnlyAddrs(old(v), v, i) && RefsKept(old(v), v)
      ensures addr != 0 ==> BytesPut(old(v), v, i, at, part) && Ref(v.disk, v.inodes[i], SlotOf(at / BSIZE)) == addr
      ensures addr == 0 ==> forall c :: 0 <= c < |v.used| ==> v.used[c]
      ensures Ref(old(v).disk, old(v).inodes[i], SlotOf(at / BSIZE)) != 0 ==> v.inodes == old(v).inodes
      ensures addr != 0 && |v.used| <= BPB ==> logged <= old(logged) + {bmapstart, addr} + IndirectOf(v, i)
      ensures if Cost(old(v), i, at / BSIZE) > FreeCount(old(v).used) then addr == 0
              else addr != 0 && FilledOne(old(v), v, i, at / BSIZE)
    {
      hide Sound, SameBytes, RefsKept, BytesPut, Ref, ByteAt, Overlay, Cost, FilledOne, FreeCount;
      ghost var v0 := v;
      addr := Bmap(i, at / BSIZE);
      if addr == 0 {
        return;
      }
      ghost var v1 := v;
      OverlayPuts(v, owner, i, at, part, addr);
      OverlayKeeps(v, owner, i, addr, Overlay(v.disk[addr], at % BSIZE, part));
      PutAfterMap(v0, v1, v1.(disk := v1.disk[addr := Overlay(v1.disk[addr], at % BSIZE, part)]), i, at, part);
      v := v.(disk := v.disk[addr := Overlay(v.disk[addr], at % BSIZE, part)]);
      SameHoles(v0, v1, v, i, at / BSIZE);
      logged := logged + {addr};
    }

    /** The loop of `writei`: block by block, put the bytes of `src` at `off` on. */
    method CopyIn(i: nat, off: nat, src: Bytes) returns (ok: bool)
      requires Valid() && i < |v.inodes| && off <= v.inodes[i].size && off + |src| <= MAXFILE * BSIZE
      modifies this`v, this`owner, this`logged
      ensures Valid() && |v.used| == |old(v).used| && |v.inodes| == |old(v).inodes|
      ensures !ok ==> forall c :: 0 <= c < |v.used| ==> v.used[c]
      ensures ok <==> CanMap(old(v), i, off, |src|)
      ensures ok ==> Copied(old(v), v, i, off, src) && Mapped(old(v), v, i, off, |src|)
      ensures ok && |v.used| <= BPB ==> |logged - old(logged)| <= Blocks(off, off + |src|) + 2
    {
      hide Sound, OnlyAddrs, RefsKept, BytesPut, Ref, Blocks, IndirectOf, Copied;
      hide EndBlock, CanMap, Filled, FilledOne, Cost, FreeCount;
      ghost var v0, a := v, off / BSIZE;
      CopiedNothing(v, i, off, src);
      StartFill(v, i, off);
      ghost var touched: set<nat> := {};
      var n, tot := |src|, 0;
      while tot < n
        invariant 0 <= tot <= n && (tot == 0 || tot == n || (off + tot) % BSIZE == 0)
        invariant Valid() && i < |v.inodes| && Copied(v0, v, i, off, src[..tot])
        invariant |v.used| == |v0.used| && |v.inodes| == |v0.inodes|
        invariant |touched| <= Blocks(off, off + tot)
        invariant Filled(v0, v, i, a, EndBlock(off, tot)) && (tot > 0 ==> EndBlock(off, tot) <= MAXFILE)
        invariant |v.used| <= BPB ==> logged <= old(logged) + {bmapstart} + touched + IndirectOf(v, i)
      {
        var q := Min(n - tot, BSIZE - (off + tot) % BSIZE);
        ghost var v1 := v;
        BlocksStep(off, tot, q, n);
        EndStep(off, tot, q, n);
        var addr := PutPart(i, off + tot, src[tot..tot + q]);
        OnlyAddrsSizes(v1, v, i);
        if addr == 0 {
          CannotMap(v0, v1, i, off, EndBlock(off, tot), n);
          return false;
        }
        FilledMore(v0, v1, v, i, a, EndBlock(off, tot));
        CopiedMore(v0, v1, v, i, off, src, tot, q);
        IndirectGrows(v1, v, owner, i);
        AddOne(touched, addr);
        touched := touched + {addr};
        tot := tot + q;
      }
      assert src[..n] == src;
      MapsAll(v0, v, i, off, n);
      CopiedRefs(v0, v, i, off, src);
      if |v.used| <= BPB { LoggedFew(old(logged), logged, touched, v, i, bmapstart); }
      return true;
    }

    /** `writei` once the range has been checked: copy the bytes in, then set the size. */
    method WriteChecked(i: nat, off: nat, src: Bytes) returns (ok: bool)
      requires Valid() && i < |v.inodes| && off <= v.inodes[i].size && off + |src| <= MAXFILE * BSIZE
      modifies this
      ensures Valid() && |v.used| == |old(v).used|
      ensures ok <==> CanMap(old(v), i, off, |src|)
      ensures !ok ==> forall c :: 0 <= c < |v.used| ==> v.used[c]
      ensures ok ==> Wrote(old(v), v, i, off, src) && Mapped(old(v), v, i, off, |src|)
      ensures ok ==> dinodes == Updated(old(v), v, i, off + |src|, old(dinodes))
      ensures ok && old(dinodes) == old(v).inodes ==> (dinodes == v.inodes <==> KeepsStep(old(v), i, off, |src|))
      ensures ok && FileOk(old(v), i) ==> FileOk(v, i) && (old(dinodes) == old(v).inodes ==> dinodes == v.inodes)
      ensures ok && |v.used| <= BPB ==> |logged - old(logged)| <= Blocks(off, off + |src|) + 3
    {
      hide Sound, Wrote, FileOk, Blocks, Copied, CanMap, Mapped, FillsInode, EndBlock, KeepsStep;
      AddrsLength(v, owner, i);
      var n, size := |src|, v.inodes[i].size;
      ok := CopyIn(i, off, src);
      if ok {
        ghost var copied := v;
        CopiedIsWrote(old(v), v, owner, i, off, src);
        LoggedOneMore(old(logged), logged, Iblock(i));
        if n > 0 && off + n > size {
          v := v.(inodes := v.inodes[i := v.inodes[i].(size := off + n)]);
          Iupdate(i);
        }
        MappedResized(old(v), copied, v, i, off, n);
        AddrsLength(v, owner, i);
        StepIff(old(v), v, i, off, src);
      }
    }

    /**
     Write `src` at `off`: the file becomes the old one with `src` spliced in, no other file
     changes, and a file without holes stays without holes. Inodes on disk that were in step stay so
     exactly if the file grows or no hole is filled in the inode itself.
     */
    method Writei(i: nat, off: nat, src: Bytes) returns (r: Io)
      requires Valid() && i < |v.inodes| && off < WRAP && |src| < WRAP
      modifies this
      ensures Valid() && |v.used| == |old(v).used|
      ensures r == Count(|src|) || r == Fail || r == Device || r == Panic
      ensures r == Device <==> old(v).inodes[i].kind == Dev
      ensures r == Fail <==> old(v).inodes[i].kind != Dev && !CanWrite(old(v).inodes[i].size, off, |src|)
      ensures r == Fail <==>
                && old(v).inodes[i].kind != Dev
                && (off > old(v).inodes[i].size || off + |src| >= WRAP || off + |src| > MAXFILE * BSIZE)
      ensures r == Device || r == Fail ==> v == old(v) && dinodes == old(dinodes) && logged == old(logged)
      ensures r == Panic <==> old(v).inodes[i].kind != Dev && CanWrite(old(v).inodes[i].size, off, |src|)
                              && !CanMap(old(v), i, off, |src|)
      ensures r == Panic ==> forall c :: 0 <= c < |v.used| ==> v.used[c]
      ensures r == Count(|src|) ==> Wrote(old(v), v, i, off, src) && Mapped(old(v), v, i, off, |src|)
      ensures r == Count(|src|) ==> dinodes == Updated(old(v), v, i, off + |src|, old(dinodes))
      ensures r == Count(|src|) && old(dinodes) == old(v).inodes ==>
                (dinodes == v.inodes <==> KeepsStep(old(v), i, off, |src|))
      ensures r == Count(|src|) && FileOk(old(v), i) ==>
                FileOk(v, i) && (old(dinodes) == old(v).inodes ==> dinodes == v.inodes)
      ensures r == Count(|src|) && |v.used| <= BPB ==> |logged - old(logged)| <= Blocks(off, off + |src|) + 3
    {
      hide Sound, Wrote, FileOk, Blocks, CanMap, Mapped, KeepsStep;
      var n, ip := |src|, v.inodes[i];
      if ip.kind == Dev {
        return Device;
      }
      if off > ip.size || (off + n) % WRAP < off {
        return Fail;
      }
      if off + n > MAXFILE * BSIZE {
        return Fail;
      }
      var ok := WriteChecked(i, off, src);
      return if ok then Count(n) else Panic;
    }
  }
}
