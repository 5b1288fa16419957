/**
 The root directory that mkfs.c makes. mkfs rounds its size up to the next block, also if its entries
 fill whole blocks; then the last block of the directory is a hole. The kernel makes no others: it
 writes within a file or right behind its end.
 */
module FsRoot {
  import opened Machine
  import opened FsLayout
  import opened FsOwnership
  import opened FsSpace
  import opened FsChange
  import opened FsStep
  import opened Fs

  const ROOTINO := 1
  const DIRENT := 16                        // sizeof(struct dirent)
  const PER_BLOCK := BSIZE / DIRENT
  const ENTRIES := 32                       // "." and "..", README and 29 programs

  /** The root inode after `n` entries have been appended and the size rounded. */
  ghost predicate AfterMkfs(v: Volume, n: nat) {
    && ROOTINO < |v.inodes| && v.inodes[ROOTINO].kind == Dir && |v.inodes[ROOTINO].addrs| == NDIRECT + 1
    && v.inodes[ROOTINO].size == (n * DIRENT / BSIZE + 1) * BSIZE
    && forall s :: 0 <= s <= NDIRECT ==> (v.inodes[ROOTINO].addrs[s] != 0 <==> s * BSIZE < n * DIRENT)
  }

  /** The block the rounding adds, block `n / 32`, is a hole if and only if the entries fill whole blocks. */
  lemma RootHoleIff(v: Volume, n: nat)
    requires AfterMkfs(v, n) && n < NDIRECT * PER_BLOCK
    ensures Hole(v, ROOTINO, n / PER_BLOCK) <==> n % PER_BLOCK == 0
    ensures !FileOk(v, ROOTINO) <==> n % PER_BLOCK == 0
  {
    var last := n / PER_BLOCK;
    assert n == PER_BLOCK * last + n % PER_BLOCK && last < NDIRECT;
    assert n * DIRENT / BSIZE == last;
    var ip := v.inodes[ROOTINO];
    assert last * BSIZE < ip.size == (last + 1) * BSIZE;
    if n % PER_BLOCK == 0 {
      assert Ref(v.disk, ip, SlotOf(last)) == 0;
    } else {
      forall bn | 0 <= bn && bn * BSIZE < ip.size ensures Ref(v.disk, ip, SlotOf(bn)) != 0 {
        assert bn <= last;
      }
    }
  }

  /** There is such a volume: an empty one with the first block for the directory. */
  lemma RootVolume(start: nat, blocks: nat, inodes: nat) returns (v: Volume, owner: Owner)
    requires 1 <= start && start + 2 <= blocks < WRAP && inodes >= 2
    ensures Sound(v, owner) && AfterMkfs(v, ENTRIES) && FreeCount(v.used) > 0
  {
    var none := Inode(FileType.Free, 0, seq(NDIRECT + 1, _ => 0));
    var all := seq(inodes, _ => none);
    var v0 := Volume(start, seq(blocks, b => b < start), seq(blocks, _ => Zeroes()),
                     all[ROOTINO := Inode(Dir, 2 * BSIZE, seq(NDIRECT + 1, _ => 0))]);
    assert Sound(v0, map[]);
    v, owner := SetAddr(Balloced(v0, start), ROOTINO, 0, start), map[start := (ROOTINO, 0)];
    AllocDirect(v0, map[], ROOTINO, 0, start);
    assert map[][start := (ROOTINO, 0)] == owner;
    hide Sound;
    assert !v.used[start + 1];
    NoneFree(v.used);
  }

  lemma HoleAtOne(v: Volume, off: nat, n: nat)
    requires AfterMkfs(v, ENTRIES) && n > 0 && BSIZE <= off && off + n <= 2 * BSIZE
    ensures Hole(v, ROOTINO, 1) && off / BSIZE == 1 && EndBlock(off, n) == 2
    ensures FillsInode(v, ROOTINO, off / BSIZE, EndBlock(off, n)) && Need(v, ROOTINO, 1, 2) == 1
  {
    assert Hole(v, ROOTINO, 1);
    assert Holes(v, ROOTINO, 1, 1) == 0;
  }

  /** Reading that block panics unless some call has a transaction open. */
  lemma RootReadPanics(v: Volume, v': Volume, off: nat, n: nat, r: Io, dst: Bytes)
    requires AfterMkfs(v, ENTRIES) && n > 0 && BSIZE <= off && off + n <= 2 * BSIZE
    requires ReadAnswers(v, v', ROOTINO, off, n, false, r, dst)
    ensures r == Panic
  {
    HoleAtOne(v, off, n);
    hide Need, FillsInode, EndBlock;
  }

  lemma RootReads(v: Volume)
    requires AfterMkfs(v, ENTRIES) && FreeCount(v.used) > 0
    ensures ROOTINO < |v.inodes| && v.inodes[ROOTINO].kind == Dir && v.inodes[ROOTINO].size == 2 * BSIZE
    ensures CanRead(v, ROOTINO, BSIZE, DIRENT, true)
  {
    HoleAtOne(v, BSIZE, DIRENT);
  }

  /** Once the block has been read it is there, and can be written. */
  lemma RootFilled(v: Volume, v1: Volume)
    requires AfterMkfs(v, ENTRIES) && Mapped(v, v1, ROOTINO, BSIZE, DIRENT) && OnlyAddrs(v, v1, ROOTINO)
    ensures ROOTINO < |v1.inodes| && v1.inodes[ROOTINO].kind == Dir && v1.inodes[ROOTINO].size == 2 * BSIZE
    ensures !Hole(v1, ROOTINO, 1) && CanMap(v1, ROOTINO, BSIZE, DIRENT)
  {
    HoleAtOne(v, BSIZE, DIRENT);
    assert Holes(v1, ROOTINO, 1, 1) == 0;
    assert Need(v1, ROOTINO, 1, 2) == 0;
  }

  lemma RootForgets(v: Volume, v1: Volume, v2: Volume, owner: Owner, entry: Bytes, o: Owner)
    requires AfterMkfs(v, ENTRIES) && Mapped(v, v1, ROOTINO, BSIZE, DIRENT) && OnlyAddrs(v, v1, ROOTINO)
    requires Mapped(v1, v2, ROOTINO, BSIZE, DIRENT) && Wrote(v1, v2, ROOTINO, BSIZE, entry) && Sound(v2, owner)
    ensures v.inodes != v2.inodes && !Sound(v2.(inodes := v.inodes), o)
  {
    RootFilled(v, v1);
    AddrsLength(v2, owner, ROOTINO);
    hide Sound, Contents, FillsInode, Filled;
    KeptOnce(v, v1, v2);
    StaysBehind(v, v2, ROOTINO);
    assert v2.inodes[ROOTINO].addrs[1] != 0 == v.inodes[ROOTINO].addrs[1] by {
      assert IsSlot(v1, ROOTINO, 1) && Ref(v1.disk, v1.inodes[ROOTINO], 1) != 0;
    }
    BlockLost(v2, owner, v.inodes, ROOTINO, 1, o);
  }

  /**
   The first `open` scans the directory in a transaction, then `mknod` enters a name at the first
   free place. The write does not grow the file, so the inode on disk never gets the block, and
   after the commit the disk is sound for no owners: the block is taken and nobody's.
   */
  method OpenThenMknod(fs: FileSystem, entry: Bytes)
    requires fs.Valid() && AfterMkfs(fs.v, ENTRIES) && fs.dinodes == fs.v.inodes && FreeCount(fs.v.used) > 0
    requires |entry| == DIRENT
    modifies fs
    ensures fs.Valid() && fs.dinodes == old(fs.dinodes) != fs.v.inodes
    ensures forall o :: !Sound(fs.v.(inodes := fs.dinodes), o)
  {
    hide Sound, SameBytes, OnlyAddrs, Wrote, Mapped, FillsInode, KeepsStep, EndBlock, CanMap, CanRead;
    hide AfterMkfs, FreeCount, FileOk, Blocks;
    ghost var v0 := fs.v;
    RootReads(v0);
    var r, dst := fs.Readi(ROOTINO, BSIZE, DIRENT, true);
    ghost var v1 := fs.v;
    RootFilled(v0, v1);
    r := fs.Writei(ROOTINO, BSIZE, entry);
    forall o ensures v0.inodes != fs.v.inodes && !Sound(fs.v.(inodes := v0.inodes), o) {
      RootForgets(v0, v1, fs.v, fs.owner, entry, o);
    }
    RootForgets(v0, v1, fs.v, fs.owner, entry, map[]);
  }
}
