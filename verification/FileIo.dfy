/**
 file.c: reading and writing an open file. `filewrite` cuts a write into pieces small enough for
 one transaction of the log each; what comes out is the same as one write of everything.
 */
module FileIo {
  import opened Machine
  import opened FsLayout
  import opened Fs
  import opened FsChange
  import opened FsOwnership
  import opened FsSpace
  import opened FsStep
  import LogFormat

  /** How many bytes `filewrite` puts into one transaction. */
  const MAX_CHUNK := (LogFormat.MAXOPBLOCKS - 1 - 1 - 2) / 2 * 512

  class OpenFile {
    const readable: bool
    const writable: bool
    const ip: nat
    var off: nat
  }

  /**
   Write `n` bytes of `src` at the file's offset. `done` bytes were written, `ops` are the sizes of
   the transactions. A negative count is refused. The kernel panics exactly if there are too few
   free blocks for the pieces that fit the file.
   */
  method Filewrite(f: OpenFile, fs: FileSystem, src: Bytes, n: int)
    returns (r: Io, ghost done: nat, ghost ops: seq<nat>)
    requires fs.Valid() && f.ip < |fs.v.inodes| && f.off < WRAP && n <= |src| < WRAP / 2
    modifies f, fs
    ensures fs.Valid() && done <= |src| && f.off == old(f.off) + done
    ensures !f.writable || n < 0 ==> r == Fail && done == 0
    ensures r == Panic ==> forall c :: 0 <= c < |fs.v.used| ==> fs.v.used[c]
    ensures f.writable && n >= 0 && old(fs.v).inodes[f.ip].kind != Dev ==>
              var fitting := Fitting(old(fs.v).inodes[f.ip].size, old(f.off), n);
              (r == Panic <==> !CanMap(old(fs.v), f.ip, old(f.off), fitting))
    ensures r != Panic ==> SoFar(old(fs.v), old(fs.dinodes), fs.v, fs.dinodes, f.ip, old(f.off), src[..done])
    ensures r != Panic && old(fs.dinodes) == old(fs.v).inodes ==>
              (fs.dinodes == fs.v.inodes <==> done == 0 || KeepsStep(old(fs.v), f.ip, old(f.off), done))
    ensures f.writable && n >= 0 && r != Panic && old(fs.v).inodes[f.ip].kind != Dev ==>
              Outcome(old(fs.v).inodes[f.ip].size, old(f.off), n, r, done)
    ensures r != Panic && |fs.v.used| <= BPB ==> SmallOps(ops)
  {
    hide Sound, SoFar, Outcome, SmallOps, CanMap, Fitting, KeepsStep;
    ghost var v0, owner0, off0 := fs.v, fs.owner, f.off;
    if !f.writable || n < 0 {
      SoFarNothing(fs.v, fs.dinodes, f.ip, f.off, src);
      SmallNone();
      return Fail, 0, [];
    }
    r, done, ops := WriteChunks(f, fs, src[..n]);
    assert src[..n][..done] == src[..done];
    if r != Panic { SoFarStepIff(v0, owner0, old(fs.dinodes), fs.v, fs.owner, fs.dinodes, f.ip, off0, src[..done]); }
  }

  /** The loop of `filewrite`. */
  method WriteChunks(f: OpenFile, fs: FileSystem, src: Bytes) returns (r: Io, ghost done: nat, ghost ops: seq<nat>)
    requires fs.Valid() && f.ip < |fs.v.inodes| && f.off < WRAP && |src| < WRAP / 2
    modifies f, fs
    ensures fs.Valid() && done <= |src| && f.off == old(f.off) + done
    ensures r == Panic ==> forall c :: 0 <= c < |fs.v.used| ==> fs.v.used[c]
    ensures old(fs.v).inodes[f.ip].kind != Dev ==>
              var fitting := Fitting(old(fs.v).inodes[f.ip].size, old(f.off), |src|);
              (r == Panic <==> !CanMap(old(fs.v), f.ip, old(f.off), fitting))
    ensures r != Panic ==> SoFar(old(fs.v), old(fs.dinodes), fs.v, fs.dinodes, f.ip, old(f.off), src[..done])
    ensures r != Panic && old(fs.v).inodes[f.ip].kind != Dev ==>
              Outcome(old(fs.v).inodes[f.ip].size, old(f.off), |src|, r, done)
    ensures r != Panic && |fs.v.used| <= BPB ==> SmallOps(ops)
  {
    hide Sound, SoFar, Outcome, Wrote, InStep, CanWrite, Aligned, SmallOps, Mapped, Updated, CanMap, Fitting;
    done, ops := 0, [];
    SoFarNothing(fs.v, fs.dinodes, f.ip, f.off, src);
    SmallNone();
    StartAligned();
    ghost var v0, d0, off0 := fs.v, fs.dinodes, f.off;
    var n, i := |src|, 0;
    while i < n
      invariant 0 <= i == done <= n && (i == n || Aligned(i)) && f.off == off0 + i
      invariant fs.Valid() && SoFar(v0, d0, fs.v, fs.dinodes, f.ip, off0, src[..i])
      invariant |fs.v.used| <= BPB ==> SmallOps(ops)
    {
      var n1 := Min(n - i, MAX_CHUNK);
      ghost var v1, d1 := fs.v, fs.dinodes;
      WholeChunks(i, n, n1);
      SoFarInode(v0, d0, v1, d1, f.ip, off0, src[..i]);
      ghost var op: nat;
      r, op := WriteChunk(f, fs, src[i..i + n1]);
      if !r.Count? {
        if r == Fail { Stops(v0, d0, v1, d1, f.ip, off0, src, i); }
        if r == Panic { Exhausted(v0, d0, v1, d1, f.ip, off0, src, i, n1); }
        return r, done, ops;
      }
      SoFarMore(v0, d0, v1, d1, fs.v, fs.dinodes, f.ip, off0, src[..i], src[i..i + n1]);
      assert src[..i] + src[i..i + n1] == src[..i + n1];
      if |fs.v.used| <= BPB { SmallMore(ops, op); }
      ops := ops + [op];
      i := i + r.n;
      done := i;
    }
    assert src[..n] == src;
    Finishes(v0, d0, fs.v, fs.dinodes, f.ip, off0, src);
    return Count(n), done, ops;
  }

  /** Every transaction logs at least three blocks fewer than an operation may reserve. */
  ghost predicate SmallOps(ops: seq<nat>) {
    forall k :: 0 <= k < |ops| ==> ops[k] <= LogFormat.MAXOPBLOCKS - 3
  }

  lemma SmallNone()
    ensures SmallOps([])
  {
  }

  lemma SmallMore(ops: seq<nat>, op: nat)
    requires SmallOps(ops) && op <= LogFormat.MAXOPBLOCKS - 3
    ensures SmallOps(ops + [op])
  {
  }

  /** The file has no holes and the inodes on disk are those in memory. */
  ghost predicate InStep(v: Volume, dinodes: seq<Inode>, i: nat) {
    FileOk(v, i) && dinodes == v.inodes
  }

  /** What `filewrite` has done so far: nothing, or one write of `src` that fits the file. */
  ghost predicate SoFar(v: Volume, dinodes: seq<Inode>, v': Volume, dinodes': seq<Inode>, i: nat, off: nat,
                        src: Bytes) {
    && i < |v.inodes| == |v'.inodes| == |dinodes| == |dinodes'| && |v'.used| == |v.used|
    && (if |src| == 0 then v' == v && dinodes' == dinodes
        else
          && v.inodes[i].kind != Dev && CanWrite(v.inodes[i].size, off, |src|) && Wrote(v, v', i, off, src)
          && Mapped(v, v', i, off, |src|) && dinodes' == Updated(v, v', i, off + |src|, dinodes))
    && (InStep(v, dinodes, i) ==> InStep(v', dinodes', i))
  }

  /** How many of `n` bytes at `off` a write puts down: all of them if they fit, otherwise the whole chunks that do. */
  function Fitting(size: nat, off: nat, n: nat): (m: nat)
    ensures m <= n
  {
    if CanWrite(size, off, n) then n
    else if off > size || off > MAXFILE * BSIZE then 0
    else Min(n, (MAXFILE * BSIZE - off) / MAX_CHUNK * MAX_CHUNK)
  }

  /** The answer to a write of `n` bytes: that many are done, and it fails exactly if they are not all. */
  predicate Outcome(size: nat, off: nat, n: nat, r: Io, done: nat) {
    done == Fitting(size, off, n) && r == if done == n then Count(n) else Fail
  }

  lemma SoFarNothing(v: Volume, dinodes: seq<Inode>, i: nat, off: nat, src: Bytes)
    requires i < |v.inodes| == |dinodes|
    ensures SoFar(v, dinodes, v, dinodes, i, off, src[..0])
  {
  }

  lemma SoFarInode(v: Volume, d: seq<Inode>, v': Volume, d': seq<Inode>, i: nat, off: nat, s: Bytes)
    requires SoFar(v, d, v', d', i, off, s)
    ensures i < |v.inodes| == |v'.inodes| && |v'.used| == |v.used| && v'.inodes[i].kind == v.inodes[i].kind
    ensures v'.inodes[i].size == if |s| == 0 then v.inodes[i].size else Max(v.inodes[i].size, off + |s|)
    ensures |s| > 0 ==> CanWrite(v.inodes[i].size, off, |s|) && off + |s| < WRAP
  {
  }

  predicate Aligned(i: nat) {
    i % MAX_CHUNK == 0
  }

  lemma StartAligned()
    ensures Aligned(0)
  {
  }

  lemma WholeChunks(i: nat, n: nat, n1: nat)
    requires Aligned(i) && n1 == Min(n - i, MAX_CHUNK) && i <= n
    ensures i + n1 == n || Aligned(i + n1)
  {
    assert MAX_CHUNK == 1536;
  }

  lemma ChunkFits(size: nat, off: nat, n: nat, done: nat, n1: nat)
    requires done < n < WRAP / 2 && Aligned(done) && off < WRAP && n1 == Min(n - done, MAX_CHUNK)
    requires done > 0 ==> CanWrite(size, off, done)
    ensures var size1, m := if done == 0 then size else Max(size, off + done), Fitting(size, off, n);
            if CanWrite(size1, off + done, n1) then done + n1 <= m else m == done
  {
    assert MAX_CHUNK == 1536;
  }

  lemma Stops(v: Volume, d: seq<Inode>, v1: Volume, d1: seq<Inode>, i: nat, off: nat, src: Bytes, done: nat)
    requires done < |src| < WRAP / 2 && Aligned(done) && off < WRAP && SoFar(v, d, v1, d1, i, off, src[..done])
    requires !CanWrite(v1.inodes[i].size, off + done, Min(|src| - done, MAX_CHUNK))
    ensures Outcome(v.inodes[i].size, off, |src|, Fail, done) && Fitting(v.inodes[i].size, off, |src|) == done
    ensures CanMap(v, i, off, done)
  {
    SoFarMapped(v, d, v1, d1, i, off, src[..done]);
    hide SoFar, CanWrite, Aligned, Fitting, CanMap, Mapped;
    ChunkFits(v.inodes[i].size, off, |src|, done, Min(|src| - done, MAX_CHUNK));
  }

  /** A chunk that cannot be mapped means that what fits cannot. */
  lemma Exhausted(v: Volume, d: seq<Inode>, v1: Volume, d1: seq<Inode>, i: nat, off: nat, src: Bytes, done: nat,
                  n1: nat)
    requires done < |src| < WRAP / 2 && Aligned(done) && off < WRAP && SoFar(v, d, v1, d1, i, off, src[..done])
    requires n1 == Min(|src| - done, MAX_CHUNK) && CanWrite(v1.inodes[i].size, off + done, n1)
    requires !CanMap(v1, i, off + done, n1)
    ensures !CanMap(v, i, off, Fitting(v.inodes[i].size, off, |src|))
  {
    hide SoFar, CanWrite, Aligned, Fitting, CanMap, Mapped;
    SoFarMapped(v, d, v1, d1, i, off, src[..done]);
    ChunkFits(v.inodes[i].size, off, |src|, done, n1);
    MapNextIff(v, v1, i, off, done, n1);
    var m := Fitting(v.inodes[i].size, off, |src|);
    if CanMap(v, i, off, m) { CanMapLess(v, i, off, done + n1, m); }
  }

  lemma SoFarMapped(v: Volume, d: seq<Inode>, v': Volume, d': seq<Inode>, i: nat, off: nat, s: Bytes)
    requires SoFar(v, d, v', d', i, off, s)
    ensures i < |v.inodes| == |v'.inodes| && Mapped(v, v', i, off, |s|) && CanMap(v, i, off, |s|)
    ensures v'.inodes[i].size == if |s| == 0 then v.inodes[i].size else Max(v.inodes[i].size, off + |s|)
    ensures |s| > 0 ==> CanWrite(v.inodes[i].size, off, |s|)
  {
    hide Wrote, Filled, RefsKept;
    if |s| == 0 {
      MappedNothing(v, i, off);
    } else {
      SoFarInode(v, d, v', d', i, off, s);
      assert EndBlock(off, |s|) <= MAXFILE;
      MapsAll(v, v', i, off, |s|);
    }
  }

  lemma SoFarStepIff(v: Volume, owner: Owner, d: seq<Inode>, v': Volume, owner': Owner, d': seq<Inode>, i: nat,
                     off: nat, s: Bytes)
    requires SoFar(v, d, v', d', i, off, s) && Sound(v, owner) && Sound(v', owner')
    ensures d == v.inodes ==> (d' == v'.inodes <==> |s| == 0 || KeepsStep(v, i, off, |s|))
  {
    hide Sound, Wrote, Mapped, KeepsStep, Updated, CanWrite, InStep;
    AddrsLength(v, owner, i);
    AddrsLength(v', owner', i);
    if |s| > 0 { StepIff(v, v', i, off, s); }
  }

  lemma Finishes(v: Volume, d: seq<Inode>, v': Volume, d': seq<Inode>, i: nat, off: nat, src: Bytes)
    requires SoFar(v, d, v', d', i, off, src)
    ensures Outcome(v.inodes[i].size, off, |src|, Count(|src|), |src|) && CanMap(v, i, off, |src|)
    ensures Fitting(v.inodes[i].size, off, |src|) == |src|
  {
    SoFarMapped(v, d, v', d', i, off, src);
    hide SoFar, CanMap;
  }

  lemma SpliceTwice(c: Bytes, off: nat, s: Bytes, t: Bytes)
    requires off <= |c|
    ensures Splice(Splice(c, off, s), off + |s|, t) == Splice(c, off, s + t)
  {
    hide Splice;
  }

  /** A write followed by a write right behind it is one write. */
  lemma WroteTwice(v0: Volume, v1: Volume, v2: Volume, i: nat, off: nat, s: Bytes, t: Bytes)
    requires Wrote(v0, v1, i, off, s) && Wrote(v1, v2, i, off + |s|, t)
    requires off <= v0.inodes[i].size && off + |s| <= MAXFILE * BSIZE
    ensures Wrote(v0, v2, i, off, s + t)
  {
    hide Contents, Splice;
    if v0.inodes[i].size <= MAXFILE * BSIZE {
      ContentsSize(v0, i);
      SpliceTwice(Contents(v0, i), off, s, t);
    }
  }

  lemma SoFarMore(v0: Volume, d0: seq<Inode>, v1: Volume, d1: seq<Inode>, v2: Volume, d2: seq<Inode>,
                  i: nat, off: nat, s: Bytes, t: Bytes)
    requires |t| > 0 && SoFar(v0, d0, v1, d1, i, off, s)
    requires v1.inodes[i].kind != Dev && CanWrite(v1.inodes[i].size, off + |s|, |t|) && |v2.used| == |v1.used|
    requires Wrote(v1, v2, i, off + |s|, t) && Mapped(v1, v2, i, off + |s|, |t|)
    requires |d1| == |v1.inodes| && d2 == Updated(v1, v2, i, off + |s| + |t|, d1)
    requires InStep(v1, d1, i) ==> InStep(v2, d2, i)
    ensures SoFar(v0, d0, v2, d2, i, off, s + t)
  {
    hide Wrote, InStep, Mapped, Updated, EndBlock;
    SoFarInode(v0, d0, v1, d1, i, off, s);
    WroteInodes(v1, v2, i, off + |s|, t);
    SoFarMapped(v0, d0, v1, d1, i, off, s);
    if s == [] {
      assert s + t == t;
    } else {
      WroteTwice(v0, v1, v2, i, off, s, t);
      WithinLargest(off, |s| + |t|);
      MappedTwice(v0, v1, v2, i, off, |s|, |t|);
      UpdatedTwice(v0, v1, v2, i, off, |s|, |t|, d0);
    }
  }

  lemma WithinLargest(off: nat, n: nat)
    requires off + n <= MAXFILE * BSIZE && n > 0
    ensures EndBlock(off, n) <= MAXFILE
  {
  }

  lemma UpdatedTwice(v0: Volume, v1: Volume, v2: Volume, i: nat, off: nat, m: nat, n: nat, d: seq<Inode>)
    requires i < |v0.inodes| == |v1.inodes| == |v2.inodes| == |d| && n > 0
    requires v1.inodes[i].size == Max(v0.inodes[i].size, off + m)
    ensures Updated(v1, v2, i, off + m + n, Updated(v0, v1, i, off + m, d)) == Updated(v0, v2, i, off + (m + n), d)
  {
  }

  lemma WroteInodes(v: Volume, v': Volume, i: nat, off: nat, src: Bytes)
    requires Wrote(v, v', i, off, src)
    ensures |v'.inodes| == |v.inodes|
  {
  }

  /** One transaction of `filewrite`; `op` is the number of blocks it logs. */
  method WriteChunk(f: OpenFile, fs: FileSystem, part: Bytes) returns (r: Io, ghost op: nat)
    requires fs.Valid() && f.ip < |fs.v.inodes| && f.off < WRAP && |part| <= MAX_CHUNK
    modifies f, fs
    ensures fs.Valid() && |fs.v.used| == |old(fs.v).used|
    ensures r == Count(|part|) || r == Fail || r == Device || r == Panic
    ensures r == Device <==> old(fs.v).inodes[f.ip].kind == Dev
    ensures r == Fail <==>
              old(fs.v).inodes[f.ip].kind != Dev && !CanWrite(old(fs.v).inodes[f.ip].size, old(f.off), |part|)
    ensures r == Device || r == Fail ==> fs.v == old(fs.v) && fs.dinodes == old(fs.dinodes)
    ensures f.off == old(f.off) + (if r.Count? then |part| else 0)
    ensures r == Panic <==>
              && old(fs.v).inodes[f.ip].kind != Dev && CanWrite(old(fs.v).inodes[f.ip].size, old(f.off), |part|)
              && !CanMap(old(fs.v), f.ip, old(f.off), |part|)
    ensures r == Panic ==> forall c :: 0 <= c < |fs.v.used| ==> fs.v.used[c]
    ensures r.Count? ==>
              && Wrote(old(fs.v), fs.v, f.ip, old(f.off), part) && Mapped(old(fs.v), fs.v, f.ip, old(f.off), |part|)
              && fs.dinodes == Updated(old(fs.v), fs.v, f.ip, old(f.off) + |part|, old(fs.dinodes))
    ensures r.Count? && InStep(old(fs.v), old(fs.dinodes), f.ip) ==> InStep(fs.v, fs.dinodes, f.ip)
    ensures r.Count? && |fs.v.used| <= BPB ==> op <= LogFormat.MAXOPBLOCKS - 3
  {
    hide Sound, Wrote, FileOk, Blocks, Mapped, Updated, CanMap, KeepsStep;
    fs.logged := {};
    r := fs.Writei(f.ip, f.off, part);
    ChunkBlocks(f.off, |part|);
    assert fs.logged - {} == fs.logged;
    op := |fs.logged|;
    if r.Count? && r.n > 0 {
      f.off := f.off + r.n;
    }
  }

  lemma ContentsSize(v: Volume, i: nat)
    requires i < |v.inodes|
    ensures |Contents(v, i)| == v.inodes[i].size
  {
  }

  /** A chunk touches at most four blocks of the file. */
  lemma ChunkBlocks(off: nat, n: nat)
    requires n <= MAX_CHUNK
    ensures Blocks(off, off + n) + 3 <= LogFormat.MAXOPBLOCKS - 3
  {
  }

  /**
   Read up to `n` bytes at the file's offset and advance it past them. `fileread` opens no
   transaction; `open` says that some other system call has.
   */
  method Fileread(f: OpenFile, fs: FileSystem, n: nat, open: bool) returns (r: Io, dst: Bytes)
    requires fs.Valid() && f.ip < |fs.v.inodes| && f.off < WRAP && n < WRAP
    modifies f, fs
    ensures fs.Valid() && SameBytes(old(fs.v), fs.v) && OnlyAddrs(old(fs.v), fs.v, f.ip)
    ensures !f.readable ==> r == Fail && dst == [] && fs.v == old(fs.v)
    ensures f.readable ==> ReadAnswers(old(fs.v), fs.v, f.ip, old(f.off), n, open, r, dst)
    ensures f.off == (old(f.off) + if r.Count? then r.n else 0) && fs.dinodes == old(fs.dinodes)
    ensures f.readable && FileOk(old(fs.v), f.ip) ==> r != Panic && fs.v == old(fs.v)
    ensures r.Count? ==> old(f.off) <= f.off <= old(fs.v).inodes[f.ip].size
                         && dst == Contents(old(fs.v), f.ip)[old(f.off)..f.off]
  {
    hide FsOwnership.Sound, SameBytes, OnlyAddrs, NoHoles, CanRead, Flat, FillsInode;
    NothingMoves(fs.v);
    dst := [];
    if !f.readable {
      return Fail, dst;
    }
    r, dst := fs.Readi(f.ip, f.off, n, open);
    if r.Count? && r.n > 0 {
      f.off := f.off + r.n;
    }
  }

  /** What was written is what is read back. */
  lemma WriteThenRead(v: Volume, v': Volume, i: nat, off: nat, src: Bytes)
    requires Wrote(v, v', i, off, src) && off <= v.inodes[i].size <= MAXFILE * BSIZE
    ensures off + |src| <= |Contents(v', i)| && Contents(v', i)[off..off + |src|] == src
  {
    hide Splice;
    ContentsSize(v, i);
  }
}
