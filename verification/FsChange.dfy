/**
 fs.c: what allocation, truncation, reading and writing do to a volume. The predicates relate the
 volume before and after; the lemmas carry them through one round of the loops.
 */
module FsChange {
  import opened Machine
  import opened FsLayout
  import opened FsOwnership
  import opened FsSpace

  const BPB := BSIZE * 8         // bitmap bits per block
  const IPB := 8                 // inodes per block

  datatype Io = Count(n: nat) | Fail | Device | Panic

  // ----- what allocation and writing do to the bytes of all files -----

  /** `v'` reads the same as `v` at every offset of every inode. */
  ghost predicate SameBytes(v: Volume, v': Volume) {
    && |v.inodes| == |v'.inodes|
    && forall j, o :: 0 <= j < |v.inodes| && 0 <= o < MAXFILE * BSIZE ==>
         ByteAt(v'.disk, v'.inodes[j], o) == ByteAt(v.disk, v.inodes[j], o)
  }

  /** `v'` reads as `v` except that inode `i` has the bytes of `src` from offset `off` on. */
  ghost predicate BytesPut(v: Volume, v': Volume, i: nat, off: nat, src: Bytes) {
    && |v.inodes| == |v'.inodes|
    && forall j, o :: 0 <= j < |v.inodes| && 0 <= o < MAXFILE * BSIZE ==>
         ByteAt(v'.disk, v'.inodes[j], o) ==
           if j == i && off <= o < off + |src| then src[o - off] else ByteAt(v.disk, v.inodes[j], o)
  }

  /** Inodes keep everything but the block numbers of inode `i`. */
  ghost predicate OnlyAddrs(v: Volume, v': Volume, i: nat)
    requires i < |v.inodes|
  {
    && v'.start == v.start && |v'.used| == |v.used| && |v'.disk| == |v.disk| && |v'.inodes| == |v.inodes|
    && v'.inodes == v.inodes[i := v.inodes[i].(addrs := v'.inodes[i].addrs)]
  }

  lemma AllocKeepsByte(v: Volume, v': Volume, owner: Owner, i: nat, s: nat, b: nat, j: nat, o: nat)
    requires Sound(v, owner) && WellFormed(v') && NamesAlso(v, v', i, s, b) && |v'.disk| == |v.disk|
    requires b !in owner && b < |v'.disk| && v'.disk[b] == Zeroes()
    requires forall c :: c in owner && c < |v.disk| && owner[c].1 != NDIRECT ==> v'.disk[c] == v.disk[c]
    requires j < |v.inodes| && o < MAXFILE * BSIZE
    ensures ByteAt(v'.disk, v'.inodes[j], o) == ByteAt(v.disk, v.inodes[j], o)
  {
    var t := SlotOf(o / BSIZE);
    assert IsSlot(v, j, t) && t != NDIRECT;
    var r := Ref(v.disk, v.inodes[j], t);
    if r != 0 {
      assert r in owner && owner[r] == (j, t);
    }
    hide NamedAreOwned, BitmapOk;
  }

  lemma DirectKeepsBytes(v: Volume, owner: Owner, i: nat, s: nat, b: nat)
    requires Sound(v, owner) && i < |v.inodes| && s <= NDIRECT && v.inodes[i].addrs[s] == 0
    requires v.start <= b < |v.used| && b !in owner
    ensures SameBytes(v, SetAddr(Balloced(v, b), i, s, b))
  {
    DirectNames(v, owner, i, s, b);
    var v' := SetAddr(Balloced(v, b), i, s, b);
    forall j, o | 0 <= j < |v.inodes| && 0 <= o < MAXFILE * BSIZE
      ensures ByteAt(v'.disk, v'.inodes[j], o) == ByteAt(v.disk, v.inodes[j], o)
    {
      AllocKeepsByte(v, v', owner, i, s, b, j, o);
    }
  }

  lemma EntryKeepsBytes(v: Volume, owner: Owner, i: nat, e: nat, b: nat)
    requires Sound(v, owner) && i < |v.inodes| && v.inodes[i].addrs[NDIRECT] != 0 && e < NINDIRECT
    requires v.inodes[i].addrs[NDIRECT] < |v.disk|
    requires Word(v.disk[v.inodes[i].addrs[NDIRECT]], e) == 0
    requires v.start <= b < |v.used| && b !in owner
    ensures |Balloced(v, b).disk[v.inodes[i].addrs[NDIRECT]]| == BSIZE
    ensures SameBytes(v, SetEntry(Balloced(v, b), i, e, b))
  {
    EntryNames(v, owner, i, e, b);
    IndirectIsOwned(v, owner, i);
    var v' := SetEntry(Balloced(v, b), i, e, b);
    forall j, o | 0 <= j < |v.inodes| && 0 <= o < MAXFILE * BSIZE
      ensures ByteAt(v'.disk, v'.inodes[j], o) == ByteAt(v.disk, v.inodes[j], o)
    {
      AllocKeepsByte(v, v', owner, i, NDIRECT + 1 + e, b, j, o);
    }
  }

  /** The block with `src` laid over it from `at`. */
  function Overlay(block: Bytes, at: nat, src: Bytes): (r: Bytes)
    requires at + |src| <= |block|
    ensures |r| == |block|
    ensures forall k :: 0 <= k < |block| ==> r[k] == if at <= k < at + |src| then src[k - at] else block[k]
  {
    block[..at] + src + block[at + |src|..]
  }

  /** Overlaying part of one data block changes exactly those bytes of the file. */
  lemma OverlayPuts(v: Volume, owner: Owner, i: nat, off: nat, src: Bytes, b: nat)
    requires Sound(v, owner) && i < |v.inodes| && off + |src| <= MAXFILE * BSIZE
    requires off % BSIZE + |src| <= BSIZE && off < MAXFILE * BSIZE
    requires b in owner && owner[b] == (i, SlotOf(off / BSIZE))
    ensures b < |v.disk| && |v.disk[b]| == BSIZE
    ensures BytesPut(v, v.(disk := v.disk[b := Overlay(v.disk[b], off % BSIZE, src)]), i, off, src)
  {
    assert v.start <= b < |v.used|;
    var v' := v.(disk := v.disk[b := Overlay(v.disk[b], off % BSIZE, src)]);
    hide Overlay;
    forall j, o | 0 <= j < |v.inodes| && 0 <= o < MAXFILE * BSIZE
      ensures ByteAt(v'.disk, v'.inodes[j], o) ==
        if j == i && off <= o < off + |src| then src[o - off] else ByteAt(v.disk, v.inodes[j], o)
    {
      OverlayByte(v, owner, i, off, src, b, j, o);
    }
  }

  lemma OverlayByte(v: Volume, owner: Owner, i: nat, off: nat, src: Bytes, b: nat, j: nat, o: nat)
    requires Sound(v, owner) && i < |v.inodes| && j < |v.inodes| && off < MAXFILE * BSIZE && o < MAXFILE * BSIZE
    requires off % BSIZE + |src| <= BSIZE
    requires b in owner && owner[b] == (i, SlotOf(off / BSIZE)) && b < |v.disk| && |v.disk[b]| == BSIZE
    ensures var disk' := v.disk[b := Overlay(v.disk[b], off % BSIZE, src)];
            ByteAt(disk', v.inodes[j], o) ==
              if j == i && off <= o < off + |src| then src[o - off] else ByteAt(v.disk, v.inodes[j], o)
  {
    hide Overlay;
    var t := SlotOf(o / BSIZE);
    WriteKeepsRefs(v, owner, b, Overlay(v.disk[b], off % BSIZE, src), j, t);
    assert IsSlot(v, j, t);
    var r := Ref(v.disk, v.inodes[j], t);
    if r == b {
      assert owner[r] == (j, t);
      assert o / BSIZE == off / BSIZE;
    }
  }

  /** Slots that hold a block number keep it. */
  ghost predicate RefsKept(v: Volume, v': Volume) {
    && |v.inodes| == |v'.inodes|
    && forall j, t :: IsSlot(v, j, t) && Ref(v.disk, v.inodes[j], t) != 0 ==>
         Ref(v'.disk, v'.inodes[j], t) == Ref(v.disk, v.inodes[j], t)
  }

  lemma OwnerOf(v: Volume, owner: Owner, i: nat, s: nat)
    requires Sound(v, owner) && IsSlot(v, i, s) && Ref(v.disk, v.inodes[i], s) != 0
    ensures Ref(v.disk, v.inodes[i], s) in owner && owner[Ref(v.disk, v.inodes[i], s)] == (i, s)
    ensures v.start <= Ref(v.disk, v.inodes[i], s) < |v.disk|
  {
  }

  lemma EntryRef(v: Volume, owner: Owner, i: nat, e: nat)
    requires Sound(v, owner) && i < |v.inodes| && e < NINDIRECT
    ensures |v.inodes[i].addrs| == NDIRECT + 1
    ensures var ind := v.inodes[i].addrs[NDIRECT];
            && (ind == 0 ==> Ref(v.disk, v.inodes[i], NDIRECT + 1 + e) == 0)
            && (ind != 0 ==> ind < |v.disk| && Ref(v.disk, v.inodes[i], NDIRECT + 1 + e) == Word(v.disk[ind], e))
  {
    if v.inodes[i].addrs[NDIRECT] != 0 {
      IndirectIsOwned(v, owner, i);
    }
  }

  lemma NamesAlsoKeeps(v: Volume, v': Volume, i: nat, s: nat, b: nat)
    requires NamesAlso(v, v', i, s, b) || (b == 0 && v' == v)
    ensures RefsKept(v, v')
  {
  }

  /** Naming a block in slot `s` fills no other slot. */
  lemma EntryStays(v: Volume, v': Volume, i: nat, s: nat, t: nat, b: nat)
    requires i < |v.inodes| && t < NSLOT && t != s && (NamesAlso(v, v', i, s, b) || v' == v)
    ensures i < |v'.inodes| && Ref(v'.disk, v'.inodes[i], t) == Ref(v.disk, v.inodes[i], t)
  {
    assert IsSlot(v, i, t);
  }

  lemma EntryIsNamed(v: Volume, v': Volume, i: nat, s: nat, b: nat)
    requires NamesAlso(v, v', i, s, b)
    ensures Ref(v'.disk, v'.inodes[i], s) == b
  {
  }

  lemma KeptOnce(v: Volume, v1: Volume, v2: Volume)
    requires RefsKept(v, v1) && RefsKept(v1, v2)
    ensures RefsKept(v, v2)
  {
    hide Ref;
    forall j, t | IsSlot(v, j, t) && Ref(v.disk, v.inodes[j], t) != 0
      ensures Ref(v2.disk, v2.inodes[j], t) == Ref(v.disk, v.inodes[j], t)
    {
      assert IsSlot(v1, j, t);
    }
  }

  lemma KeptTwice(v: Volume, v1: Volume, v2: Volume, i: nat)
    requires RefsKept(v, v1) && RefsKept(v1, v2) && SameBytes(v, v1) && SameBytes(v1, v2)
    requires i < |v.inodes| && OnlyAddrs(v, v1, i) && OnlyAddrs(v1, v2, i)
    ensures RefsKept(v, v2) && SameBytes(v, v2) && OnlyAddrs(v, v2, i)
  {
    hide ByteAt, Ref, RefsKept;
    KeptOnce(v, v1, v2);
  }

  // ----- truncation -----

  /** How far `itrunc` has come: direct slots, entries of the indirect block, the indirect block. */
  datatype Progress = Progress(direct: nat, entries: nat, indirect: bool)

  predicate Done(p: Progress, s: nat) {
    s < p.direct || NDIRECT < s <= NDIRECT + p.entries || (p.indirect && s == NDIRECT)
  }

  /** `q` has done slot `s` in addition to the slots of `p`. */
  ghost predicate Then(p: Progress, q: Progress, s: nat) {
    !Done(p, s) && forall t :: Done(q, t) <==> Done(p, t) || t == s
  }

  /** The blocks that inodes other than `i` own. */
  ghost function Others(owner: Owner, i: nat): Owner {
    map b | b in owner && owner[b].0 != i :: owner[b]
  }

  /** The bits of the blocks in the slots that are done are clear, every other bit is as before. */
  ghost predicate Freed(v: Volume, owner: Owner, i: nat, done: Progress, used: seq<bool>) {
    && |used| == |v.used|
    && forall b :: 0 <= b < |used| ==>
         (used[b] <==> v.used[b] && !(b in owner && owner[b].0 == i && Done(done, owner[b].1)))
  }

  /** The inode with its first `k` block numbers cleared. */
  function Cleared(ip: Inode, k: nat): (r: Inode)
    requires k <= |ip.addrs|
  {
    ip.(addrs := seq(k, _ => 0) + ip.addrs[k..])
  }

  function Truncated(v: Volume, i: nat): (r: Volume)
    requires i < |v.inodes|
  {
    v.(inodes := v.inodes[i := Inode(v.inodes[i].kind, 0, seq(NDIRECT + 1, _ => 0))])
  }

  lemma ClearedMore(ip: Inode, k: nat)
    requires k < |ip.addrs|
    ensures Cleared(ip, k).addrs[k] == ip.addrs[k] && |Cleared(ip, k).addrs| == |ip.addrs|
    ensures Cleared(ip, k + 1) == Cleared(ip, k).(addrs := Cleared(ip, k).addrs[k := 0])
    ensures ip.addrs[k] == 0 ==> Cleared(ip, k + 1) == Cleared(ip, k)
  {
    assert Cleared(ip, k + 1).addrs == Cleared(ip, k).addrs[k := 0];
    if ip.addrs[k] == 0 { assert Cleared(ip, k + 1).addrs == Cleared(ip, k).addrs; }
  }

  lemma ClearedAll(ip: Inode)
    requires |ip.addrs| == NDIRECT + 1
    ensures Cleared(ip, NDIRECT + 1).(size := 0) == Inode(ip.kind, 0, seq(NDIRECT + 1, _ => 0))
  {
  }

  lemma SlotRef(v: Volume, owner: Owner, i: nat, s: nat)
    requires Sound(v, owner) && i < |v.inodes| && s <= NDIRECT
    ensures |v.inodes[i].addrs| == NDIRECT + 1 && Ref(v.disk, v.inodes[i], s) == v.inodes[i].addrs[s]
  {
  }

  lemma DirectThen(k: nat)
    requires k < NDIRECT
    ensures Then(Progress(k, 0, false), Progress(k + 1, 0, false), k)
  {
  }

  lemma EntryThen(j: nat)
    ensures Then(Progress(NDIRECT, j, false), Progress(NDIRECT, j + 1, false), NDIRECT + 1 + j)
  {
  }

  lemma IndirectThen()
    ensures Then(Progress(NDIRECT, NINDIRECT, false), Progress(NDIRECT, NINDIRECT, true), NDIRECT)
  {
  }

  lemma FreedNone(v: Volume, owner: Owner, i: nat)
    requires Sound(v, owner) && i < |v.inodes|
    ensures Freed(v, owner, i, Progress(0, 0, false), v.used)
    ensures |v.inodes[i].addrs| == NDIRECT + 1 && Cleared(v.inodes[i], 0) == v.inodes[i]
  {
  }

  /** The block in a slot not yet done still has its bit set, and clearing it does the slot. */
  lemma FreedMore(v: Volume, owner: Owner, i: nat, done: Progress, next: Progress, used: seq<bool>, s: nat)
    requires Sound(v, owner) && IsSlot(v, i, s) && Then(done, next, s) && Freed(v, owner, i, done, used)
    ensures var b := Ref(v.disk, v.inodes[i], s);
            if b == 0 then Freed(v, owner, i, next, used)
            else b < |used| && used[b] && Freed(v, owner, i, next, used[b := false])
  {
    var b := Ref(v.disk, v.inodes[i], s);
    hide Ref;
    assert forall c :: c in owner && owner[c] == (i, s) ==> c == b;
  }

  lemma FreedNoIndirect(v: Volume, owner: Owner, i: nat, used: seq<bool>)
    requires Sound(v, owner) && i < |v.inodes| && v.inodes[i].addrs[NDIRECT] == 0
    requires Freed(v, owner, i, Progress(NDIRECT, 0, false), used)
    ensures Freed(v, owner, i, Progress(NDIRECT, NINDIRECT, true), used)
  {
    forall c | c in owner && owner[c].0 == i ensures owner[c].1 < NDIRECT {
      assert IsSlot(v, owner[c].0, owner[c].1);
    }
  }

  /** Once every slot is done, the volume is sound for the remaining owners. */
  lemma FreedAll(v: Volume, owner: Owner, i: nat, used: seq<bool>)
    requires Sound(v, owner) && i < |v.inodes| && Freed(v, owner, i, Progress(NDIRECT, NINDIRECT, true), used)
    ensures Sound(Truncated(v, i).(used := used), Others(owner, i))
    ensures forall b :: 0 <= b < |used| ==> (used[b] <==> v.used[b] && !(b in owner && owner[b].0 == i))
  {
    var v' := Truncated(v, i).(used := used);
    forall j, t | IsSlot(v, j, t)
      ensures Ref(v'.disk, v'.inodes[j], t) == if j == i then 0 else Ref(v.disk, v.inodes[j], t) {}
    hide Ref;
    forall c | c in owner ensures Done(Progress(NDIRECT, NINDIRECT, true), owner[c].1) {
      assert IsSlot(v, owner[c].0, owner[c].1);
    }
  }

  lemma LoggedTwo(before: set<nat>, after: set<nat>, x: nat, y: nat)
    ensures after <= before + {x} + {y} ==> |after - before| <= 2
  {
    if after <= before + {x} + {y} {
      assert |{x, y}| <= 2;
      SubsetSize(after - before, {x, y});
    }
  }

  // ----- reading and writing -----

  /** The write stays within the file or grows it without a gap, and within the largest file. */
  predicate CanWrite(size: nat, off: nat, n: nat) {
    off <= size && off + n < WRAP && off + n <= MAXFILE * BSIZE
  }

  /**
   What `readi` answers: the bytes of the file from `off`, short at its end. A hole reads as zeroes,
   but the read fills it first, and panics exactly if the holes of the range cannot be filled, for
   want of blocks or of an open transaction. The inodes in memory change exactly if one of the holes
   is filled in the inode itself.
   */
  ghost predicate ReadAnswers(v: Volume, v': Volume, i: nat, off: nat, n: nat, open: bool, r: Io, dst: Bytes)
    requires i < |v.inodes|
  {
    var ip := v.inodes[i];
    if ip.kind == Dev then r == Device && dst == [] && v' == v
    else if off > ip.size || off + n >= WRAP then r == Fail && dst == [] && v' == v
    else
      var m := Min(n, ip.size - off);
      if !CanRead(v, i, off, m, open) then r == Panic
      else
        && r == Count(m) && dst == Flat(v.disk, ip, off + m)[off..]
        && (v'.inodes == v.inodes <==> !FillsInode(v, i, off / BSIZE, EndBlock(off, m)))
  }

  /** The file fits its block map and every block below its size is allocated. */
  ghost predicate FileOk(v: Volume, i: nat) {
    i < |v.inodes| && v.inodes[i].size <= MAXFILE * BSIZE && NoHoles(v.disk, v.inodes[i], v.inodes[i].size)
  }

  /** The bytes of file `j`. */
  ghost function Contents(v: Volume, j: nat): Bytes
    requires j < |v.inodes|
  {
    Flat(v.disk, v.inodes[j], v.inodes[j].size)
  }

  /** `c` with `s` laid over it from `off` on, longer than before if need be. */
  function Splice(c: Bytes, off: nat, s: Bytes): (r: Bytes)
    requires off <= |c|
    ensures |r| == Max(|c|, off + |s|)
    ensures forall o :: 0 <= o < |r| ==> r[o] == if off <= o < off + |s| then s[o - off] else c[o]
  {
    c[..off] + s + c[Min(off + |s|, |c|)..]
  }

  /** What a successful `writei` does to the files of the volume. */
  ghost predicate Wrote(v: Volume, v': Volume, i: nat, off: nat, src: Bytes) {
    && i < |v.inodes| == |v'.inodes|
    && v'.inodes[i].kind == v.inodes[i].kind
    && v'.inodes[i].size == Max(v.inodes[i].size, off + |src|)
    && (off <= v.inodes[i].size <= MAXFILE * BSIZE ==> Contents(v', i) == Splice(Contents(v, i), off, src))
    && (forall j :: 0 <= j < |v.inodes| && j != i ==> v'.inodes[j] == v.inodes[j])
    && (forall j :: 0 <= j < |v.inodes| && j != i && v.inodes[j].size <= MAXFILE * BSIZE ==>
          Contents(v', j) == Contents(v, j))
  }

  /** The first `|src|` bytes from `off` have been put in place; sizes are not updated yet. */
  ghost predicate Written(v: Volume, v': Volume, i: nat, off: nat, src: Bytes) {
    i < |v.inodes| && BytesPut(v, v', i, off, src) && RefsKept(v, v') && OnlyAddrs(v, v', i)
  }

  /**
   What the loop of `writei` has done: the bytes are in place, no hole was left, and the block map
   of the inode changed only if the file is going to grow.
   */
  ghost predicate Copied(v: Volume, v': Volume, i: nat, off: nat, src: Bytes) {
    && Written(v, v', i, off, src)
    && (FileOk(v, i) ==> NoHoles(v'.disk, v'.inodes[i], Max(v.inodes[i].size, off + |src|)))
    && (FileOk(v, i) && v'.inodes != v.inodes ==> off + |src| > v.inodes[i].size)
  }

  lemma CopiedNothing(v: Volume, i: nat, off: nat, src: Bytes)
    requires i < |v.inodes| && off <= v.inodes[i].size
    ensures Copied(v, v, i, off, src[..0]) && Blocks(off, off) == 0
  {
  }

  lemma CopiedMore(v0: Volume, v1: Volume, v2: Volume, i: nat, off: nat, src: Bytes, tot: nat, q: nat)
    requires 0 < q && tot + q <= |src| && Copied(v0, v1, i, off, src[..tot])
    requires i < |v1.inodes| && BytesPut(v1, v2, i, off + tot, src[tot..tot + q]) && RefsKept(v1, v2)
    requires OnlyAddrs(v1, v2, i)
    requires (off + tot) % BSIZE + q <= BSIZE && off + |src| <= MAXFILE * BSIZE && off <= v0.inodes[i].size
    requires Ref(v2.disk, v2.inodes[i], SlotOf((off + tot) / BSIZE)) != 0
    requires Ref(v1.disk, v1.inodes[i], SlotOf((off + tot) / BSIZE)) != 0 ==> v2.inodes == v1.inodes
    ensures Copied(v0, v2, i, off, src[..tot + q])
  {
    hide Ref, NoHoles, BytesPut, RefsKept, OnlyAddrs;
    WrittenMore(v0, v1, v2, i, off, src, tot, q);
    if FileOk(v0, i) {
      var at, n := off + tot, Max(v0.inodes[i].size, off + tot);
      NoHolesGrow(v1, v2, i, n, at, q);
      if at < n { HeldBlock(v1.disk, v1.inodes[i], n, at); }
    }
  }

  lemma WrittenMore(v0: Volume, v1: Volume, v2: Volume, i: nat, off: nat, src: Bytes, tot: nat, q: nat)
    requires tot + q <= |src| && Written(v0, v1, i, off, src[..tot])
    requires i < |v1.inodes| && BytesPut(v1, v2, i, off + tot, src[tot..tot + q]) && RefsKept(v1, v2)
    requires OnlyAddrs(v1, v2, i)
    ensures Written(v0, v2, i, off, src[..tot + q])
  {
    hide ByteAt, Ref, RefsKept;
    KeptOnce(v0, v1, v2);
  }

  lemma OnlyAddrsSizes(v: Volume, v': Volume, i: nat)
    requires i < |v.inodes| && OnlyAddrs(v, v', i)
    ensures |v'.inodes| == |v.inodes| && |v'.used| == |v.used|
    ensures v'.inodes[i].size == v.inodes[i].size
  {
  }

  function Resized(v: Volume, i: nat, size: nat): Volume
    requires i < |v.inodes|
  {
    v.(inodes := v.inodes[i := v.inodes[i].(size := size)])
  }

  /** Changing the size of an inode changes neither ownership nor bytes nor holes. */
  lemma ResizedKeeps(v: Volume, owner: Owner, i: nat, size: nat)
    requires Sound(v, owner) && i < |v.inodes|
    ensures Sound(Resized(v, i, size), owner)
    ensures NoHoles(v.disk, v.inodes[i], size) ==> NoHoles(v.disk, Resized(v, i, size).inodes[i], size)
  {
    var v' := Resized(v, i, size);
    forall j, t | IsSlot(v, j, t) ensures Ref(v'.disk, v'.inodes[j], t) == Ref(v.disk, v.inodes[j], t) {}
    forall c | c in owner
      ensures IsSlot(v', owner[c].0, owner[c].1) && Ref(v'.disk, v'.inodes[owner[c].0], owner[c].1) == c
    {
      assert IsSlot(v, owner[c].0, owner[c].1);
    }
    forall bn | 0 <= bn ensures Ref(v.disk, v'.inodes[i], SlotOf(bn)) == Ref(v.disk, v.inodes[i], SlotOf(bn)) {}
  }

  lemma CopiedInodes(v: Volume, v': Volume, i: nat, off: nat, src: Bytes)
    requires Copied(v, v', i, off, src)
    ensures |v'.inodes| == |v.inodes| && v'.inodes == v.inodes[i := v'.inodes[i]]
    ensures v'.inodes[i].size == v.inodes[i].size && v'.inodes[i].kind == v.inodes[i].kind
    ensures FileOk(v, i) ==> NoHoles(v'.disk, v'.inodes[i], Max(v.inodes[i].size, off + |src|))
    ensures FileOk(v, i) && v'.inodes != v.inodes ==> off + |src| > v.inodes[i].size
  {
  }

  lemma CopiedBytes(v: Volume, v': Volume, i: nat, off: nat, src: Bytes)
    requires Copied(v, v', i, off, src) && off <= v.inodes[i].size && off + |src| <= MAXFILE * BSIZE
    ensures Wrote(v, Resized(v', i, Max(v.inodes[i].size, off + |src|)), i, off, src)
  {
    var w := Resized(v', i, Max(v.inodes[i].size, off + |src|));
    assert forall o: nat :: ByteAt(w.disk, w.inodes[i], o) == ByteAt(v'.disk, v'.inodes[i], o);
    hide ByteAt, Ref, Flat, Splice, RefsKept;
    if v.inodes[i].size <= MAXFILE * BSIZE {
      assert Contents(w, i) == Splice(Contents(v, i), off, src);
    }
    forall j | 0 <= j < |v.inodes| && j != i && v.inodes[j].size <= MAXFILE * BSIZE
      ensures Contents(w, j) == Contents(v, j)
    {
      assert w.inodes[j] == v.inodes[j];
    }
  }

  /** Once the size is set too, the file is the old one with `src` spliced in. */
  lemma CopiedIsWrote(v: Volume, v': Volume, owner: Owner, i: nat, off: nat, src: Bytes)
    requires Copied(v, v', i, off, src) && off <= v.inodes[i].size && off + |src| <= MAXFILE * BSIZE && Sound(v', owner)
    ensures i < |v'.inodes| == |v.inodes|
    ensures var grows := off + |src| > v.inodes[i].size;
            var w := v'.(inodes := v'.inodes[i := v'.inodes[i].(size := off + |src|)]);
            var r := if grows then w else v';
            && Wrote(v, r, i, off, src) && Sound(r, owner)
            && (FileOk(v, i) ==> FileOk(r, i))
            && (FileOk(v, i) && !grows ==> r.inodes == v.inodes)
            && (grows ==> r.inodes == v.inodes[i := r.inodes[i]])
  {
    CopiedInodes(v, v', i, off, src);
    ResizedKeeps(v', owner, i, Max(v.inodes[i].size, off + |src|));
    CopiedBytes(v, v', i, off, src);
    hide Sound, Wrote, NoHoles, Copied;
    assert off + |src| <= v.inodes[i].size ==> Resized(v', i, v.inodes[i].size) == v';
  }

  /** How many blocks of the file the bytes from `a` up to `b` touch. */
  function Blocks(a: nat, b: nat): (n: int)
  {
    if a >= b then 0 else (b - 1) / BSIZE - a / BSIZE + 1
  }

  lemma BlocksStep(off: nat, tot: nat, q: nat, n: nat)
    requires tot < n && (tot == 0 || (off + tot) % BSIZE == 0)
    requires q == Min(n - tot, BSIZE - (off + tot) % BSIZE)
    ensures 0 < q && Blocks(off, off + tot + q) == Blocks(off, off + tot) + 1
    ensures tot + q == n || (off + tot + q) % BSIZE == 0
  {
  }

  lemma IndirectGrows(v: Volume, v': Volume, owner': Owner, i: nat)
    requires i < |v.inodes| && RefsKept(v, v') && Sound(v', owner')
    ensures IndirectOf(v, i) <= IndirectOf(v', i)
  {
    if IndirectOf(v, i) != {} {
      assert IsSlot(v, i, NDIRECT);
      assert Ref(v.disk, v.inodes[i], NDIRECT) == v.inodes[i].addrs[NDIRECT];
    }
  }

  /** Writing up to `at + q` into the block just mapped leaves no hole below it. */
  lemma NoHolesGrow(v: Volume, v': Volume, i: nat, n: nat, at: nat, q: nat)
    requires i < |v.inodes| && NoHoles(v.disk, v.inodes[i], n) && RefsKept(v, v')
    requires at <= n && 0 < q && at % BSIZE + q <= BSIZE && n <= MAXFILE * BSIZE
    requires Ref(v'.disk, v'.inodes[i], SlotOf(at / BSIZE)) != 0
    ensures NoHoles(v'.disk, v'.inodes[i], Max(n, at + q))
  {
    hide Ref;
    forall bn | 0 <= bn && bn * BSIZE < Max(n, at + q) ensures Ref(v'.disk, v'.inodes[i], SlotOf(bn)) != 0 {
      if bn * BSIZE < n {
        assert IsSlot(v, i, SlotOf(bn));
      } else {
        assert bn == at / BSIZE;
      }
    }
  }

  lemma AddOne(s: set<nat>, x: nat)
    ensures |s + {x}| <= |s| + 1
  {
    if x in s { assert s + {x} == s; }
  }

  lemma {:induction false} SubsetSize(a: set<nat>, b: set<nat>)
    requires a <= b
    ensures |a| <= |b|
  {
    if a != {} {
      var x :| x in a;
      SubsetSize(a - {x}, b - {x});
    }
  }

  lemma LoggedOneMore(before: set<nat>, after: set<nat>, x: nat)
    ensures |after + {x} - before| <= |after - before| + 1
  {
    AddOne(after - before, x);
    SubsetSize(after + {x} - before, after - before + {x});
  }

  lemma LoggedFew(before: set<nat>, after: set<nat>, touched: set<nat>, v: Volume, i: nat, bitmap: nat)
    requires i < |v.inodes| && after <= before + {bitmap} + touched + IndirectOf(v, i)
    ensures |after - before| <= |touched| + 2
  {
    var ind := IndirectOf(v, i);
    AddOne(touched, bitmap);
    if ind != {} {
      AddOne(touched + {bitmap}, v.inodes[i].addrs[NDIRECT]);
    }
    assert |touched + {bitmap} + ind| <= |touched| + 2 by {
      assert ind == {} ==> touched + {bitmap} + ind == touched + {bitmap};
    }
    SubsetSize(after - before, touched + {bitmap} + ind);
  }

  /** The indirect block of inode `i`, if it has one. */
  ghost function IndirectOf(v: Volume, i: nat): set<nat>
    requires i < |v.inodes|
  {
    if |v.inodes[i].addrs| != NDIRECT + 1 || v.inodes[i].addrs[NDIRECT] == 0 then {} else {v.inodes[i].addrs[NDIRECT]}
  }

  lemma OverlayKeeps(v: Volume, owner: Owner, i: nat, b: nat, data: Bytes)
    requires Sound(v, owner) && i < |v.inodes| && b in owner && owner[b].1 != NDIRECT && |data| == BSIZE
    ensures b < |v.disk| && Sound(v.(disk := v.disk[b := data]), owner)
    ensures RefsKept(v, v.(disk := v.disk[b := data])) && OnlyAddrs(v, v.(disk := v.disk[b := data]), i)
    ensures forall t :: 0 <= t < NSLOT ==> Ref(v.disk[b := data], v.inodes[i], t) == Ref(v.disk, v.inodes[i], t)
  {
    WriteKeepsSound(v, owner, b, data);
    var v' := v.(disk := v.disk[b := data]);
    forall j, t | IsSlot(v, j, t) ensures Ref(v'.disk, v'.inodes[j], t) == Ref(v.disk, v.inodes[j], t) {
      WriteKeepsRefs(v, owner, b, data, j, t);
    }
    assert forall t :: 0 <= t < NSLOT ==> IsSlot(v, i, t);
  }

  lemma PutAfterMap(v0: Volume, v1: Volume, v2: Volume, i: nat, at: nat, part: Bytes)
    requires SameBytes(v0, v1) && BytesPut(v1, v2, i, at, part) && RefsKept(v0, v1) && RefsKept(v1, v2)
    requires i < |v0.inodes| && OnlyAddrs(v0, v1, i) && OnlyAddrs(v1, v2, i)
    ensures BytesPut(v0, v2, i, at, part) && RefsKept(v0, v2) && OnlyAddrs(v0, v2, i)
  {
    hide ByteAt, Ref, RefsKept;
    KeptOnce(v0, v1, v2);
  }

  /** In a file without holes the block of any offset below the size is allocated. */
  lemma HeldBlock(disk: seq<Bytes>, ip: Inode, n: nat, at: nat)
    requires NoHoles(disk, ip, n) && at < n
    ensures Ref(disk, ip, SlotOf(at / BSIZE)) != 0
  {
    assert at / BSIZE * BSIZE <= at;
  }

  lemma HeldInFile(v: Volume, i: nat, at: nat)
    requires FileOk(v, i) && at < v.inodes[i].size
    ensures at / BSIZE < MAXFILE && Ref(v.disk, v.inodes[i], SlotOf(at / BSIZE)) != 0 && !Hole(v, i, at / BSIZE)
  {
    HeldBlock(v.disk, v.inodes[i], v.inodes[i].size, at);
  }

  /** The bytes of one disk block are the bytes of the file at the offsets it holds. */
  lemma BlockByte(v: Volume, owner: Owner, i: nat, at: nat, addr: nat, k: nat)
    requires Sound(v, owner) && i < |v.inodes| && at % BSIZE + k < BSIZE
    requires addr != 0 && Ref(v.disk, v.inodes[i], SlotOf(at / BSIZE)) == addr && addr in owner
    ensures addr < |v.disk| && |v.disk[addr]| == BSIZE
    ensures v.disk[addr][at % BSIZE + k] == ByteAt(v.disk, v.inodes[i], at + k)
  {
    assert (at + k) / BSIZE == at / BSIZE && (at + k) % BSIZE == at % BSIZE + k;
  }

  lemma ReadBlock(v0: Volume, v1: Volume, v: Volume, owner: Owner, i: nat, at: nat, q: nat, addr: nat)
    returns (part: Bytes)
    requires Sound(v, owner) && i < |v.inodes| && 0 < q && at % BSIZE + q <= BSIZE && at / BSIZE < MAXFILE
    requires SameBytes(v0, v1) && SameBytes(v1, v)
    requires addr != 0 && Ref(v.disk, v.inodes[i], SlotOf(at / BSIZE)) == addr && addr in owner
    ensures addr < |v.disk| && |v.disk[addr]| == BSIZE
    ensures part == v.disk[addr][at % BSIZE..at % BSIZE + q]
    ensures forall k :: 0 <= k < q ==> part[k] == ByteAt(v0.disk, v0.inodes[i], at + k)
  {
    hide Sound, ByteAt, Ref;
    BlockByte(v, owner, i, at, addr, 0);
    part := v.disk[addr][at % BSIZE..at % BSIZE + q];
    forall k | 0 <= k < q ensures part[k] == ByteAt(v0.disk, v0.inodes[i], at + k) {
      BlockByte(v, owner, i, at, addr, k);
      assert at + k < MAXFILE * BSIZE;
    }
  }

  lemma InodesKept(v: Volume, v': Volume, i: nat)
    requires v'.start == v.start && |v'.used| == |v.used| && |v'.disk| == |v.disk| && v'.inodes == v.inodes
    requires i < |v.inodes|
    ensures OnlyAddrs(v, v', i)
  {
  }

  lemma NothingMoves(v: Volume)
    ensures SameBytes(v, v)
    ensures forall i :: 0 <= i < |v.inodes| ==> OnlyAddrs(v, v, i)
  {
  }
}
