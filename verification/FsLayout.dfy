/**
 fs.h and fs.c: how an inode names its blocks. A block is BSIZE bytes; the indirect block
 holds NINDIRECT little-endian 32-bit block numbers. A slot is a place that can hold a block
 number: 0..11 the direct ones, 12 the indirect block itself, 13..140 its entries.
 */
module FsLayout {
  import opened Machine

  const BSIZE := 512
  const NDIRECT := 12
  const NINDIRECT := 128
  const MAXFILE := NDIRECT + NINDIRECT
  const NSLOT := NDIRECT + 1 + NINDIRECT

  datatype FileType = Free | Dir | File | Dev
  datatype Inode = Inode(kind: FileType, size: nat, addrs: seq<nat>)

  function Zeroes(): (z: Bytes)
    ensures |z| == BSIZE && forall k :: 0 <= k < BSIZE ==> z[k] == 0
  {
    seq(BSIZE, _ => 0)
  }

  function Word4(a: byte, b: byte, c: byte, d: byte): (w: nat) {
    a + 256 * b + 65536 * c + 16777216 * d
  }

  /** Entry `j` of a block read as an array of block numbers. */
  function Word(b: Bytes, j: nat): (w: nat) {
    if |b| == BSIZE && j < NINDIRECT then Word4(b[4 * j], b[4 * j + 1], b[4 * j + 2], b[4 * j + 3]) else 0
  }

  /** The block with entry `j` set to `w`. */
  function PutWord(b: Bytes, j: nat, w: nat): (r: Bytes)
    requires |b| == BSIZE && j < NINDIRECT && w < WRAP
    ensures |r| == BSIZE
  {
    b[4 * j := w % 256][4 * j + 1 := w / 256 % 256][4 * j + 2 := w / 65536 % 256][4 * j + 3 := w / 16777216]
  }

  lemma WordBytes(w: nat)
    requires w < WRAP
    ensures w / 16777216 < 256
    ensures Word4(w % 256, w / 256 % 256, w / 65536 % 256, w / 16777216) == w
  {
    var q1, q2 := w / 256, w / 65536;
    assert q2 == q1 / 256;
    assert w / 16777216 == q2 / 256;
    assert w == 256 * q1 + w % 256;
    assert q1 == 256 * q2 + q1 % 256;
    assert q2 == 256 * (q2 / 256) + q2 % 256;
  }

  lemma WordPut(b: Bytes, j: nat, w: nat, k: nat)
    requires |b| == BSIZE && j < NINDIRECT && w < WRAP && k < NINDIRECT
    ensures Word(PutWord(b, j, w), k) == if k == j then w else Word(b, k)
  {
    WordBytes(w);
  }

  lemma WordZero(j: nat)
    ensures Word(Zeroes(), j) == 0
  {
  }

  /** The block number that slot `s` of inode `ip` holds; 0 if none. */
  function Ref(disk: seq<Bytes>, ip: Inode, s: nat): (b: nat) {
    if |ip.addrs| != NDIRECT + 1 then 0
    else if s <= NDIRECT then ip.addrs[s]
    else if ip.addrs[NDIRECT] == 0 || ip.addrs[NDIRECT] >= |disk| then 0
    else Word(disk[ip.addrs[NDIRECT]], s - NDIRECT - 1)
  }

  /** The slot that names block number `bn` of the file. */
  function SlotOf(bn: nat): (s: nat) {
    if bn < NDIRECT then bn else bn + 1
  }

  /** Byte `o` of the file's block map, 0 where no block is allocated. */
  function ByteAt(disk: seq<Bytes>, ip: Inode, o: nat): (x: byte) {
    var b := Ref(disk, ip, SlotOf(o / BSIZE));
    if 0 < b < |disk| && |disk[b]| == BSIZE then disk[b][o % BSIZE] else 0
  }

  /** The first `n` bytes of the file, as one flat sequence. */
  function Flat(disk: seq<Bytes>, ip: Inode, n: nat): (c: Bytes)
    ensures |c| == n
    ensures forall o :: 0 <= o < n ==> c[o] == ByteAt(disk, ip, o)
  {
    seq(n, (o: nat) => ByteAt(disk, ip, o))
  }

  /** Every block that holds one of the first `n` bytes is allocated. */
  ghost predicate NoHoles(disk: seq<Bytes>, ip: Inode, n: nat) {
    forall bn :: 0 <= bn && bn * BSIZE < n ==> Ref(disk, ip, SlotOf(bn)) != 0
  }
}
