/**
 The disk as the log layer sees it: a sequence of blocks in which one block at a
 time is replaced atomically (the semantics of `iderw` on the memory disk).
 A block is an array of 32-bit words; block contents are never interpreted here.
 */
module BlockDisk {

  const WORDS := 128  // BSIZE / sizeof(uint)

  datatype Block = Block(words: seq<nat>)
  type Image = seq<Block>

  datatype Write = Write(no: nat, data: Block)

  ghost predicate InRange(d: Image, ws: seq<Write>) {
    forall i :: 0 <= i < |ws| ==> ws[i].no < |d|
  }

  /** The image after the writes in `ws`, performed in order. */
  ghost function Apply(d: Image, ws: seq<Write>): (r: Image)
    requires InRange(d, ws)
    ensures |r| == |d|
  {
    if ws == [] then d
    else
      var last := ws[|ws| - 1];
      Apply(d, ws[..|ws| - 1])[last.no := last.data]
  }

  lemma ApplyOne(d: Image, ws: seq<Write>, w: Write)
    requires InRange(d, ws) && w.no < |d|
    ensures InRange(d, ws + [w])
    ensures Apply(d, ws + [w]) == Apply(d, ws)[w.no := w.data]
  {
    assert (ws + [w])[..|ws|] == ws;
  }

  lemma ApplyNothing(d: Image, ws: seq<Write>)
    ensures Apply(d, ws[..0]) == d
  {
  }

  lemma ApplyNext(d: Image, ws: seq<Write>, t: nat)
    requires InRange(d, ws) && t < |ws|
    ensures ws[..t + 1] == ws[..t] + [ws[t]]
    ensures InRange(d, ws[..t]) && InRange(d, ws[..t + 1])
    ensures Apply(d, ws[..t + 1]) == Apply(d, ws[..t])[ws[t].no := ws[t].data]
  {
    ApplyOne(d, ws[..t], ws[t]);
    assert ws[..t + 1] == ws[..t] + [ws[t]];
  }

  lemma {:induction false} ApplyConcat(d: Image, ws: seq<Write>, vs: seq<Write>)
    requires InRange(d, ws) && InRange(d, vs)
    ensures InRange(d, ws + vs)
    ensures Apply(d, ws + vs) == Apply(Apply(d, ws), vs)
  {
    if vs == [] {
      assert ws + vs == ws;
    } else {
      var n := |vs| - 1;
      ApplyConcat(d, ws, vs[..n]);
      assert ws + vs == ws + vs[..n] + [vs[n]];
      ApplyOne(d, ws + vs[..n], vs[n]);
    }
  }

  /** A block that no write names keeps its contents. */
  lemma {:induction false} ApplyUntouched(d: Image, ws: seq<Write>, a: nat)
    requires InRange(d, ws) && a < |d|
    requires forall i :: 0 <= i < |ws| ==> ws[i].no != a
    ensures Apply(d, ws)[a] == d[a]
  {
    if ws != [] {
      ApplyUntouched(d, ws[..|ws| - 1], a);
    }
  }

  /** A block holds what the last write to it put there. */
  lemma {:induction false} ApplyLast(d: Image, ws: seq<Write>, i: nat)
    requires InRange(d, ws) && i < |ws|
    requires forall j :: i < j < |ws| ==> ws[j].no != ws[i].no
    ensures Apply(d, ws)[ws[i].no] == ws[i].data
  {
    if i < |ws| - 1 {
      ApplyLast(d, ws[..|ws| - 1], i);
    }
  }

  lemma Regroup<T>(t: seq<T>, a: seq<T>, b: seq<T>, c: seq<T>, d: seq<T>)
    ensures t + a + b + c + d == t + (a + b + c + d)
  {
  }
}
