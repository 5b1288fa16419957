/**
 pipe.c: the ring of a pipe. A call of `pipewrite` or `piperead` is a row of critical sections,
 each from taking the pipe's lock to giving it up or going to sleep; the methods are one section
 each. `buf` is what the ring holds, oldest byte first.
 */
module Pipe {
  import opened Machine

  const PIPESIZE := 512

  /** Sleeps: the caller waits for the other end and will come back to where it was. */
  datatype Outcome = Done | Fails | Sleeps

  /** How many of `n` bytes fit in. */
  function Room(buf: Bytes, n: nat): nat
    requires |buf| <= PIPESIZE
  {
    Min(n, PIPESIZE - |buf|)
  }

  function WriteOutcome(buf: Bytes, n: nat, readopen: bool, killed: bool): Outcome
    requires |buf| <= PIPESIZE
  {
    if n <= PIPESIZE - |buf| then Done else if !readopen || killed then Fails else Sleeps
  }

  function ReadOutcome(buf: Bytes, writeopen: bool, killed: bool): Outcome {
    if |buf| > 0 || !writeopen then Done else if killed then Fails else Sleeps
  }

  /** How many bytes lie between the two counters, which wrap around. */
  function Held(nread: nat, nwrite: nat): (n: int) {
    if nwrite >= nread then nwrite - nread else nwrite + WRAP - nread
  }

  /** The counter after `n`. */
  function Next(n: nat): (r: nat)
    requires n < WRAP
    ensures r < WRAP
  {
    (n + 1) % WRAP
  }

  /** The place in the ring of byte `k` counted from `n`. */
  function Place(n: nat, k: nat): (i: nat)
    ensures i < PIPESIZE
  {
    (n + k) % PIPESIZE
  }

  lemma {:induction false} Turns(x: nat, m: nat)
    ensures (x + m * PIPESIZE) % PIPESIZE == x % PIPESIZE
  {
    var q, r := x / PIPESIZE, x % PIPESIZE;
    assert x + m * PIPESIZE == (q + m) * PIPESIZE + r;
  }

  /**
   The write counter points at the place behind the bytes held, because the ring's size divides the counters'
   range.
   */
  lemma WritePlace(nread: nat, nwrite: nat)
    requires nread < WRAP && nwrite < WRAP
    ensures Held(nread, nwrite) >= 0 && nwrite % PIPESIZE == Place(nread, Held(nread, nwrite))
  {
    if nwrite < nread {
      assert nread + Held(nread, nwrite) == nwrite + 8388608 * PIPESIZE;
      Turns(nwrite, 8388608);
    }
  }

  /** The tests on the counters tell a full and an empty ring. */
  lemma Tests(nread: nat, nwrite: nat)
    requires nread < WRAP && nwrite < WRAP && Held(nread, nwrite) <= PIPESIZE
    ensures nwrite == (nread + PIPESIZE) % WRAP <==> Held(nread, nwrite) == PIPESIZE
    ensures nread == nwrite <==> Held(nread, nwrite) == 0
    ensures Held(nread, nwrite) < PIPESIZE ==> Held(nread, Next(nwrite)) == Held(nread, nwrite) + 1
    ensures Held(nread, nwrite) > 0 ==> Held(Next(nread), nwrite) == Held(nread, nwrite) - 1
  {
  }

  lemma OtherPlace(n: nat, j: nat, k: nat)
    requires k < j < PIPESIZE
    ensures Place(n, k) != Place(n, j)
  {
  }

  lemma NextPlace(n: nat, k: nat)
    requires n < WRAP
    ensures Place(Next(n), k) == Place(n, k + 1)
  {
    if n + 1 == WRAP {
      assert n + (k + 1) == k + 8388608 * PIPESIZE;
      Turns(k, 8388608);
    }
  }

  class PipeRing {
    const data: array<byte>
    var nread: nat
    var nwrite: nat
    var readopen: bool
    var writeopen: bool
    ghost var buf: Bytes

    ghost predicate Valid()
      reads this, data
    {
      && data.Length == PIPESIZE && nread < WRAP && nwrite < WRAP
      && |buf| <= PIPESIZE && Held(nread, nwrite) == |buf|
      && forall k :: 0 <= k < |buf| ==> data[Place(nread, k)] == buf[k]
    }

    constructor ()
      ensures Valid() && buf == [] && readopen && writeopen && fresh(data)
    {
      data := new byte[PIPESIZE];
      nread, nwrite, readopen, writeopen, buf := 0, 0, true, true, [];
    }

    method PutByte(b: byte)
      requires Valid() && |buf| < PIPESIZE
      modifies this`nwrite, this`buf, data
      ensures Valid() && buf == old(buf) + [b]
    {
      hide Held, Next, Place;
      WritePlace(nread, nwrite);
      Tests(nread, nwrite);
      forall k: nat | k < |buf| ensures Place(nread, k) != nwrite % PIPESIZE { OtherPlace(nread, |buf|, k); }
      data[nwrite % PIPESIZE] := b;
      nwrite := Next(nwrite);
      buf := buf + [b];
    }

    method TakeByte() returns (b: byte)
      requires Valid() && |buf| > 0
      modifies this`nread, this`buf
      ensures Valid() && old(buf) == [b] + buf
    {
      assert Place(nread, 0) == nread % PIPESIZE;
      hide Held, Next, Place;
      Tests(nread, nwrite);
      b := data[nread % PIPESIZE];
      assert b == buf[0];
      forall k: nat | k < |buf| - 1 ensures data[Place(Next(nread), k)] == buf[k + 1] {
        NextPlace(nread, k);
      }
      nread := Next(nread);
      buf := buf[1..];
    }

    /** One section of `pipewrite`, going on at byte `from`; `wokeReaders` says that it woke the readers. */
    method WriteSection(src: Bytes, from: nat, killed: bool) returns (r: Outcome, i: nat, wokeReaders: bool)
      requires Valid() && from <= |src|
      modifies this`nwrite, this`buf, data
      ensures Valid() && i == from + Room(old(buf), |src| - from) && buf == old(buf) + src[from..i]
      ensures i < |src| ==> |buf| == PIPESIZE
      ensures r == Done <==> i == |src|
      ensures r == Fails <==> i < |src| && (!readopen || killed)
      ensures r == Sleeps <==> i < |src| && readopen && !killed
      ensures r == WriteOutcome(old(buf), |src| - from, readopen, killed) && wokeReaders == (r != Fails)
    {
      hide Held, Next, Place;
      i := from;
      while i < |src|
        invariant from <= i <= |src| && Valid() && buf == old(buf) + src[from..i]
      {
        Tests(nread, nwrite);
        if nwrite == (nread + PIPESIZE) % WRAP {
          if !readopen || killed {
            return Fails, i, false;
          }
          return Sleeps, i, true;
        }
        PutByte(src[i]);
        i := i + 1;
      }
      return Done, i, true;
    }

    /** One section of `piperead`; `wokeWriters` says that it woke the writers. */
    method ReadSection(n: nat, killed: bool) returns (r: Outcome, dst: Bytes, wokeWriters: bool)
      requires Valid()
      modifies this`nread, this`buf
      ensures Valid() && r == ReadOutcome(old(buf), writeopen, killed) && wokeWriters == (r == Done)
      ensures r == Fails <==> old(buf) == [] && writeopen && killed
      ensures r == Sleeps <==> old(buf) == [] && writeopen && !killed
      ensures dst == if r == Done then old(buf)[..Min(n, |old(buf)|)] else []
      ensures old(buf) == dst + buf
    {
      hide Held, Next, Place;
      Tests(nread, nwrite);
      dst := [];
      if nread == nwrite && writeopen {
        return if killed then Fails else Sleeps, dst, false;
      }
      var i := 0;
      while i < n
        invariant 0 <= i == |dst| <= n && Valid() && old(buf) == dst + buf
      {
        Tests(nread, nwrite);
        if nread == nwrite {
          break;
        }
        var b := TakeByte();
        dst := dst + [b];
        i := i + 1;
      }
      return Done, dst, true;
    }
  }
}
