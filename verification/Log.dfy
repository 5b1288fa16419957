/**
 log.c: the in-memory log, the commit sequence and recovery. `trace` records every
 block write in order, so the contracts fix not only the final disk but every image
 a crash can expose.
 */
module Log {
  import opened BlockDisk
  import opened LogFormat

  datatype Outcome = Done | Panic

  class Log {
    const g: Geometry
    var disk: Image
    var pinned: map<nat, Block>  // buffers modified under the log: B_DIRTY, not yet written
    var n: nat                   // lh.n
    var block: array<nat>        // lh.block
    var outstanding: nat
    var committing: bool
    ghost var trace: seq<Write>

    ghost predicate Valid()
      reads this, block
    {
      && block.Length == LOGSIZE && n <= LOGSIZE
      && Loggable(g, |disk|, block[..n])
    }

    /** Every logged block is in the cache with the contents to be committed. */
    ghost predicate Cached()
      requires n <= block.Length
      reads this, block
    {
      AllPinned(block[..n], pinned)
    }

    ghost function Logged(): (lh: seq<nat>)
      requires n <= block.Length
      reads this, block
    {
      block[..n]
    }

    constructor (g: Geometry, disk: Image)
      requires GeometryOk(g, |disk|)
      ensures Valid() && fresh(block)
      ensures this.g == g && this.disk == disk && Logged() == [] && pinned == map[]
      ensures outstanding == 0 && !committing && trace == []
    {
      this.g, this.disk := g, disk;
      pinned, n, outstanding, committing, trace := map[], 0, 0, false, [];
      block := new nat[LOGSIZE](_ => 0);
    }

    /** `iderw` on a dirty buffer: replace one block on disk. */
    method DiskWrite(no: nat, data: Block)
      requires no < |disk|
      modifies this`disk, this`trace
      ensures disk == old(disk)[no := data] && trace == old(trace) + [Write(no, data)]
    {
      disk, trace := disk[no := data], trace + [Write(no, data)];
    }

    /** One pass of the loop in `begin_op`; a caller that is not admitted sleeps and tries again. */
    method BeginOp() returns (admitted: bool)
      modifies this`outstanding
      ensures admitted <==> !committing && n + (old(outstanding) + 1) * MAXOPBLOCKS <= LOGSIZE
      ensures outstanding == if admitted then old(outstanding) + 1 else old(outstanding)
    {
      if committing {
        admitted := false;
      } else if n + (outstanding + 1) * MAXOPBLOCKS > LOGSIZE {
        admitted := false;
      } else {
        outstanding := outstanding + 1;
        admitted := true;
      }
    }

    /** Record block `b`, whose cached contents are now `data`, in the current transaction. */
    method LogWrite(b: nat, data: Block) returns (r: Outcome)
      requires Valid() && Cached()
      requires b < |disk| && !InLog(g, b)
      modifies this`n, this`pinned, block
      ensures Valid() && Cached() && block == old(block)
      ensures r == Panic <==> old(n) >= LOGSIZE || old(n) >= g.size - 1 || outstanding < 1
      ensures r == Panic ==> Logged() == old(Logged()) && pinned == old(pinned)
      ensures r == Done ==> pinned == old(pinned)[b := data]
      ensures r == Done ==> Logged() == if b in old(Logged()) then old(Logged()) else old(Logged()) + [b]
    {
      if n >= LOGSIZE || n >= g.size - 1 {
        return Panic;
      }
      if outstanding < 1 {
        return Panic;
      }
      var i := 0;
      while i < n && block[i] != b
        invariant 0 <= i <= n
        invariant b !in block[..i]
      {
        i := i + 1;
      }
      assert i < n ==> block[i] == b && block[..n][i] == b;
      block[i] := b;
      if i == n {
        n := n + 1;
        assert block[..n] == old(block[..n]) + [b];
      } else {
        assert block[..n] == old(block[..n]);
      }
      pinned := pinned[b := data];
      return Done;
    }

    /** Copy the pinned contents of the logged blocks to the log slots. */
    method WriteLog()
      requires Valid() && Cached() && LogEmpty(g, disk)
      modifies this`disk, this`trace
      ensures Valid()
      ensures n > 0 ==> trace == old(trace) + CommitWrites(g, old(disk), Logged(), pinned)[..n]
      ensures n > 0 ==> disk == Apply(old(disk), CommitWrites(g, old(disk), Logged(), pinned)[..n])
    {
      hide Apply, CommitWrites, LogEmpty, AllPinned;
      ghost var d, lh := disk, Logged();
      ghost var ws := if n == 0 then [] else CommitWrites(g, d, lh, pinned);
      ApplyNothing(d, ws);
      var tail := 0;
      while tail < n
        invariant 0 <= tail <= n
        invariant |disk| == |d|
        invariant n > 0 ==> trace == old(trace) + ws[..tail] && disk == Apply(d, ws[..tail])
      {
        CommitCopies(g, d, lh, pinned, tail);
        DiskWrite(Slot(g, tail), pinned[block[tail]]);
        ApplyNext(d, ws, tail);
        tail := tail + 1;
      }
    }

    /** Write the in-memory header to disk, leaving stale words past its end. */
    method WriteHead()
      requires Valid() && |disk[g.start].words| == WORDS
      modifies this`disk, this`trace
      ensures Valid()
      ensures disk == old(disk)[g.start := PutHeader(old(disk)[g.start], Logged())]
      ensures trace == old(trace) + [Write(g.start, PutHeader(old(disk)[g.start], Logged()))]
    {
      var h := disk[g.start];
      DiskWrite(g.start, Block([n] + block[..n] + h.words[n + 1..]));
    }

    /** Copy the log slots to the home blocks the in-memory header lists. */
    method InstallTrans()
      requires Valid()
      modifies this`disk, this`trace, this`pinned
      ensures Valid()
      ensures trace == old(trace) + Installs(g, old(disk), Logged())
      ensures disk == Apply(old(disk), Installs(g, old(disk), Logged()))
      ensures pinned == Unpinned(old(pinned), Logged())
    {
      hide Unpinned, Apply;
      ghost var d, lh := disk, Logged();
      ghost var ws := Installs(g, d, lh);
      UnpinNothing(pinned, lh);
      ApplyNothing(d, ws);
      var tail := 0;
      while tail < n
        invariant 0 <= tail <= n
        invariant |disk| == |d|
        invariant trace == old(trace) + ws[..tail] && disk == Apply(d, ws[..tail])
        invariant pinned == Unpinned(old(pinned), lh[..tail])
      {
        ApplyUntouched(d, ws[..tail], Slot(g, tail));
        assert ws[tail] == Write(block[tail], disk[Slot(g, tail)]);
        pinned := pinned - {block[tail]};
        DiskWrite(block[tail], disk[Slot(g, tail)]);
        ApplyNext(d, ws, tail);
        UnpinNext(old(pinned), lh, tail);
        tail := tail + 1;
      }
      assert ws[..n] == ws && lh[..n] == lh;
    }

    /** The whole commit: its writes are exactly `CommitWrites`, whose every prefix recovers all-or-nothing. */
    method Commit()
      requires Valid() && Cached() && LogEmpty(g, disk)
      modifies this`disk, this`trace, this`pinned, this`n
      ensures Valid() && LogEmpty(g, disk) && Logged() == []
      ensures trace == old(trace) + CommitWrites(g, old(disk), old(Logged()), old(pinned))
      ensures disk == Apply(old(disk), CommitWrites(g, old(disk), old(Logged()), old(pinned)))
      ensures SameHome(g, disk, Installed(old(disk), old(Logged()), old(pinned)))
      ensures pinned == Unpinned(old(pinned), old(Logged()))
    {
      hide Apply, CommitWrites, Installs, Installed, SameHome, Unpinned, PutHeader, LogEmpty, AllPinned;
      ghost var d, lh, p := disk, Logged(), pinned;
      CommitNothing(g, d, lh, p);
      if n > 0 {
        WriteLog();
        CommitFirstHalf(g, d, lh, p, disk);
        WriteHead();
        ghost var e := disk;
        InstallTrans();
        CommitSecondHalf(g, d, lh, p, e, disk);
        n := 0;
        WriteHead();
        assert trace == old(trace) + CommitWrites(g, d, lh, p) by {
          ghost var ws := CommitWrites(g, d, lh, p);
          Regroup(old(trace), ws[..|lh|], ws[..|lh| + 1][|lh|..], Installs(g, e, lh), trace[|trace| - 1..]);
        }
      }
      CommitDone(g, d, lh, p);
    }

    /** End a system call; the last one open commits the whole group before it returns. */
    method EndOp() returns (r: Outcome)
      requires Valid() && Cached() && LogEmpty(g, disk) && outstanding >= 1
      modifies this`outstanding, this`committing, this`disk, this`trace, this`pinned, this`n
      ensures Valid() && Cached() && LogEmpty(g, disk) && outstanding == old(outstanding) - 1
      ensures r == Panic <==> old(committing)
      ensures r == Done ==> !committing
      ensures r == Panic || outstanding > 0 ==>
                disk == old(disk) && trace == old(trace) && Logged() == old(Logged()) && pinned == old(pinned)
      ensures r == Done && outstanding == 0 ==>
                && Logged() == [] && pinned == Unpinned(old(pinned), old(Logged()))
                && trace == old(trace) + CommitWrites(g, old(disk), old(Logged()), old(pinned))
                && disk == Apply(old(disk), CommitWrites(g, old(disk), old(Logged()), old(pinned)))
    {
      outstanding := outstanding - 1;
      if committing {
        return Panic;
      }
      if outstanding == 0 {
        committing := true;
        Commit();
        committing := false;
      }
      return Done;
    }

    /** Load the on-disk header into memory. */
    method ReadHead()
      requires block.Length == LOGSIZE && HeaderOk(g, disk)
      modifies this`n, block
      ensures Valid() && Logged() == Head(g, disk)
    {
      var h := disk[g.start].words;
      n := h[0];
      var i := 0;
      while i < n
        invariant 0 <= i <= n == h[0]
        invariant forall j :: 0 <= j < i ==> block[j] == h[1 + j]
      {
        block[i] := h[i + 1];
        i := i + 1;
      }
      assert block[..n] == Head(g, disk);
    }

    /** Boot: replay the log if its header commits anything, then empty it. */
    method RecoverFromLog()
      requires block.Length == LOGSIZE && HeaderOk(g, disk)
      modifies this`disk, this`trace, this`pinned, this`n, block
      ensures Valid() && Logged() == [] && LogEmpty(g, disk)
      ensures trace == old(trace) + RecoveryWrites(g, old(disk))
      ensures disk == Recover(g, old(disk))
    {
      ghost var d := disk;
      ReadHead();
      ghost var lh := Logged();
      InstallTrans();
      RecoveryPhases(g, d, disk);
      n := 0;
      WriteHead();
      RecoverInLog(g, d);
    }
  }
}
