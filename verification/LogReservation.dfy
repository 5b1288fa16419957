/**
 The space reservation of log.c: `begin_op` admits a call only if the log can take
 MAXOPBLOCKS more blocks for it and for every call already open.
 */
module LogReservation {
  import opened BlockDisk
  import opened LogFormat
  import opened GroupCommit

  /** Blocks the open calls may still add, when each may add `m` in all. */
  ghost function Unused(m: nat, ops: map<nat, nat>): (u: int)
    decreases |ops|
  {
    if ops == map[] then 0
    else
      var op :| op in ops;
      m - ops[op] + Unused(m, ops - {op})
  }

  lemma {:induction false} UnusedSplit(m: nat, ops: map<nat, nat>, op: nat)
    requires op in ops
    ensures Unused(m, ops) == m - ops[op] + Unused(m, ops - {op})
    decreases |ops|
  {
    var q :| q in ops && Unused(m, ops) == m - ops[q] + Unused(m, ops - {q});
    if q != op {
      UnusedSplit(m, ops - {q}, op);
      UnusedSplit(m, ops - {op}, q);
      assert ops - {q} - {op} == ops - {op} - {q};
    }
  }

  lemma UnusedUpdate(m: nat, ops: map<nat, nat>, op: nat, used: nat)
    ensures Unused(m, ops[op := used]) == m - used + Unused(m, ops - {op})
  {
    UnusedSplit(m, ops[op := used], op);
    assert ops[op := used] - {op} == ops - {op};
  }

  lemma {:induction false} UnusedBounds(m: nat, ops: map<nat, nat>)
    requires forall op :: op in ops ==> ops[op] <= m
    ensures 0 <= Unused(m, ops) <= m * |ops|
    decreases |ops|
  {
    if ops != map[] {
      var op :| op in ops && Unused(m, ops) == m - ops[op] + Unused(m, ops - {op});
      UnusedBounds(m, ops - {op});
      assert |ops| == |ops - {op}| + 1;
      MulSucc(m, |ops - {op}|);
    }
  }

  lemma MulSucc(m: nat, x: nat)
    ensures m * (x + 1) == m * x + m
  {
  }

  /** What is in the log and what may still come fits, with two blocks to spare if calls leave one each. */
  ghost predicate Reserved(m: nat, s: State) {
    && (forall op :: op in s.ops ==> s.ops[op] <= m)
    && (!s.phase.Recovering? && m <= MAXOPBLOCKS ==> |s.lh| + Unused(m, s.ops) <= LOGSIZE)
    && (!s.phase.Recovering? && m < MAXOPBLOCKS ==> |s.lh| + Unused(m, s.ops) <= LOGSIZE - 2)
  }

  lemma BeginReserves(g: Geometry, m: nat, c: Config, op: nat)
    requires Inv(g, c) && Reserved(m, c.s)
    ensures Reserved(m, Next(g, m, c, Begin(op)).value.s)
  {
    hide Inv, Unused, Track;
    var s := c.s;
    if s.phase.Running? && op !in s.ops && |s.lh| + (|s.ops| + 1) * MAXOPBLOCKS <= LOGSIZE {
      UnusedUpdate(m, s.ops, op, 0);
      assert s.ops - {op} == s.ops;
      UnusedBounds(m, s.ops);
      NothingLogged(g, c);
      BeginFits(m, |s.lh|, |s.ops|, Unused(m, s.ops));
    }
  }

  lemma NothingLogged(g: Geometry, c: Config)
    requires Inv(g, c) && c.s.phase.Running?
    ensures |c.s.ops| == 0 ==> c.s.lh == []
  {
    assert |c.s.ops| == 0 ==> c.s.ops == map[];
  }

  /** What `begin_op` checks leaves room for the new call's budget. */
  lemma BeginFits(m: nat, logged: nat, calls: nat, unused: int)
    requires 0 <= unused <= m * calls && logged + (calls + 1) * MAXOPBLOCKS <= LOGSIZE && (calls == 0 ==> logged == 0)
    ensures m <= MAXOPBLOCKS ==> logged + unused + m <= LOGSIZE
    ensures m < MAXOPBLOCKS ==> logged + unused + m <= LOGSIZE - 2
  {
    assert calls <= 2;
    assert m * calls == if calls == 0 then 0 else if calls == 1 then m else 2 * m;
  }

  lemma LogWriteReserves(g: Geometry, m: nat, c: Config, op: nat, b: nat, data: Block)
    requires Inv(g, c) && Reserved(m, c.s) && Next(g, m, c, LogWrite(op, b, data)).Ok?
    ensures Reserved(m, Next(g, m, c, LogWrite(op, b, data)).value.s)
  {
    var s := c.s;
    if CanLog(g, m, s, op, b) && b !in s.lh {
      UnusedSplit(m, s.ops, op);
      UnusedUpdate(m, s.ops, op, s.ops[op] + 1);
    }
  }

  lemma NextReserves(g: Geometry, m: nat, c: Config, e: Event)
    requires Inv(g, c) && Reserved(m, c.s) && Next(g, m, c, e).Ok?
    ensures Reserved(m, Next(g, m, c, e).value.s)
  {
    match e
    case Begin(op) => BeginReserves(g, m, c, op);
    case LogWrite(op, b, data) => LogWriteReserves(g, m, c, op, b, data);
    case End(op) => if op in c.s.ops { UnusedSplit(m, c.s.ops, op); }
    case DiskStep =>
    case Crash =>
  }

  lemma {:induction false} RunReserves(g: Geometry, m: nat, d: Image, es: seq<Event>)
    requires LogEmpty(g, d)
    ensures Exec(g, m, Boot(d), es).Ok? ==> Reserved(m, Exec(g, m, Boot(d), es).value.s)
  {
    if es != [] {
      var n := |es| - 1;
      RunReserves(g, m, d, es[..n]);
      if Exec(g, m, Boot(d), es[..n]).Ok? {
        BootInv(g, d);
        RunKeeps(g, m, Boot(d), es[..n]);
        if Exec(g, m, Boot(d), es).Ok? {
          NextReserves(g, m, Exec(g, m, Boot(d), es[..n]).value, es[n]);
        }
      }
    }
  }

  /** If no call adds more than MAXOPBLOCKS blocks, logged blocks and unused budgets never exceed LOGSIZE. */
  lemma ReservationHolds(g: Geometry, m: nat, d: Image, es: seq<Event>)
    requires LogEmpty(g, d) && m <= MAXOPBLOCKS && Exec(g, m, Boot(d), es).Ok?
    ensures var s := Exec(g, m, Boot(d), es).value.s;
            !s.phase.Recovering? ==> 0 <= Unused(m, s.ops) && |s.lh| + Unused(m, s.ops) <= LOGSIZE
  {
    RunReserves(g, m, d, es);
    UnusedBounds(m, Exec(g, m, Boot(d), es).value.s.ops);
  }

  /** With the log of LOGSIZE blocks that mkfs makes, calls that add at most MAXOPBLOCKS - 1 blocks never panic. */
  lemma {:induction false} NoPanic(g: Geometry, m: nat, d: Image, es: seq<Event>)
    requires LogEmpty(g, d) && g.size >= LOGSIZE && m < MAXOPBLOCKS
    ensures Exec(g, m, Boot(d), es).Ok?
  {
    if es != [] {
      var n := |es| - 1;
      NoPanic(g, m, d, es[..n]);
      var c := Exec(g, m, Boot(d), es[..n]).value;
      BootInv(g, d);
      RunKeeps(g, m, Boot(d), es[..n]);
      RunReserves(g, m, d, es[..n]);
      NextKeeps(g, m, c, es[n]);
      if es[n].LogWrite? && CanLog(g, m, c.s, es[n].op, es[n].b) {
        UnusedBounds(m, c.s.ops);
        UnusedSplit(m, c.s.ops, es[n].op);
        UnusedBounds(m, c.s.ops - {es[n].op});
        assert c.s.phase.Running?;
      }
    }
  }

  // ----- and MAXOPBLOCKS - 1 is the most a call may add -----

  /** Call `op` logs the `count` blocks from `first`. */
  function LogRange(op: nat, first: nat, count: nat): seq<Event> {
    seq(count, (i: nat) => LogWrite(op, first + i, Block([])))
  }

  function Range(first: nat, count: nat): (r: seq<nat>) {
    seq(count, (i: nat) => first + i)
  }

  lemma {:induction false} LogRangeRuns(g: Geometry, m: nat, c: Config, op: nat, first: nat, count: nat)
    requires op in c.s.ops && c.s.ops[op] + count <= m && c.s.phase.Running?
    requires first >= g.start + g.size && first + count <= |c.s.disk|
    requires forall i :: 0 <= i < |c.s.lh| ==> c.s.lh[i] < first
    requires |c.s.lh| + count < g.size && |c.s.lh| + count <= LOGSIZE
    ensures var r := Exec(g, m, c, LogRange(op, first, count));
            && r.Ok? && r.value.s.disk == c.s.disk && r.value.s.phase == Running
            && r.value.s.lh == c.s.lh + Range(first, count)
            && r.value.s.ops == c.s.ops[op := c.s.ops[op] + count]
  {
    hide Next;
    var es := LogRange(op, first, count);
    if count > 0 {
      LogRangeRuns(g, m, c, op, first, count - 1);
      assert es[..count - 1] == LogRange(op, first, count - 1);
      assert Range(first, count) == Range(first, count - 1) + [first + count - 1];
      LogOne(g, m, Exec(g, m, c, es[..count - 1]).value, op, first + count - 1);
    } else {
      assert es == [] && Range(first, count) == [];
    }
  }

  lemma LogOne(g: Geometry, m: nat, c: Config, op: nat, b: nat)
    requires op in c.s.ops && c.s.ops[op] + 1 <= m && c.s.phase.Running?
    requires b >= g.start + g.size && b < |c.s.disk| && b !in c.s.lh
    requires |c.s.lh| + 1 < g.size && |c.s.lh| + 1 <= LOGSIZE
    ensures var r := Next(g, m, c, LogWrite(op, b, Block([])));
            && r.Ok? && r.value.s.disk == c.s.disk && r.value.s.phase == Running
            && r.value.s.lh == c.s.lh + [b] && r.value.s.ops == c.s.ops[op := c.s.ops[op] + 1]
  {
    hide Track;
  }

  /** Calls 0 and 1 open; call 0 fills its budget and ends; call 2 opens; 1 and 2 log until the log is full. */
  ghost function FillingRun(first: nat): seq<Event> {
    ((([Begin(0), Begin(1)] + LogRange(0, first, 10)) + [End(0), Begin(2)]) + LogRange(1, first + 10, 10))
    + LogRange(2, first + 20, 9)
  }

  lemma TwoBegin(g: Geometry, m: nat, d: Image)
    ensures var r := Exec(g, m, Boot(d), [Begin(0), Begin(1)]);
            && r.Ok? && r.value.s.disk == d && r.value.s.lh == [] && r.value.s.phase == Running
            && r.value.s.ops == map[0 := 0, 1 := 0]
  {
    var es := [Begin(0), Begin(1)];
    assert es[..1] == [Begin(0)] && es[..1][..0] == [];
    var c := Boot(d);
    assert Exec(g, m, c, es[..1][..0]) == Ok(c);
    var c1 := Next(g, m, c, Begin(0)).value;
    assert Exec(g, m, c, es[..1]) == Ok(c1);
    assert c1.s.ops == map[0 := 0];
    assert |c1.s.ops| == 1;
    assert Exec(g, m, c, es) == Next(g, m, c1, Begin(1));
  }

  lemma EndThenBegin(g: Geometry, m: nat, c: Config)
    requires c.s.phase == Running && |c.s.lh| == 10 && c.s.ops == map[0 := 10, 1 := 0]
    ensures var r := Exec(g, m, c, [End(0), Begin(2)]);
            && r.Ok? && r.value.s.disk == c.s.disk && r.value.s.lh == c.s.lh && r.value.s.phase == Running
            && r.value.s.ops == map[1 := 0, 2 := 0]
  {
    var es := [End(0), Begin(2)];
    assert es[..1] == [End(0)] && es[..1][..0] == [];
    assert Exec(g, m, c, es[..1][..0]) == Ok(c);
    assert c.s.ops - {0} == map[1 := 0];
    var c1 := Next(g, m, c, End(0)).value;
    assert Exec(g, m, c, es[..1]) == Ok(c1);
    assert c1.s.ops == map[1 := 0];
    assert |c1.s.ops| == 1;
    assert Exec(g, m, c, es) == Next(g, m, c1, Begin(2));
  }

  lemma FillingRunFills(g: Geometry, m: nat, d: Image)
    requires LogEmpty(g, d) && g.size == LOGSIZE && m >= MAXOPBLOCKS && |d| >= g.start + g.size + 30
    ensures var r := Exec(g, m, Boot(d), FillingRun(g.start + g.size));
            && r.Ok? && r.value.s.disk == d && |r.value.s.lh| == 29
            && 2 in r.value.s.ops && r.value.s.ops[2] == 9 && r.value.s.phase == Running
            && (forall i :: 0 <= i < 29 ==> r.value.s.lh[i] < g.start + g.size + 29)
  {
    hide Exec, Next;
    var f, c := g.start + g.size, Boot(d);
    var e1 := [Begin(0), Begin(1)];
    TwoBegin(g, m, d);
    var c1 := Exec(g, m, c, e1).value;
    LogRangeRuns(g, m, c1, 0, f, 10);
    ExecConcat(g, m, c, e1, LogRange(0, f, 10));
    var e2 := e1 + LogRange(0, f, 10);
    var c2 := Exec(g, m, c, e2).value;
    EndThenBegin(g, m, c2);
    ExecConcat(g, m, c, e2, [End(0), Begin(2)]);
    var e3 := e2 + [End(0), Begin(2)];
    var c3 := Exec(g, m, c, e3).value;
    LogRangeRuns(g, m, c3, 1, f + 10, 10);
    ExecConcat(g, m, c, e3, LogRange(1, f + 10, 10));
    var e4 := e3 + LogRange(1, f + 10, 10);
    var c4 := Exec(g, m, c, e4).value;
    LogRangeRuns(g, m, c4, 2, f + 20, 9);
    ExecConcat(g, m, c, e4, LogRange(2, f + 20, 9));
  }

  /** With that log, calls that keep the documented bound of MAXOPBLOCKS blocks each can make the kernel panic. */
  lemma FullBudgetCanPanic(g: Geometry, m: nat, d: Image)
    requires LogEmpty(g, d) && g.size == LOGSIZE && m >= MAXOPBLOCKS && |d| >= g.start + g.size + 30
    ensures exists es :: Exec(g, m, Boot(d), es).Panic?
  {
    var es, e := FillingRun(g.start + g.size), LogWrite(2, g.start + g.size + 29, Block([]));
    FillingRunFills(g, m, d);
    assert (es + [e])[..|es|] == es;
    assert Exec(g, m, Boot(d), es + [e]).Panic?;
  }

  /** The exact bound: no run panics if and only if no call may add more than MAXOPBLOCKS - 1 blocks. */
  lemma PanicFreeIff(g: Geometry, m: nat, d: Image)
    requires LogEmpty(g, d) && g.size == LOGSIZE && |d| >= g.start + g.size + 30
    ensures (forall es :: Exec(g, m, Boot(d), es).Ok?) <==> m <= MAXOPBLOCKS - 1
  {
    if m < MAXOPBLOCKS {
      forall es ensures Exec(g, m, Boot(d), es).Ok? { NoPanic(g, m, d, es); }
    } else {
      FullBudgetCanPanic(g, m, d);
    }
  }

  // ----- how full the log gets -----

  /** Calls that add at most MAXOPBLOCKS - 1 blocks leave two places of the log empty. */
  lemma LogPeak(g: Geometry, m: nat, d: Image, es: seq<Event>)
    requires LogEmpty(g, d) && m < MAXOPBLOCKS && Exec(g, m, Boot(d), es).Ok?
    ensures var s := Exec(g, m, Boot(d), es).value.s; !s.phase.Recovering? ==> |s.lh| <= LOGSIZE - 2
  {
    hide Exec, Unused;
    RunReserves(g, m, d, es);
    UnusedBounds(m, Exec(g, m, Boot(d), es).value.s.ops);
  }

  lemma BeginRuns(g: Geometry, m: nat, c: Config, op: nat)
    requires c.s.phase.Running? && op !in c.s.ops && |c.s.lh| + (|c.s.ops| + 1) * MAXOPBLOCKS <= LOGSIZE
    ensures Next(g, m, c, Begin(op)) == Ok(c.(s := c.s.(ops := c.s.ops[op := 0])))
  {
  }

  lemma EndRuns(g: Geometry, m: nat, c: Config, op: nat, other: nat)
    requires c.s.phase.Running? && op in c.s.ops && other in c.s.ops && other != op
    ensures Next(g, m, c, End(op)) == Ok(c.(s := c.s.(ops := c.s.ops - {op})))
  {
    assert other in c.s.ops - {op};
  }

  lemma AndThen(g: Geometry, m: nat, c: Config, es: seq<Event>, e: Event)
    requires Exec(g, m, c, es).Ok?
    ensures Exec(g, m, c, es + [e]) == Next(g, m, Exec(g, m, c, es).value, e)
  {
    hide Next;
    assert (es + [e])[..|es|] == es;
  }

  /** Nothing but calls: no commit has gone on and nothing has crashed. */
  ghost predicate Calls(es: seq<Event>) {
    forall i :: 0 <= i < |es| ==> !es[i].DiskStep? && !es[i].Crash?
  }

  /** Three calls are open, and have logged nothing. */
  lemma ThreeBegin(g: Geometry, m: nat, d: Image) returns (es: seq<Event>)
    ensures Calls(es)
    ensures var r := Exec(g, m, Boot(d), es);
            && r.Ok? && r.value.s.disk == d && r.value.s.lh == [] && r.value.s.phase == Running
            && r.value.s.ops == map[0 := 0, 1 := 0, 2 := 0]
  {
    TwoBegin(g, m, d);
    hide Exec, Next;
    es := [Begin(0), Begin(1)];
    var c := Exec(g, m, Boot(d), es).value;
    assert |map[0 := 0, 1 := 0]| == 2;
    BeginRuns(g, m, c, 2);
    AndThen(g, m, Boot(d), es, Begin(2));
    es := es + [Begin(2)];
  }

  lemma LogsRange(g: Geometry, m: nat, d: Image, es: seq<Event>, op: nat, first: nat, count: nat)
    returns (fs: seq<Event>)
    requires var r := Exec(g, m, Boot(d), es);
             && r.Ok? && r.value.s.disk == d && op in r.value.s.ops && r.value.s.ops[op] + count <= m
             && r.value.s.phase == Running && |r.value.s.lh| + count < g.size && |r.value.s.lh| + count <= LOGSIZE
             && g.start + g.size <= first && first + count <= |d|
             && forall i :: 0 <= i < |r.value.s.lh| ==> r.value.s.lh[i] < first
    ensures Calls(es) ==> Calls(fs)
    ensures var s, r := Exec(g, m, Boot(d), es).value.s, Exec(g, m, Boot(d), fs);
            && r.Ok? && r.value.s.disk == d && r.value.s.phase == Running
            && |r.value.s.lh| == |s.lh| + count && r.value.s.ops == s.ops[op := s.ops[op] + count]
            && forall i :: 0 <= i < |r.value.s.lh| ==> r.value.s.lh[i] < first + count
  {
    hide Exec, Next;
    LogRangeRuns(g, m, Exec(g, m, Boot(d), es).value, op, first, count);
    ExecConcat(g, m, Boot(d), es, LogRange(op, first, count));
    fs := es + LogRange(op, first, count);
  }

  /** Calls of 9 blocks fill the log to that point: 9 and 1 by calls that end, 9 each by two that stay open. */
  lemma PeakReached(g: Geometry, d: Image) returns (es: seq<Event>)
    requires LogEmpty(g, d) && g.size == LOGSIZE && |d| >= g.start + g.size + LOGSIZE
    ensures Calls(es)
    ensures var r := Exec(g, MAXOPBLOCKS - 1, Boot(d), es);
            r.Ok? && r.value.s.phase.Running? && |r.value.s.lh| == LOGSIZE - 2
  {
    hide Exec, Next;
    var m, f := MAXOPBLOCKS - 1, g.start + g.size;
    es := ThreeBegin(g, m, d);
    es := LogsRange(g, m, d, es, 0, f, 9);
    var c := Exec(g, m, Boot(d), es).value;
    assert c.s.ops - {0} == map[1 := 0, 2 := 0];
    EndRuns(g, m, c, 0, 1);
    AndThen(g, m, Boot(d), es, End(0));
    es := LogsRange(g, m, d, es + [End(0)], 2, f + 9, 1);
    es := LastTwo(g, d, es, f);
  }

  lemma LastTwo(g: Geometry, d: Image, es: seq<Event>, f: nat) returns (fs: seq<Event>)
    requires g.size == LOGSIZE && f == g.start + g.size && |d| >= f + LOGSIZE
    requires var r := Exec(g, MAXOPBLOCKS - 1, Boot(d), es);
             && r.Ok? && r.value.s.disk == d && r.value.s.phase == Running && |r.value.s.lh| == 10
             && r.value.s.ops == map[1 := 0, 2 := 1] && forall i :: 0 <= i < 10 ==> r.value.s.lh[i] < f + 10
    ensures Calls(es) ==> Calls(fs)
    ensures var r := Exec(g, MAXOPBLOCKS - 1, Boot(d), fs);
            r.Ok? && r.value.s.phase.Running? && |r.value.s.lh| == LOGSIZE - 2
  {
    hide Exec, Next;
    var m := MAXOPBLOCKS - 1;
    var c := Exec(g, m, Boot(d), es).value;
    assert c.s.ops - {2} == map[1 := 0];
    EndRuns(g, m, c, 2, 1);
    AndThen(g, m, Boot(d), es, End(2));
    var c1 := Exec(g, m, Boot(d), es + [End(2)]).value;
    assert |map[1 := 0]| == 1;
    BeginRuns(g, m, c1, 3);
    AndThen(g, m, Boot(d), es + [End(2)], Begin(3));
    fs := es + [End(2)] + [Begin(3)];
    assert Exec(g, m, Boot(d), fs).value.s.ops == map[1 := 0, 3 := 0];
    fs := LogsRange(g, m, d, fs, 1, f + 10, 9);
    fs := LogsRange(g, m, d, fs, 3, f + 19, 9);
  }
}
