/**
 proc.c and trap.c: waiting is bounded. A system of CPUs runs in steps, each one critical section
 of `ptable.lock` or one timer tick. A process that stays runnable reaches round robin in time,
 and from there on every CPU gets to it within one turn around the table.
 */
module Aging {
  import opened Machine
  import opened Scheduler

  const HALF := 0x8000_0000

  /** Tick `t` since boot as an `int` field holds it: the 32-bit counter, read as a signed number. */
  function Stamp(t: nat): (n: int)
    ensures -HALF <= n < HALF && (t - n) % WRAP == 0
    ensures n >= 0 <==> t % WRAP < HALF
  {
    var w := t % WRAP;
    assert t == t / WRAP * WRAP + w;
    if w < HALF then Multiple(t / WRAP); w else Multiple(t / WRAP + 1); w - WRAP
  }

  lemma Multiple(k: int)
    ensures k * WRAP % WRAP == 0
  {
  }

  /** `ticks - last_run` as the unsigned number it is. */
  function Waited(ticks: nat, lastRun: int): (n: nat) {
    (ticks - lastRun) % WRAP
  }

  predicate TooOld(p: Proc, ticks: nat) {
    p.state == Runnable && p.queue != RR && Waited(ticks, p.lastRun) > AGING_THRESHOLD
  }

  function AgedProc(p: Proc, ticks: nat): (r: Proc) {
    if TooOld(p, ticks) then p.(queue := RR, lastRun := Stamp(ticks)) else p
  }

  /** The table after `age_processes`. */
  function Aged(t: Table, ticks: nat): (r: Table)
    ensures forall i :: 0 <= i < NPROC ==> r[i] == AgedProc(t[i], ticks)
  {
    seq(NPROC, i requires 0 <= i < NPROC => AgedProc(t[i], ticks))
  }

  class Ptable {
    var t: Table
    var ticks: nat

    method ChangeQueue(p: nat, queue: int) returns (old_queue: int)
      requires p < NPROC
      modifies this`t
      ensures t == old(t)[p := old(t)[p].(queue := queue, lastRun := Stamp(ticks))] && old_queue == old(t)[p].queue
    {
      old_queue := t[p].queue;
      t := t[p := t[p].(queue := queue, lastRun := Stamp(ticks))];
    }

    /** Move every process that has waited too long to round robin. */
    method AgeProcesses()
      modifies this`t
      ensures t == Aged(old(t), ticks)
      ensures forall i :: 0 <= i < NPROC ==>
                var p := old(t)[i];
                t[i] == if p.state == Runnable && p.queue != RR && (ticks - p.lastRun) % WRAP > AGING_THRESHOLD
                        then p.(queue := RR, lastRun := Stamp(ticks)) else p
    {
      for p := 0 to NPROC
        invariant forall i :: 0 <= i < NPROC ==> t[i] == if i < p then AgedProc(old(t)[i], ticks) else old(t)[i]
      {
        if t[p].state == Runnable && t[p].queue != RR {
          if Waited(ticks, t[p].lastRun) > AGING_THRESHOLD {
            var _ := ChangeQueue(p, RR);
          }
        }
      }
    }
  }

  // ----- the system -----

  /**
   `ticks` counts the ticks since boot; `aged` says that `age_processes` has followed the last one.
   `last` is each CPU's round-robin position, `born` the tick at which each process arrived.
   */
  datatype Sys = Sys(t: Table, ticks: nat, aged: bool, last: seq<nat>, born: Ticks)

  type Ticks = b: seq<nat> | |b| == NPROC witness seq(NPROC, _ => 0)

  datatype Event =
    | Tick
    | Age
    | Pick(cpu: nat, p: nat)
    | Yield(p: nat)
    | Block(p: nat, state: ProcState)              // sleep or exit
    | Wake(p: nat)                                 // wakeup or kill
    | Start(p: nat, proc: Proc, born: nat)         // fork
    | Reap(p: nat)                                 // wait, or a fork that failed
    | Requeue(p: nat, queue: int)                  // by hand
    | Rerank(p: nat, rank: real)

  function WithState(t: Table, p: nat, state: ProcState): (r: Table)
    requires p < NPROC
  {
    t[p := t[p].(state := state)]
  }

  ghost predicate Step(s: Sys, e: Event, s': Sys) {
    match e
    case Tick => s.aged && s' == s.(ticks := s.ticks + 1, aged := false)
    case Age => !s.aged && s' == s.(t := Aged(s.t, s.ticks), aged := true)
    case Pick(c, p) =>
      && c < |s.last| && s.last[c] < NPROC && IsNext(s.t, s.last[c], p)
      && s' == s.(t := WithState(s.t, p, Running),
                  last := s.last[c := if s.t[p].queue == RR then p else s.last[c]])
    case Yield(p) =>
      && p < NPROC && s.t[p].state == Running
      && s' == s.(t := s.t[p := s.t[p].(state := Runnable, lastRun := Stamp(s.ticks))])
    case Block(p, state) =>
      && p < NPROC && s.t[p].state == Running && (state == Sleeping || state == Zombie)
      && s' == s.(t := WithState(s.t, p, state))
    case Wake(p) => p < NPROC && s.t[p].state == Sleeping && s' == s.(t := WithState(s.t, p, Runnable))
    case Start(p, proc, born) =>
      && p < NPROC && (s.t[p].state == Unused || s.t[p].state == Embryo)
      && (proc.state == Embryo || proc.state == Runnable) && RR <= proc.queue <= BJF
      && born <= s.ticks && proc.arrival == proc.lastRun == Stamp(born)
      && s' == s.(t := s.t[p := proc], born := s.born[p := born])
    case Reap(p) =>
      && p < NPROC && (s.t[p].state == Zombie || s.t[p].state == Embryo)
      && s' == s.(t := WithState(s.t, p, Unused))
    case Requeue(p, queue) =>
      p < NPROC && s' == s.(t := s.t[p := s.t[p].(queue := queue, lastRun := Stamp(s.ticks))])
    case Rerank(p, rank) => p < NPROC && s' == s.(t := s.t[p := s.t[p].(rank := rank)])
  }

  ghost predicate Run(ss: seq<Sys>, es: seq<Event>) {
    |ss| == |es| + 1 && forall i :: 0 <= i < |es| ==> Step(ss[i], es[i], ss[i + 1])
  }

  /** Process `q` is runnable all along and nobody moves it to another queue by hand. */
  ghost predicate Waits(ss: seq<Sys>, es: seq<Event>, q: nat)
    requires q < NPROC
  {
    && (forall i :: 0 <= i < |ss| ==> ss[i].t[q].state == Runnable)
    && (forall i :: 0 <= i < |es| ==> !(es[i].Requeue? && es[i].p == q))
  }

  /** One round of the scheduler on CPU `c` is the step Pick, or changes nothing if there is nothing to run. */
  method Round(s: Sys, c: nat) returns (p: nat, s': Sys)
    requires c < |s.last| && s.last[c] < NPROC
    ensures p == NPROC <==> Idle(s.t)
    ensures p <= NPROC && (p == NPROC ==> s' == s)
    ensures p < NPROC ==>
              && Step(s, Pick(c, p), s') && s.t[p].state == Runnable && s'.t == s.t[p := s.t[p].(state := Running)]
              && s'.last == s.last[c := if s.t[p].queue == RR then p else s.last[c]]
              && s'.ticks == s.ticks && s'.aged == s.aged && s'.born == s.born
  {
    var last;
    p, last := Choose(s.t, s.last[c]);
    s' := s;
    if p != NPROC {
      s' := s.(t := s.t[p := s.t[p].(state := Running)], last := s.last[c := last]);
    }
  }

  // ----- aging -----

  /** `last_run` stands for tick `l`, up to turns of the counter, and less than one turn has passed since. */
  ghost predicate RanAt(s: Sys, q: nat, l: int)
    requires q < NPROC
  {
    (l - s.t[q].lastRun) % WRAP == 0 && s.ticks - l < WRAP - 1
  }

  /**
   Between `s` and `s'` process `q`, which last ran at tick `l`, was left alone or aged: aged if a tick
   had been handled more than AGING_THRESHOLD after `l`, and left alone if none had.
   */
  ghost predicate AgesIn(s: Sys, s': Sys, q: nat, l: int)
    requires q < NPROC
  {
    var handled := if s'.aged then s'.ticks else s'.ticks - 1;
    var p, p' := s.t[q], s'.t[q];
    && s.ticks <= s'.ticks
    && (p'.queue == RR || (p'.queue == p.queue && p'.lastRun == p.lastRun))
    && (handled > s.ticks && handled - l > AGING_THRESHOLD ==> p'.queue == RR)
    && (l <= s.ticks && handled - l <= AGING_THRESHOLD ==> p'.queue == p.queue && p'.lastRun == p.lastRun)
  }

  lemma WaitedIs(ticks: nat, lastRun: int, l: int)
    requires (l - lastRun) % WRAP == 0 && 0 <= ticks - l < WRAP
    ensures Waited(ticks, lastRun) == ticks - l
  {
    assert ticks - lastRun == (ticks - l) + (l - lastRun) / WRAP * WRAP;
  }

  /** The tick that `s'` handles is the first after `s`, or the process had been aged before, or it is aged now. */
  lemma AgesNow(s0: Sys, s: Sys, q: nat, l: int)
    requires q < NPROC && RanAt(s0, q, l) && AgesIn(s0, s, q, l) && !s.aged && s.t[q].state == Runnable
    ensures s.ticks > s0.ticks && s.ticks - l > AGING_THRESHOLD ==> AgedProc(s.t[q], s.ticks).queue == RR
    ensures l <= s0.ticks && s.ticks - l <= AGING_THRESHOLD ==> AgedProc(s.t[q], s.ticks) == s.t[q]
  {
    if s.ticks > s0.ticks && s.ticks - l > AGING_THRESHOLD && s.t[q].queue != RR {
      WaitedIs(s.ticks, s.t[q].lastRun, l);
    }
    if l <= s0.ticks && s.ticks - l <= AGING_THRESHOLD {
      WaitedIs(s.ticks, s.t[q].lastRun, l);
    }
  }

  lemma AgesOne(s0: Sys, s: Sys, e: Event, s': Sys, q: nat, l: int)
    requires q < NPROC && RanAt(s0, q, l) && AgesIn(s0, s, q, l) && Step(s, e, s')
    requires s.t[q].state == Runnable == s'.t[q].state && !(e.Requeue? && e.p == q)
    ensures AgesIn(s0, s', q, l)
  {
    hide RanAt, Stamp, Waited, IsNext;
    if e.Age? { AgesNow(s0, s, q, l); }
  }

  lemma {:induction false} AgesAll(ss: seq<Sys>, es: seq<Event>, q: nat, l: int)
    requires q < NPROC && Run(ss, es) && Waits(ss, es, q) && RanAt(ss[0], q, l)
    ensures AgesIn(ss[0], ss[|es|], q, l)
  {
    var n := |es|;
    if n > 0 {
      hide RanAt, AgesIn, Step;
      assert Run(ss[..n], es[..n - 1]) && Waits(ss[..n], es[..n - 1], q);
      AgesAll(ss[..n], es[..n - 1], q, l);
      AgesOne(ss[0], ss[n - 1], es[n - 1], ss[n], q, l);
    }
  }

  /**
   The tick at which process `q` last ran: it yielded, was made, was moved by hand or was aged; `l` if
   none of that has happened in the run.
   */
  ghost function LastRan(ss: seq<Sys>, es: seq<Event>, q: nat, l: nat): (t: nat)
    requires |ss| == |es| + 1 && q < NPROC
  {
    if es == [] then l
    else
      var n := |es| - 1;
      var moved := es[n].Age? && ss[n + 1].t[q].queue != ss[n].t[q].queue;
      if es[n] == Yield(q) || (es[n].Requeue? && es[n].p == q) || moved then ss[n].ticks
      else if es[n].Start? && es[n].p == q then es[n].born
      else LastRan(ss[..n + 1], es[..n], q, l)
  }

  /** `last_run` holds that tick in every state of every run. */
  lemma {:induction false} LastRunIs(ss: seq<Sys>, es: seq<Event>, q: nat, l: nat)
    requires q < NPROC && Run(ss, es) && ss[0].t[q].lastRun == Stamp(l)
    ensures ss[|es|].t[q].lastRun == Stamp(LastRan(ss, es, q, l))
  {
    if es != [] {
      var n := |es| - 1;
      assert Run(ss[..n + 1], es[..n]);
      LastRunIs(ss[..n + 1], es[..n], q, l);
      hide Stamp, IsNext, Waited;
    }
  }

  /** Whatever `last_run` says, and however often the counter has turned, two ticks more are always enough. */
  lemma AlwaysAges(ss: seq<Sys>, es: seq<Event>, q: nat)
    requires q < NPROC && Run(ss, es) && Waits(ss, es, q)
    requires ss[|es|].aged && ss[|es|].ticks >= ss[0].ticks + AGING_THRESHOLD + 2
    ensures ss[|es|].t[q].queue == RR
  {
    var w := Waited(ss[0].ticks, ss[0].t[q].lastRun);
    var l := if w < WRAP - 1 then ss[0].ticks - w else ss[0].ticks + 1;
    assert RanAt(ss[0], q, l) by { Congruent(ss[0].ticks, ss[0].t[q].lastRun); }
    hide RanAt;
    AgesAll(ss, es, q, l);
  }

  lemma Congruent(ticks: nat, lastRun: int)
    ensures var w := Waited(ticks, lastRun);
            (ticks - w - lastRun) % WRAP == 0 && (w == WRAP - 1 ==> (ticks + 1 - lastRun) % WRAP == 0)
  {
    var w, k := Waited(ticks, lastRun), (ticks - lastRun) / WRAP;
    assert ticks - lastRun == k * WRAP + w;
    assert ticks - w - lastRun == k * WRAP;
    Multiple(k);
    if w == WRAP - 1 { Multiple(k + 1); }
  }

  // ----- round robin -----

  /** How often CPU `c` chooses a process. */
  function Picks(es: seq<Event>, c: nat): (n: nat) {
    if |es| == 0 then 0 else (if es[0].Pick? && es[0].cpu == c then 1 else 0) + Picks(es[1..], c)
  }

  /** A choice brings the CPU nearer to any process that is ready in round robin. */
  lemma PickCloser(t: Table, last: nat, p: nat, q: nat)
    requires last < NPROC && q < NPROC && Ready(t[q], RR) && IsNext(t, last, p) && p != q
    ensures t[p].queue == RR && Distance(p, q) < Distance(last, q)
  {
    assert Distance(last, p) != Distance(last, q);
  }

  lemma StepCloser(s: Sys, e: Event, s': Sys, c: nat, q: nat)
    requires q < NPROC && Step(s, e, s') && Ready(s.t[q], RR) && Ready(s'.t[q], RR) && c < |s.last| && s.last[c] < NPROC
    ensures c < |s'.last| && s'.last[c] < NPROC
    ensures Distance(s'.last[c], q) + (if e.Pick? && e.cpu == c then 1 else 0) <= Distance(s.last[c], q)
  {
    if e.Pick? {
      hide IsNext;
      if e.cpu == c { PickCloser(s.t, s.last[c], e.p, q); }
    }
  }

  /** While `q` waits in round robin, a CPU makes fewer choices than there are entries between its position and `q`. */
  lemma {:induction false} TurnBound(ss: seq<Sys>, es: seq<Event>, c: nat, q: nat)
    requires q < NPROC && Run(ss, es) && c < |ss[0].last| && ss[0].last[c] < NPROC
    requires forall i :: 0 <= i < |ss| ==> Ready(ss[i].t[q], RR)
    ensures Picks(es, c) < Distance(ss[0].last[c], q)
  {
    if |es| > 0 {
      StepCloser(ss[0], es[0], ss[1], c, q);
      assert Run(ss[1..], es[1..]);
      TurnBound(ss[1..], es[1..], c, q);
    }
  }

  lemma {:induction false} StaysInRoundRobin(ss: seq<Sys>, es: seq<Event>, q: nat)
    requires q < NPROC && Run(ss, es) && Waits(ss, es, q) && ss[0].t[q].queue == RR
    ensures forall i :: 0 <= i < |ss| ==> Ready(ss[i].t[q], RR)
  {
    if |es| > 0 {
      assert Step(ss[0], es[0], ss[1]);
      assert Run(ss[1..], es[1..]) && Waits(ss[1..], es[1..], q);
      StaysInRoundRobin(ss[1..], es[1..], q);
    }
  }

  /**
   A process that stays runnable and is not moved by hand is in round robin once a tick has been
   handled more than AGING_THRESHOLD ticks after tick `l`, at which it last ran, or in any case after
   two ticks more. From then on no CPU makes as many as NPROC choices while it goes on waiting.
   */
  lemma BoundedWaiting(ss: seq<Sys>, es: seq<Event>, q: nat, l: nat, m: nat, c: nat)
    requires q < NPROC && Run(ss, es) && Waits(ss, es, q) && m <= |es|
    requires ss[m].aged
    requires || ss[m].ticks >= ss[0].ticks + AGING_THRESHOLD + 2
             || (&& ss[0].t[q].lastRun == Stamp(l) && ss[0].ticks - l < WRAP - 1
                 && ss[m].ticks > ss[0].ticks && ss[m].ticks - l > AGING_THRESHOLD)
    requires c < |ss[m].last| && ss[m].last[c] < NPROC
    ensures ss[m].t[q].queue == RR && Picks(es[m..], c) < NPROC
  {
    hide Step;
    assert Run(ss[..m + 1], es[..m]) && Waits(ss[..m + 1], es[..m], q);
    if ss[m].ticks >= ss[0].ticks + AGING_THRESHOLD + 2 {
      AlwaysAges(ss[..m + 1], es[..m], q);
    } else {
      AgesAll(ss[..m + 1], es[..m], q, l);
    }
    assert Run(ss[m..], es[m..]) && Waits(ss[m..], es[m..], q);
    StaysInRoundRobin(ss[m..], es[m..], q);
    TurnBound(ss[m..], es[m..], c, q);
  }

  // ----- idling -----

  /** Arrival times are stamps of ticks that have passed. */
  ghost predicate Timed(s: Sys) {
    forall i :: 0 <= i < NPROC && s.t[i].state != Unused ==> s.t[i].arrival == Stamp(s.born[i]) && s.born[i] <= s.ticks
  }

  lemma TimedKept(s: Sys, e: Event, s': Sys)
    requires Timed(s) && Step(s, e, s')
    ensures Timed(s')
  {
    hide Stamp;
    forall i | 0 <= i < NPROC && s'.t[i].state != Unused
      ensures s'.t[i].arrival == Stamp(s'.born[i]) && s'.born[i] <= s'.ticks
    {
      assert (e.Start? && e.p == i) || (s.t[i].state != Unused && s'.t[i].arrival == s.t[i].arrival);
    }
  }

  lemma {:induction false} TimedAlways(ss: seq<Sys>, es: seq<Event>)
    requires Run(ss, es) && Timed(ss[0])
    ensures Timed(ss[|es|])
  {
    if |es| > 0 {
      TimedKept(ss[0], es[0], ss[1]);
      assert Run(ss[1..], es[1..]);
      TimedAlways(ss[1..], es[1..]);
    }
  }

  /** The process waits in one of the three queues. */
  predicate Queued(p: Proc) {
    p.state == Runnable && RR <= p.queue <= BJF
  }

  /** Its arrival time has come out negative, so the search of queue 2 passes over it. */
  predicate Overlooked(p: Proc, born: nat) {
    p.queue == LCFS && born % WRAP >= HALF
  }

  /**
   In every state of every run, a CPU finds nothing to run exactly if every runnable process of
   queues 1 to 3 is one of queue 2 that arrived in the second half of a turn of the tick counter.
   */
  lemma IdleExactly(ss: seq<Sys>, es: seq<Event>)
    requires Run(ss, es) && Timed(ss[0])
    ensures var s := ss[|es|];
            Idle(s.t) <==> forall i :: 0 <= i < NPROC && Queued(s.t[i]) ==> Overlooked(s.t[i], s.born[i])
  {
    TimedAlways(ss, es);
    var s := ss[|es|];
    if Idle(s.t) {
      forall i | 0 <= i < NPROC && Queued(s.t[i]) ensures Overlooked(s.t[i], s.born[i]) {
        assert !Ready(s.t[i], RR) && !Ready(s.t[i], BJF);
      }
    }
  }

  /** Up to tick 2^31 a CPU idles exactly if queues 1 to 3 hold no runnable process. */
  lemma IdleIff(ss: seq<Sys>, es: seq<Event>)
    requires Run(ss, es) && Timed(ss[0]) && ss[|es|].ticks < HALF
    ensures Idle(ss[|es|].t) <==> forall i :: 0 <= i < NPROC ==> !Queued(ss[|es|].t[i])
  {
    IdleExactly(ss, es);
    TimedAlways(ss, es);
    hide Idle, Stamp;
  }

  // ----- a process that nobody runs -----

  const NOBODY := Proc(Unused, 0, 0, 0, 0.0)

  /** Before the first process: one CPU, nothing in the table. */
  function Booted(): (s: Sys) {
    Sys(seq(NPROC, _ => NOBODY), 0, true, [NPROC - 1], seq(NPROC, _ => 0))
  }

  /** Tick `n`: init, process 1, waits for the shell, process 2, which runs. */
  function ShellRuns(n: nat): (s: Sys) {
    Sys(WithShell(Running, n), n, true, [1], Booted().born)
  }

  function WithShell(state: ProcState, n: nat): (t: Table) {
    var init := Proc(Sleeping, RR, Stamp(0), Stamp(0), 0.0);
    Booted().t[0 := init][1 := Proc(state, RR, Stamp(n), Stamp(0), 0.0)]
  }

  lemma ShellAt(state: ProcState, n: nat, state': ProcState, m: nat)
    ensures WithShell(state, n)[1] == Proc(state, RR, Stamp(n), Stamp(0), 0.0)
    ensures WithShell(state, n)[1 := Proc(state', RR, Stamp(m), Stamp(0), 0.0)] == WithShell(state', m)
    ensures forall i :: 0 <= i < NPROC && i != 1 ==> !Ready(WithShell(state, n)[i], RR)
  {
    hide Stamp;
  }

  lemma AddStep(ss: seq<Sys>, es: seq<Event>, e: Event, s: Sys) returns (ss': seq<Sys>, es': seq<Event>)
    requires Run(ss, es) && Step(ss[|es|], e, s)
    ensures Run(ss', es') && ss'[0] == ss[0] && |es'| == |es| + 1 && ss'[|es'|] == s
  {
    hide Step;
    ss', es' := ss + [s], es + [e];
  }

  /** The only ready process of round robin is next. */
  lemma OnlyReady(t: Table, last: nat, p: nat)
    requires last < NPROC && p < NPROC && Ready(t[p], RR)
    requires forall i :: 0 <= i < NPROC && i != p ==> !Ready(t[i], RR)
    ensures IsNext(t, last, p)
  {
  }

  /** The kernel starts init, init forks the shell and waits for it. */
  lemma ShellStarts() returns (ss: seq<Sys>, es: seq<Event>)
    ensures Run(ss, es) && ss[0] == Booted() && ss[|es|] == ShellRuns(0)
  {
    hide Stamp, IsNext;
    var newborn := Proc(Runnable, RR, Stamp(0), Stamp(0), 0.0);
    var s0 := Booted();
    var s1 := s0.(t := s0.t[0 := newborn]);
    OnlyReady(s1.t, NPROC - 1, 0);
    var s2 := s1.(t := WithState(s1.t, 0, Running), last := [0]);
    var s3 := s2.(t := s2.t[1 := newborn]);
    var s4 := s3.(t := WithState(s3.t, 0, Sleeping));
    OnlyReady(s4.t, 0, 1);
    ss, es := [s0], [];
    ss, es := AddStep(ss, es, Start(0, newborn, 0), s1);
    ss, es := AddStep(ss, es, Pick(0, 0), s2);
    ss, es := AddStep(ss, es, Start(1, newborn, 0), s3);
    ss, es := AddStep(ss, es, Block(0, Sleeping), s4);
    assert WithState(s4.t, 1, Running) == WithShell(Running, 0);
    ss, es := AddStep(ss, es, Pick(0, 1), ShellRuns(0));
  }

  lemma ShellStays(n: nat)
    ensures Aged(WithShell(Running, n), n + 1) == WithShell(Running, n)
  {
    hide Stamp;
  }

  /** A timer tick: the shell gives way, and is the next to run again. */
  lemma ShellTick(ss: seq<Sys>, es: seq<Event>, n: nat) returns (ss': seq<Sys>, es': seq<Event>)
    requires Run(ss, es) && ss[|es|] == ShellRuns(n)
    ensures Run(ss', es') && ss'[0] == ss[0] && ss'[|es'|] == ShellRuns(n + 1)
  {
    hide Stamp, IsNext, Run, WithShell, Booted;
    var s0 := ShellRuns(n);
    var s1 := s0.(ticks := n + 1, aged := false);
    ShellStays(n);
    var s2 := s1.(aged := true);
    var s3 := s2.(t := WithShell(Runnable, n + 1));
    ShellAt(Running, n, Runnable, n + 1);
    ShellAt(Runnable, n + 1, Running, n + 1);
    OnlyReady(s3.t, 1, 1);
    assert s3.last[0 := 1] == s3.last;
    ss', es' := AddStep(ss, es, Tick, s1);
    ss', es' := AddStep(ss', es', Age, s2);
    ss', es' := AddStep(ss', es', Yield(1), s3);
    ss', es' := AddStep(ss', es', Pick(0, 1), ShellRuns(n + 1));
  }

  lemma {:induction false} TimePasses(n: nat) returns (ss: seq<Sys>, es: seq<Event>)
    ensures Run(ss, es) && ss[0] == Booted() && ss[|es|] == ShellRuns(n)
  {
    if n == 0 {
      ss, es := ShellStarts();
    } else {
      ss, es := TimePasses(n - 1);
      ss, es := ShellTick(ss, es, n - 1);
    }
  }

  /** A run from boot: at tick 2^31 the shell forks a command and waits for it, and the CPU idles over the command. */
  lemma LateForkIdles() returns (ss: seq<Sys>, es: seq<Event>)
    ensures Run(ss, es) && ss[0] == Booted() && Timed(ss[0]) && ss[|es|].ticks == HALF
    ensures Queued(ss[|es|].t[2]) && Idle(ss[|es|].t)
  {
    hide Run;
    ss, es := TimePasses(HALF);
    var command := Proc(Runnable, LCFS, Stamp(HALF), Stamp(HALF), 0.0);
    var s0 := ShellRuns(HALF);
    var s1 := s0.(t := s0.t[2 := command], born := s0.born[2 := HALF]);
    var s2 := s1.(t := WithState(s1.t, 1, Sleeping));
    ss, es := AddStep(ss, es, Start(2, command, HALF), s1);
    ss, es := AddStep(ss, es, Block(1, Sleeping), s2);
    assert forall i :: 2 < i < NPROC ==> s2.t[i] == NOBODY;
  }
}
