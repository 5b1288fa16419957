/**
 proc.c: which process runs next. Round robin comes first, then the latest arrival of queue 2,
 then the best job of queue 3; processes that wait too long are moved to round robin. The rank of
 a job is a value with a total order.
 */
module Scheduler {

  const NPROC := 64
  const AGING_THRESHOLD := 8000
  const RR := 1
  const LCFS := 2
  const BJF := 3

  datatype ProcState = Unused | Embryo | Sleeping | Runnable | Running | Zombie
  datatype Proc = Proc(state: ProcState, queue: int, lastRun: int, arrival: int, rank: real)
  type Table = t: seq<Proc> | |t| == NPROC witness seq(NPROC, _ => Proc(Unused, 0, 0, 0, 0.0))

  /** Process `p` can be chosen from queue `q`. */
  predicate Ready(p: Proc, q: int) {
    p.state == Runnable && p.queue == q
  }

  // ----- the three searches -----

  /** How many steps lead from entry `last` around the table to entry `p`: 1 for the next, NPROC for `last` itself. */
  function Distance(last: nat, p: nat): (n: nat)
    requires last < NPROC && p < NPROC
    ensures 1 <= n <= NPROC
  {
    if p > last then p - last else p + NPROC - last
  }

  /** The first ready round-robin process after `last`, `last` itself coming last; NPROC if there is none. */
  method FindNextRoundRobin(t: Table, last: nat) returns (p: nat)
    requires last < NPROC
    ensures p == NPROC <==> forall i :: 0 <= i < NPROC ==> !Ready(t[i], RR)
    ensures p < NPROC ==> Ready(t[p], RR)
    ensures p < NPROC ==> forall i :: 0 <= i < NPROC && Ready(t[i], RR) ==>
              Distance(last, p) <= Distance(last, i)
    ensures p < NPROC ==> forall i :: 0 <= i < NPROC && Ready(t[i], RR) ==>
              if p > last then !(last < i < p) else !(last < i || i < p)
    ensures p <= NPROC
  {
    p := last;
    ghost var n := 0;
    while true
      invariant p < NPROC && 0 <= n < NPROC && p == (if last + n < NPROC then last + n else last + n - NPROC)
      invariant forall i :: 0 <= i < NPROC && Distance(last, i) <= n ==> !Ready(t[i], RR)
      decreases NPROC - n
    {
      p := p + 1;
      if p == NPROC {
        p := 0;
      }
      n := n + 1;
      assert Distance(last, p) == n;
      assert forall i :: 0 <= i < NPROC && Distance(last, i) == n ==> i == p;
      if Ready(t[p], RR) {
        return;
      }
      if p == last {
        return NPROC;
      }
    }
  }

  /** The first of the ready processes of queue 2 that arrived last; NPROC if none arrived at time 0 or later. */
  method FindNextLcfs(t: Table) returns (p: nat)
    ensures p == NPROC <==> forall i :: 0 <= i < NPROC && Ready(t[i], LCFS) ==> t[i].arrival < 0
    ensures p < NPROC ==> Ready(t[p], LCFS) && t[p].arrival >= 0
    ensures p < NPROC ==> forall i :: 0 <= i < NPROC && Ready(t[i], LCFS) ==>
              t[i].arrival <= t[p].arrival && (t[i].arrival == t[p].arrival ==> p <= i)
    ensures p <= NPROC
  {
    p := NPROC;
    var max := -1;
    for i := 0 to NPROC
      invariant p == NPROC || p < i
      invariant p == NPROC ==> max == -1 && forall j :: 0 <= j < i && Ready(t[j], LCFS) ==> t[j].arrival < 0
      invariant p < NPROC ==> Ready(t[p], LCFS) && max == t[p].arrival >= 0
      invariant p < NPROC ==> forall j :: 0 <= j < i && Ready(t[j], LCFS) ==>
                  t[j].arrival <= max && (t[j].arrival == max ==> p <= j)
    {
      if Ready(t[i], LCFS) && t[i].arrival > max {
        max := t[i].arrival;
        p := i;
      }
    }
  }

  /** The first of the ready processes of queue 3 with the least rank; NPROC if there is none. */
  method FindNextBjf(t: Table) returns (p: nat)
    ensures p == NPROC <==> forall i :: 0 <= i < NPROC ==> !Ready(t[i], BJF)
    ensures p < NPROC ==> Ready(t[p], BJF)
    ensures p < NPROC ==> forall i :: 0 <= i < NPROC && Ready(t[i], BJF) ==>
              t[p].rank <= t[i].rank && (t[i].rank == t[p].rank ==> p <= i)
    ensures p <= NPROC
  {
    p := NPROC;
    var best := 0.0;
    for i := 0 to NPROC
      invariant p == NPROC || p < i
      invariant p == NPROC ==> forall j :: 0 <= j < i ==> !Ready(t[j], BJF)
      invariant p < NPROC ==> Ready(t[p], BJF) && best == t[p].rank
      invariant p < NPROC ==> forall j :: 0 <= j < i && Ready(t[j], BJF) ==>
                  best <= t[j].rank && (t[j].rank == best ==> p <= j)
    {
      if Ready(t[i], BJF) && (p == NPROC || t[i].rank < best) {
        best := t[i].rank;
        p := i;
      }
    }
  }

  // ----- the choice -----

  /** `p` is the process a CPU runs next when its last round-robin choice was `last`. */
  ghost predicate IsNext(t: Table, last: nat, p: nat)
    requires last < NPROC
  {
    && p < NPROC
    && if exists i :: 0 <= i < NPROC && Ready(t[i], RR) then
         Ready(t[p], RR) && forall i :: 0 <= i < NPROC && Ready(t[i], RR) ==> Distance(last, p) <= Distance(last, i)
       else if exists i :: 0 <= i < NPROC && Ready(t[i], LCFS) && t[i].arrival >= 0 then
         Ready(t[p], LCFS) && forall i :: 0 <= i < NPROC && Ready(t[i], LCFS) ==>
           t[i].arrival <= t[p].arrival && (t[i].arrival == t[p].arrival ==> p <= i)
       else
         Ready(t[p], BJF) && forall i :: 0 <= i < NPROC && Ready(t[i], BJF) ==>
           t[p].rank <= t[i].rank && (t[i].rank == t[p].rank ==> p <= i)
  }

  predicate Idle(t: Table) {
    forall i :: 0 <= i < NPROC ==> !Ready(t[i], RR) && !(Ready(t[i], LCFS) && t[i].arrival >= 0) && !Ready(t[i], BJF)
  }

  /** One round of the scheduler up to the switch: the choice and the new round-robin position; NPROC means idle. */
  method Choose(t: Table, last: nat) returns (p: nat, last': nat)
    requires last < NPROC
    ensures p == NPROC <==> Idle(t)
    ensures p <= NPROC && (p < NPROC ==> IsNext(t, last, p))
    ensures last' == if p < NPROC && t[p].queue == RR then p else last
    ensures p < NPROC ==> t[p].state == Runnable && RR <= t[p].queue <= BJF
    ensures p < NPROC ==> forall i :: 0 <= i < NPROC && Ready(t[i], RR) ==>
              t[p].queue == RR && if p > last then !(last < i < p) else !(last < i || i < p)
    ensures p < NPROC && t[p].queue == LCFS ==> forall i :: 0 <= i < NPROC && Ready(t[i], LCFS) ==>
              t[i].arrival <= t[p].arrival && (t[i].arrival == t[p].arrival ==> p <= i)
    ensures p < NPROC && t[p].queue == BJF ==> forall i :: 0 <= i < NPROC ==>
              && (Ready(t[i], LCFS) ==> t[i].arrival < 0)
              && (Ready(t[i], BJF) ==> t[p].rank <= t[i].rank && (t[i].rank == t[p].rank ==> p <= i))
  {
    last' := last;
    p := FindNextRoundRobin(t, last);
    if p != NPROC {
      last' := p;
    } else {
      p := FindNextLcfs(t);
      if p == NPROC {
        p := FindNextBjf(t);
      }
    }
  }

  /** The choice is a function of the table and the round-robin position. */
  lemma NextIsUnique(t: Table, last: nat, p: nat, p': nat)
    requires last < NPROC && IsNext(t, last, p) && IsNext(t, last, p')
    ensures p == p'
  {
    if exists i :: 0 <= i < NPROC && Ready(t[i], RR) {
      assert Distance(last, p) == Distance(last, p');
    }
  }
}
