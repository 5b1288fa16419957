/**
 prioritylock.c and proc.c: any number of processes taking and releasing one priority lock. A step
 is one critical section of the lock's spinlock, or a kill or an exit. Processes are their pids,
 which are positive; `q` is the queue and `front` its first slot.
 */
module PriorityRuns {
  import opened PriorityLock

  /** Inside `acquirepriority`, a process is asleep or about to look again. */
  datatype Where = Outside | Waiting(asleep: bool) | Holding | Gone

  datatype Sys = Sys(procs: map<int, Where>, q: seq<int>, front: nat, locked: bool, pid: int)

  datatype Event = Acquire(p: int) | Retry(p: int) | Release(p: int) | Kill(p: int) | Exit(p: int)

  predicate At(s: Sys, p: int, w: Where) {
    p in s.procs && s.procs[p] == w
  }

  /** The test at the head of the loop: take the lock, or sleep. */
  function Look(s: Sys, p: int): (r: Sys)
    requires |s.q| > 0
  {
    if s.locked || s.q[0] != p then s.(procs := s.procs[p := Waiting(true)])
    else Sys(s.procs[p := Holding], s.q[1..], Slot(s.front, 1), true, p)
  }

  /** `wakeup` on the lock. */
  function Wakened(procs: map<int, Where>): (r: map<int, Where>)
    ensures r.Keys == procs.Keys
    ensures forall p :: p in procs ==> r[p] == if procs[p].Waiting? then Waiting(false) else procs[p]
  {
    map p | p in procs :: if procs[p].Waiting? then Waiting(false) else procs[p]
  }

  /** What the owner's release leaves, the owner going on to `w`. */
  function Freed(s: Sys, p: int, w: Where): (r: Sys) {
    s.(procs := Wakened(s.procs[p := w]), locked := false, pid := 0)
  }

  /** A waiter is queued only where the queue's search stays inside its array. */
  ghost predicate Step(s: Sys, e: Event, s': Sys) {
    match e
    case Acquire(p) =>
      if s.pid == p then At(s, p, Holding) && s' == s
      else At(s, p, Outside) && |s.q| < SLOTS && Fits(s.front, s.q, p) && s' == Look(s.(q := Insert(s.q, p)), p)
    case Retry(p) => At(s, p, Waiting(false)) && |s.q| > 0 && s' == Look(s, p)
    case Release(p) =>
      && p in s.procs && (At(s, p, Outside) || At(s, p, Holding))
      && s' == if s.pid == p then Freed(s, p, Outside) else s
    case Kill(p) =>
      && p in s.procs
      && s' == if At(s, p, Waiting(true)) then s.(procs := s.procs[p := Waiting(false)]) else s
    case Exit(p) =>
      && (At(s, p, Outside) || At(s, p, Holding))
      && s' == if s.pid == p then Freed(s, p, Gone) else s.(procs := s.procs[p := Gone])
  }

  // ----- the invariant -----

  /** The lock has one owner, which has not exited, or none. */
  ghost predicate OneOwner(s: Sys) {
    && (forall p :: p in s.procs ==> p > 0)
    && (s.locked <==> s.pid != 0)
    && (s.locked ==> At(s, s.pid, Holding))
    && (forall p :: p in s.procs && s.procs[p] == Holding ==> s.locked && s.pid == p)
  }

  /** The queue holds exactly the waiting pids, largest first. */
  ghost predicate QueueIs(s: Sys) {
    Descending(s.q) && s.front < SLOTS && forall p :: p in s.q <==> p in s.procs && s.procs[p].Waiting?
  }

  /** If the lock is free, the first waiter is going to look. */
  ghost predicate FrontAwake(s: Sys) {
    !s.locked && |s.q| > 0 ==> At(s, s.q[0], Waiting(false))
  }

  ghost predicate Inv(s: Sys) {
    OneOwner(s) && QueueIs(s) && FrontAwake(s)
  }

  lemma LookKeeps(s: Sys, p: int)
    requires OneOwner(s) && Descending(s.q) && s.front < SLOTS && |s.q| > 0 && p in s.q && p in s.procs
    requires !s.procs[p].Holding?
    requires forall r :: r in s.q <==> r in s.procs && (s.procs[r].Waiting? || r == p)
    requires !s.locked && s.q[0] != p ==> At(s, s.q[0], Waiting(false))
    ensures Inv(Look(s, p))
  {
    if s.locked || s.q[0] != p {
      assert At(Look(s, p), p, Waiting(true));
    } else {
      Tail(s.q);
    }
  }

  lemma Tail(q: seq<int>)
    requires Descending(q) && |q| > 0
    ensures Descending(q[1..]) && forall p :: p in q[1..] <==> p in q && p != q[0]
  {
    assert q == [q[0]] + q[1..];
    forall j, k | 0 <= j < k < |q| - 1 ensures q[1..][j] > q[1..][k] { assert q[j + 1] > q[k + 1]; }
  }

  /** A new waiter becomes the front only by being the largest; otherwise the old front stays. */
  lemma InsertFront(q: seq<int>, x: int)
    requires Descending(q) && x !in q
    ensures Insert(q, x)[0] == x || (|q| > 0 && Insert(q, x)[0] == q[0])
  {
    InsertSorts(q, x);
    var r := Insert(q, x);
    InsertHas(q, x, r[0]);
    if r[0] != x {
      InsertHas(q, x, q[0]);
    }
  }

  lemma AcquireKeeps(s: Sys, p: int)
    requires Inv(s) && At(s, p, Outside)
    ensures Inv(Look(s.(q := Insert(s.q, p)), p))
  {
    InsertSorts(s.q, p);
    InsertFront(s.q, p);
    forall r ensures r in Insert(s.q, p) <==> r in s.q || r == p { InsertHas(s.q, p, r); }
    hide Insert, Look;
    LookKeeps(s.(q := Insert(s.q, p)), p);
  }

  lemma FreedKeeps(s: Sys, p: int, w: Where)
    requires Inv(s) && s.pid == p && s.locked && (w == Outside || w == Gone)
    ensures Inv(Freed(s, p, w))
  {
    var s' := Freed(s, p, w);
    if |s.q| > 0 { assert s.q[0] in s.q; }
  }

  lemma StepKeeps(s: Sys, e: Event, s': Sys)
    requires Inv(s) && Step(s, e, s')
    ensures Inv(s')
  {
    hide Look, Freed, Insert;
    match e
    case Acquire(p) => if s.pid != p { AcquireKeeps(s, p); }
    case Retry(p) => assert p in s.q; LookKeeps(s, p);
    case Release(p) => if s.pid == p { FreedKeeps(s, p, Outside); }
    case Kill(p) => if |s.q| > 0 { assert s.q[0] in s.q; }
    case Exit(p) => if s.pid == p { FreedKeeps(s, p, Gone); }
  }

  // ----- runs -----

  ghost predicate Run(ss: seq<Sys>, es: seq<Event>) {
    |ss| == |es| + 1 && forall i :: 0 <= i < |es| ==> Step(ss[i], es[i], ss[i + 1])
  }

  ghost predicate Initial(s: Sys) {
    s.q == [] && s.front == 0 && !s.locked && s.pid == 0 && forall p :: p in s.procs ==> p > 0 && s.procs[p] == Outside
  }

  /** Every state of every run has at most one owner, the waiters queued in order, and nobody forgotten. */
  lemma {:induction false} LockSafety(ss: seq<Sys>, es: seq<Event>, i: nat)
    requires Run(ss, es) && Inv(ss[0]) && i < |ss|
    ensures Inv(ss[i])
  {
    if i > 0 {
      LockSafety(ss, es, i - 1);
      StepKeeps(ss[i - 1], es[i - 1], ss[i]);
    }
  }

  lemma InitialHolds(s: Sys)
    requires Initial(s)
    ensures Inv(s)
  {
  }

  /** Whoever gets the lock has the largest pid of all that wait, itself included. */
  lemma LargestFirst(s: Sys, e: Event, s': Sys, p: int, r: int)
    requires Inv(s) && Step(s, e, s') && !At(s, p, Holding) && At(s', p, Holding)
    requires r in s.procs && s.procs[r].Waiting?
    ensures r <= p && !s.locked
  {
    assert r in s.q;
    match e
    case Acquire(a) =>
      InsertSorts(s.q, a);
      InsertHas(s.q, a, r);
      First(Insert(s.q, a), r);
      hide Insert;
    case Retry(a) => First(s.q, r);
    case _ =>
  }

  lemma First(q: seq<int>, r: int)
    requires Descending(q) && r in q
    ensures |q| > 0 && r <= q[0]
  {
  }

  // ----- what a step does -----

  /** Nobody who waits has a larger pid. */
  ghost predicate Largest(s: Sys, p: int) {
    forall r :: r in s.procs && s.procs[r].Waiting? ==> r <= p
  }

  lemma LookIs(s: Sys, q: seq<int>, p: int)
    requires Descending(q) && p in q && forall r :: r in q <==> (r in s.procs && s.procs[r].Waiting?) || r == p
    ensures |q| > 0
    ensures var s' := Look(s.(q := q), p);
            && At(s', p, if !s.locked && Largest(s, p) then Holding else Waiting(true))
            && s'.procs == s.procs[p := s'.procs[p]]
            && s'.locked == (s.locked || Largest(s, p))
            && s'.pid == if !s.locked && Largest(s, p) then p else s.pid
  {
    First(q, p);
    assert q[0] in q;
    forall r | r in s.procs && s.procs[r].Waiting? ensures r <= q[0] { First(q, r); }
  }

  /**
   A process that does not own the lock and asks for it, or looks again, gets it if and only if it is free
   and no larger pid waits; otherwise it sleeps. Nobody else is affected.
   */
  lemma GrantedIff(s: Sys, e: Event, s': Sys, p: int)
    requires Inv(s) && Step(s, e, s') && ((e == Acquire(p) && s.pid != p) || e == Retry(p))
    ensures At(s', p, Holding) <==> !s.locked && Largest(s, p)
    ensures !At(s', p, Holding) ==> At(s', p, Waiting(true))
    ensures s'.procs == s.procs[p := s'.procs[p]] && s'.locked == (s.locked || Largest(s, p))
    ensures s'.pid == if !s.locked && Largest(s, p) then p else s.pid
  {
    hide Look, Insert;
    if e == Retry(p) {
      LookIs(s, s.q, p);
      assert s.(q := s.q) == s;
    } else {
      InsertSorts(s.q, p);
      forall r ensures r in Insert(s.q, p) <==> r in s.q || r == p { InsertHas(s.q, p, r); }
      LookIs(s, Insert(s.q, p), p);
    }
  }

  /** The owner's second request is refused and changes nothing; a release by anybody else is, too. */
  lemma RefusedIs(s: Sys, e: Event, s': Sys, p: int)
    requires Inv(s) && Step(s, e, s') && ((e == Acquire(p) && s.pid == p) || (e == Release(p) && s.pid != p))
    ensures s' == s
  {
  }

  /** The owner's release, or its exit, frees the lock and wakes everybody who waits; the queue stays. */
  lemma ReleaseIs(s: Sys, e: Event, s': Sys, p: int)
    requires Inv(s) && Step(s, e, s') && s.locked && s.pid == p && (e == Release(p) || e == Exit(p))
    ensures !s'.locked && s'.q == s.q && s'.procs.Keys == s.procs.Keys && p in s.procs
    ensures forall r :: r in s.procs ==>
              s'.procs[r] == if r == p then (if e == Release(p) then Outside else Gone)
                             else if s.procs[r].Waiting? then Waiting(false) else s.procs[r]
  {
  }

  /** A kill wakes its process and does nothing else; neither does the exit of a process that is not the owner. */
  lemma KillIs(s: Sys, e: Event, s': Sys, p: int)
    requires Inv(s) && Step(s, e, s') && (e == Kill(p) || (e == Exit(p) && s.pid != p))
    ensures p in s.procs && p in s'.procs && s' == s.(procs := s.procs[p := s'.procs[p]])
    ensures s'.procs[p] == if e == Exit(p) then Gone else if s.procs[p].Waiting? then Waiting(false) else s.procs[p]
  {
    assert s.procs[p := s.procs[p]] == s.procs;
  }

  /** While the lock is free and somebody waits, the largest of them is awake, and its next look gets the lock. */
  lemma FreeLockIsTaken(s: Sys, r: int) returns (p: int, s': Sys)
    requires Inv(s) && !s.locked && r in s.procs && s.procs[r].Waiting?
    ensures At(s, p, Waiting(false)) && Largest(s, p) && Step(s, Retry(p), s') && At(s', p, Holding)
  {
    assert r in s.q;
    p := s.q[0];
    assert p in s.q;
    s' := Look(s, p);
    assert Step(s, Retry(p), s');
    forall w | w in s.procs && s.procs[w].Waiting? ensures w <= p { First(s.q, w); }
    GrantedIff(s, Retry(p), s', p);
  }

  // ----- a run that leaves the array -----

  /** Three processes, none of them at the lock, which has been granted `n` times. */
  function Idle(n: nat): (s: Sys) {
    Sys(map[1 := Outside, 2 := Outside, 3 := Outside], [], n, false, 0)
  }

  lemma AddStep(ss: seq<Sys>, es: seq<Event>, e: Event, s: Sys) returns (ss': seq<Sys>, es': seq<Event>)
    requires Run(ss, es) && Step(ss[|es|], e, s)
    ensures Run(ss', es') && ss'[0] == ss[0] && |es'| == |es| + 1 && ss'[|es'|] == s
  {
    hide Step;
    ss', es' := ss + [s], es + [e];
  }

  /** Process 1 takes the lock at once. */
  lemma TakesIt(n: nat)
    requires n < SLOTS - 1
    ensures Step(Idle(n), Acquire(1), Sys(map[1 := Holding, 2 := Outside, 3 := Outside], [], n + 1, true, 1))
  {
    var s := Idle(n).(q := [1]);
    assert Insert([], 1) == [1];
    assert Look(s, 1) == Sys(map[1 := Holding, 2 := Outside, 3 := Outside], [], n + 1, true, 1) by {
      assert s.procs[1 := Holding] == map[1 := Holding, 2 := Outside, 3 := Outside];
    }
  }

  lemma GivesItBack(n: nat)
    ensures Step(Sys(map[1 := Holding, 2 := Outside, 3 := Outside], [], n, true, 1), Release(1), Idle(n))
  {
    var procs := map[1 := Holding, 2 := Outside, 3 := Outside];
    assert Wakened(procs[1 := Outside]) == Idle(n).procs;
  }

  lemma {:induction false} Granted(n: nat) returns (ss: seq<Sys>, es: seq<Event>)
    requires n < SLOTS - 1
    ensures Run(ss, es) && ss[0] == Idle(0) && ss[|es|] == Idle(n)
  {
    if n == 0 {
      ss, es := [Idle(0)], [];
    } else {
      ss, es := Granted(n - 1);
      TakesIt(n - 1);
      GivesItBack(n);
      hide Step;
      ss, es := AddStep(ss, es, Acquire(1), Sys(map[1 := Holding, 2 := Outside, 3 := Outside], [], n, true, 1));
      ss, es := AddStep(ss, es, Release(1), Idle(n));
    }
  }

  /**
   After 63 grants, with process 1 holding the lock and process 2 waiting, the search for process 3 leaves the
   array.
   */
  lemma LateWaiterLeaves() returns (ss: seq<Sys>, es: seq<Event>)
    ensures Run(ss, es) && Initial(ss[0]) && Inv(ss[|es|])
    ensures var s := ss[|es|]; At(s, 1, Holding) && At(s, 2, Waiting(true)) && At(s, 3, Outside) && s.q == [2]
    ensures !Fits(ss[|es|].front, ss[|es|].q, 3)
  {
    ss, es := Granted(SLOTS - 2);
    TakesIt(SLOTS - 2);
    var s1 := Sys(map[1 := Holding, 2 := Outside, 3 := Outside], [], SLOTS - 1, true, 1);
    var s2 := Sys(map[1 := Holding, 2 := Waiting(true), 3 := Outside], [2], SLOTS - 1, true, 1);
    ss, es := AddStep(ss, es, Acquire(1), s1);
    assert Step(s1, Acquire(2), s2) by {
      assert Insert([], 2) == [2] && s1.procs[2 := Waiting(true)] == s2.procs;
    }
    ss, es := AddStep(ss, es, Acquire(2), s2);
    InitialHolds(ss[0]);
    LockSafety(ss, es, |es|);
  }
}
