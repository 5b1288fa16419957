/**
 prioritylock.c: the queue of a priority lock, a ring of pids kept in descending order. The ring's
 `queue_size` field is one less than the number of pids. C's remainder of -1 is -1, so the search
 that looks to the left of slot 0 leaves the array; `Add` reports that as false.
 */
module PriorityLock {

  const SLOTS := 64      // MAX_PRIORITY_QUEUE_SIZE, which is NPROC

  /** The slot of element `k` of a ring that starts at `front`. */
  function Slot(front: nat, k: nat): (i: nat)
    ensures i < SLOTS
  {
    (front + k) % SLOTS
  }

  lemma SlotsDiffer(front: nat, j: nat, k: nat)
    requires j < k < SLOTS
    ensures Slot(front, j) != Slot(front, k)
  {
  }

  lemma SlotLeft(front: nat, k: nat)
    requires front < SLOTS && 0 < k < SLOTS
    ensures Slot(front, k) == 0 <==> front + k == SLOTS
    ensures Slot(front, k) > 0 ==> Slot(front, k - 1) == Slot(front, k) - 1
  {
  }

  /** `x` moves left from the end of `s` until it meets a larger element. */
  function Insert(s: seq<int>, x: int): (r: seq<int>)
    ensures |r| == |s| + 1
  {
    if |s| == 0 then [x]
    else if s[|s| - 1] > x then s + [x]
    else Insert(s[..|s| - 1], x) + [s[|s| - 1]]
  }

  ghost predicate Descending(s: seq<int>) {
    forall j, k :: 0 <= j < k < |s| ==> s[j] > s[k]
  }

  /** Where `x` stops: behind element `k - 1`, which is larger, in front of elements that are not. */
  lemma {:induction false} InsertAt(s: seq<int>, x: int, k: nat)
    requires k <= |s| && (k > 0 ==> s[k - 1] > x) && forall j :: k <= j < |s| ==> s[j] <= x
    ensures Insert(s, x) == s[..k] + [x] + s[k..]
  {
    var n := |s| - 1;
    if k <= n {
      InsertAt(s[..n], x, k);
      Split(s, x, k);
    } else {
      assert s[..k] + [x] + s[k..] == s + [x];
    }
  }

  lemma Split(s: seq<int>, x: int, k: nat)
    requires k < |s|
    ensures s[..|s| - 1][..k] + [x] + s[..|s| - 1][k..] + [s[|s| - 1]] == s[..k] + [x] + s[k..]
  {
  }

  lemma {:induction false} InsertHas(s: seq<int>, x: int, y: int)
    ensures y in Insert(s, x) <==> y in s || y == x
  {
    var n := |s| - 1;
    if |s| > 0 && s[n] <= x {
      InsertHas(s[..n], x, y);
      assert s == s[..n] + [s[n]];
    }
  }

  /** In a descending queue a new pid finds its place. */
  lemma {:induction false} InsertSorts(s: seq<int>, x: int)
    requires Descending(s) && x !in s
    ensures Descending(Insert(s, x))
  {
    var n := |s| - 1;
    if |s| > 0 && s[n] <= x {
      InsertSorts(s[..n], x);
      var r := Insert(s[..n], x);
      forall j | 0 <= j < |r| ensures r[j] > s[n] {
        InsertHas(s[..n], x, r[j]);
      }
    }
  }

  /**
   The search stays inside the array: the queue does not wrap, or a larger pid lies in front on this side of the
   wrap.
   */
  ghost predicate Fits(front: nat, s: seq<int>, x: int) {
    front + |s| < SLOTS || exists j :: 0 <= j < |s| && front + j >= SLOTS && s[j] > x
  }

  lemma FitsIs(front: nat, s: seq<int>, x: int)
    ensures Fits(front, s, x) <==>
              front + |s| < SLOTS || exists j :: 0 <= j < |s| && front + j >= SLOTS && s[j] > x
  {
  }

  lemma Apart(front: nat, j: nat, k: nat)
    requires j < SLOTS && k < SLOTS && j != k
    ensures Slot(front, j) != Slot(front, k)
  {
    if j < k { SlotsDiffer(front, j, k); } else { SlotsDiffer(front, k, j); }
  }

  /** `s` with `x` put in at `p`. */
  function PutAt(s: seq<int>, x: int, p: nat): (r: seq<int>)
    requires p <= |s|
    ensures |r| == |s| + 1 && r[p] == x && (p > 0 ==> r[p - 1] == s[p - 1])
  {
    s[..p] + [x] + s[p..]
  }

  lemma PutLeft(s: seq<int>, x: int, p: nat)
    requires 0 < p <= |s|
    ensures PutAt(s, x, p)[p := s[p - 1]][p - 1 := x] == PutAt(s, x, p - 1)
  {
  }

  /** The ring `q` holds the elements `r`, from slot `front` on. */
  ghost predicate Holds(q: seq<int>, front: nat, r: seq<int>) {
    |q| == SLOTS && |r| <= SLOTS && forall k :: 0 <= k < |r| ==> q[Slot(front, k)] == r[k]
  }

  lemma HeldAt(q: seq<int>, front: nat, r: seq<int>, k: nat)
    requires Holds(q, front, r) && k < |r|
    ensures |q| == SLOTS && q[Slot(front, k)] == r[k]
  {
  }

  lemma StartSearch(front: nat, s: seq<int>, x: int)
    ensures Searched(front, s, x, |s|)
  {
  }

  lemma HoldsSwap(q: seq<int>, front: nat, r: seq<int>, p: nat)
    requires Holds(q, front, r) && 0 < p < |r|
    ensures var a, b := Slot(front, p), Slot(front, p - 1);
            Holds(q[a := r[p - 1]][b := r[p]], front, r[p := r[p - 1]][p - 1 := r[p]])
  {
    hide Slot;
    forall k: nat | k < |r| && k != p ensures Slot(front, k) != Slot(front, p) { Apart(front, k, p); }
    forall k: nat | k < |r| && k != p - 1 ensures Slot(front, k) != Slot(front, p - 1) { Apart(front, k, p - 1); }
  }

  lemma HoldsMore(q: seq<int>, front: nat, r: seq<int>, x: int)
    requires Holds(q, front, r) && |r| < SLOTS
    ensures Holds(q[Slot(front, |r|) := x], front, PutAt(r, x, |r|))
  {
    hide Slot;
    forall k: nat | k < |r| ensures Slot(front, k) != Slot(front, |r|) { Apart(front, k, |r|); }
  }

  /** How far the search has come: what it has passed is not larger, and it has not crossed slot 0. */
  ghost predicate Searched(front: nat, s: seq<int>, x: int, p: nat) {
    && p <= |s| && (forall j :: p <= j < |s| ==> s[j] <= x)
    && (front + |s| >= SLOTS ==> front + p >= SLOTS)
  }

  /** What the search finds at element `p - 1`, and what that means. */
  lemma SearchStep(front: nat, s: seq<int>, x: int, p: nat)
    requires Searched(front, s, x, p) && front < SLOTS && 0 < p && |s| < SLOTS
    ensures Slot(front, p) == 0 ==> !Fits(front, s, x)
    ensures Slot(front, p) > 0 ==> Slot(front, p - 1) == Slot(front, p) - 1
    ensures Slot(front, p) > 0 && s[p - 1] > x ==> Fits(front, s, x) && Insert(s, x) == PutAt(s, x, p)
    ensures Slot(front, p) > 0 && s[p - 1] <= x ==> Searched(front, s, x, p - 1)
  {
    SlotLeft(front, p);
    hide Slot, Insert;
    if s[p - 1] > x { InsertAt(s, x, p); }
  }

  lemma SearchDone(front: nat, s: seq<int>, x: int)
    requires Searched(front, s, x, 0) && front < SLOTS
    ensures Fits(front, s, x) && Insert(s, x) == PutAt(s, x, 0)
  {
    InsertAt(s, x, 0);
  }

  class PriorityQueue {
    const queue: array<int>
    var queueFront: int
    var queueSize: int

    ghost predicate Valid()
      reads this
    {
      queue.Length == SLOTS && 0 <= queueFront < SLOTS && -1 <= queueSize < SLOTS
    }

    /** The pids in the queue, front first. */
    ghost function Pids(): (s: seq<int>)
      reads this, queue
      requires Valid()
    {
      seq(queueSize + 1, k requires 0 <= k reads this, queue requires Valid() => queue[Slot(queueFront, k)])
    }

    constructor ()
      ensures Valid() && Pids() == [] && fresh(queue) && queueFront == 0
    {
      queue := new int[SLOTS];
      queueFront, queueSize := 0, -1;
    }

    /** Put `pid` in its place; false if the search left the array. */
    method Add(pid: int) returns (ok: bool)
      requires Valid() && queueSize + 1 < SLOTS
      modifies this`queueSize, queue
      ensures Valid() && ok == Fits(queueFront, old(Pids()), pid)
      ensures ok <==> queueFront + |old(Pids())| < SLOTS ||
                      exists j :: 0 <= j < |old(Pids())| && queueFront + j >= SLOTS && old(Pids())[j] > pid
      ensures ok ==> Pids() == Insert(old(Pids()), pid)
    {
      hide Slot, PutAt, Insert, Fits, Searched, Holds;
      ghost var s := Pids();
      FitsIs(queueFront, s, pid);
      PidsHeld(s);
      HoldsMore(queue[..], queueFront, s, pid);
      queueSize := queueSize + 1;
      var cur := Slot(queueFront, queueSize);
      queue[cur] := pid;
      StartSearch(queueFront, s, pid);
      var i := 0;
      while i < queueSize
        invariant 0 <= i <= queueSize == |s| && cur == Slot(queueFront, |s| - i) && Valid()
        invariant Holds(queue[..], queueFront, PutAt(s, pid, |s| - i)) && Searched(queueFront, s, pid, |s| - i)
      {
        ghost var p := |s| - i;
        SearchStep(queueFront, s, pid, p);
        if cur == 0 {
          return false;      // prev_idx is -1
        }
        var prev := cur - 1;
        HeldAt(queue[..], queueFront, PutAt(s, pid, p), p);
        HeldAt(queue[..], queueFront, PutAt(s, pid, p), p - 1);
        if queue[prev] > queue[cur] {
          PidsAre(PutAt(s, pid, p));
          return true;
        }
        HoldsSwap(queue[..], queueFront, PutAt(s, pid, p), p);
        PutLeft(s, pid, p);
        queue[cur], queue[prev] := queue[prev], queue[cur];
        cur := prev;
        i := i + 1;
      }
      SearchDone(queueFront, s, pid);
      PidsAre(PutAt(s, pid, 0));
      return true;
    }

    lemma PidsHeld(s: seq<int>)
      requires Valid() && s == Pids()
      ensures Holds(queue[..], queueFront, s)
    {
    }

    lemma PidsAre(r: seq<int>)
      requires Valid() && Holds(queue[..], queueFront, r) && |r| == queueSize + 1
      ensures Pids() == r
    {
    }

    /** Take the front pid off the queue. */
    method Pop()
      requires Valid() && queueSize >= 0
      modifies this`queueFront, this`queueSize
      ensures Valid() && Pids() == old(Pids())[1..] && queueFront == Slot(old(queueFront), 1)
    {
      queueFront := (queueFront + 1) % SLOTS;
      queueSize := queueSize - 1;
      forall k: nat ensures Slot(queueFront, k) == Slot(old(queueFront), k + 1) { NextSlot(old(queueFront), k); }
    }
  }

  lemma NextSlot(front: nat, k: nat)
    requires front < SLOTS
    ensures Slot((front + 1) % SLOTS, k) == Slot(front, k + 1)
  {
  }
}
