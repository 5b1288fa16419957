/**
 umalloc.c: the Kernighan and Ritchie allocator. The heap is a set of headers addressed in
 header units; `fl`, `live` and `core` are ghosts that name the free list, the blocks handed
 out and the units obtained from the system.
 */
module Umalloc {
  import opened Machine
  import opened FreeList
  import opened Rings
  import opened Sums

  const HEADER := 8  // sizeof(Header)
  const NALLOC := 4096

  /** Units requested for `nbytes`, in 32-bit arithmetic: the payload plus one header. */
  function Units(nbytes: nat): (n: nat)
    ensures n >= 1
  {
    ((nbytes + HEADER - 1) % WRAP) / HEADER + 1
  }

  /**
   The block is large enough for the request exactly when the rounding does not wrap, and then one
   unit less would not be.
   */
  lemma UnitsSuffice(nbytes: nat)
    requires nbytes < WRAP
    ensures (Units(nbytes) - 1) * HEADER >= nbytes <==> nbytes <= WRAP - HEADER
    ensures nbytes <= WRAP - HEADER ==> (Units(nbytes) - 2) * HEADER < nbytes
  {
    var t := nbytes + HEADER - 1;
    if t < WRAP {
      assert t % WRAP == t;
    } else {
      assert t % WRAP == t - WRAP;
    }
  }

  ghost predicate LiveOk(base: nat, brk: nat, size: map<nat, nat>, live: map<nat, nat>) {
    forall a :: a in live ==>
      base < a && live[a] >= 1 && a + live[a] <= brk && a in size && size[a] == live[a]
  }

  ghost predicate LiveApart(live: map<nat, nat>) {
    forall a, b :: a in live && b in live && a < b ==> a + live[a] <= b
  }

  /** No unit is both allocated and free. */
  ghost predicate LiveOffList(size: map<nat, nat>, fl: seq<nat>, live: map<nat, nat>) {
    forall a, x :: a in live && a <= x < a + live[a] ==> !Covers(size, fl, x)
  }

  ghost predicate Below(size: map<nat, nat>, fl: seq<nat>, brk: nat) {
    forall x :: Covers(size, fl, x) ==> x < brk
  }

  ghost predicate HeapOk(base: nat, brk: nat, size: map<nat, nat>, fl: seq<nat>, live: map<nat, nat>, core: nat) {
    && base < brk
    && LiveOk(base, brk, size, live) && LiveApart(live)
    && LiveOffList(size, fl, live) && Below(size, fl, brk)
    && Total(size, fl) + Sum(live) == core
  }

  // ----- what the steps do to the blocks handed out -----

  lemma FreeKeepsHeap(base: nat, brk: nat, size: map<nat, nat>, fl: seq<nat>, live: map<nat, nat>, core: nat,
                      size': map<nat, nat>, fl': seq<nat>, b: nat)
    requires HeapOk(base, brk, size, fl, live, core) && b in live
    requires Adds(size, fl, size', fl', b, live[b])
    requires forall a :: a in live && a != b ==> a in size' && size'[a] == size[a]
    ensures HeapOk(base, brk, size', fl', live - {b}, core)
  {
    hide Covers, Total;
    SumSplit(live, b);
    var live' := live - {b};
    forall a, x | a in live' && a <= x < a + live'[a] ensures !Covers(size', fl', x) {
      assert !Covers(size, fl, x);
      assert a < b || b < a;
    }
    assert forall x :: Covers(size', fl', x) ==> x < brk;
  }

  /** Units taken off the list lie clear of every block handed out before. */
  lemma TakenIsApart(size: map<nat, nat>, fl: seq<nat>, live: map<nat, nat>, a: nat, n: nat, c: nat)
    requires LiveOffList(size, fl, live) && n >= 1 && c in live && live[c] >= 1
    requires FreeRun(size, fl, a, n)
    ensures c + live[c] <= a || a + n <= c
  {
    hide Covers;
    var x := if c < a then a else c;
    assert a <= x < a + n ==> Covers(size, fl, x);
  }

  lemma TakeKeepsLive(base: nat, brk: nat, size: map<nat, nat>, live: map<nat, nat>, size': map<nat, nat>, a: nat,
                      n: nat)
    requires LiveOk(base, brk, size, live) && LiveApart(live) && n >= 1 && base < a && a + n <= brk
    requires a in size' && size'[a] == n && forall c :: c in live ==> c in size' && size'[c] == size[c]
    requires forall c :: c in live ==> c + live[c] <= a || a + n <= c
    ensures a !in live && LiveOk(base, brk, size', live[a := n]) && LiveApart(live[a := n])
  {
  }

  lemma TakeKeepsOff(size: map<nat, nat>, fl: seq<nat>, live: map<nat, nat>, size': map<nat, nat>, fl': seq<nat>,
                     a: nat, n: nat)
    requires LiveOffList(size, fl, live) && Takes(size, fl, size', fl', a, n)
    ensures LiveOffList(size', fl', live[a := n])
  {
    hide Covers, Total;
    var live' := live[a := n];
    forall c, x | c in live' && c <= x < c + live'[c] ensures !Covers(size', fl', x) {
      if c != a { assert !Covers(size, fl, x); }
    }
  }

  lemma TakeKeepsHeap(base: nat, brk: nat, size: map<nat, nat>, fl: seq<nat>, live: map<nat, nat>, core: nat,
                      size': map<nat, nat>, fl': seq<nat>, a: nat, n: nat)
    requires HeapOk(base, brk, size, fl, live, core) && n >= 1 && base < a
    requires Takes(size, fl, size', fl', a, n)
    requires a in size' && size'[a] == n
    requires forall c :: c in live ==> c in size' && size'[c] == size[c]
    ensures a !in live && HeapOk(base, brk, size', fl', live[a := n], core)
  {
    hide Covers, Total, LiveOffList, LiveApart;
    assert FreeRun(size, fl, a, n);
    forall c | c in live ensures c + live[c] <= a || a + n <= c { TakenIsApart(size, fl, live, a, n, c); }
    assert Covers(size, fl, a + n - 1);
    TakeKeepsLive(base, brk, size, live, size', a, n);
    TakeKeepsOff(size, fl, live, size', fl', a, n);
    hide LiveOk;
    SumUpdate(live, a, n);
    assert live - {a} == live;
  }

  /** What `free` relies on: the block was handed out and none of its units is free. */
  lemma FreeRequires(base: nat, brk: nat, size: map<nat, nat>, fl: seq<nat>, live: map<nat, nat>, core: nat, b: nat)
    requires HeapOk(base, brk, size, fl, live, core) && b in live
    ensures base < b && live[b] >= 1 && b in size && size[b] == live[b]
    ensures forall x :: b <= x < b + live[b] ==> !Covers(size, fl, x)
    ensures forall a :: a in live ==> a in size
  {
  }

  lemma OnListIsNotLive(base: nat, ptr: map<nat, nat>, brk: nat, size: map<nat, nat>, fl: seq<nat>, live: map<nat, nat>,
                        core: nat, i: nat)
    requires HeapOk(base, brk, size, fl, live, core) && FreeListOk(base, ptr, size, fl) && i < |fl|
    ensures fl[i] !in live && base <= fl[i]
  {
    hide Linked, CoalescedBut, Total;
    if i > 0 {
      assert fl[0] < fl[i];
      assert fl[i] <= fl[i] < fl[i] + SizeAt(size, fl[i]);
      assert Covers(size, fl, fl[i]);
    }
  }

  /** Both halves of `free` on the headers, and what becomes of the list and of the heap. */
  lemma FreeStep(base: nat, brk: nat, ptr: map<nat, nat>, size: map<nat, nat>, fl: seq<nat>, live: map<nat, nat>,
                 core: nat, i: nat, b: nat, ptr1: map<nat, nat>, size1: map<nat, nat>, ptr2: map<nat, nat>,
                 size2: map<nat, nat>)
      returns (fl2: seq<nat>)
    requires HeapOk(base, brk, size, fl, live, core) && FreeListOk(base, ptr, size, fl) && b in live
    requires Place(fl, i, b) && b in size && Clear(size, fl, b, size[b])
    requires fl[i] in ptr && ptr[fl[i]] in ptr && ptr[fl[i]] in size && UpperDone(ptr, size, fl[i], b, ptr1, size1)
    requires fl[i] in size1 && b in size1 && b in ptr1 && LowerDone(ptr1, size1, fl[i], b, ptr2, size2)
    ensures FreeListOk(base, ptr2, size2, fl2) && fl[i] in fl2 && base <= fl[i]
    ensures Adds(size, fl, size2, fl2, b, live[b])
    ensures HeapOk(base, brk, size2, fl2, live - {b}, core)
    ensures forall a :: a in live && a != b ==> a in size2 && size2[a] == size[a]
  {
    hide FreeListOk, NearlyOk, Adds, HeapOk, Covers, Clear, LiveOk, UpperDone, LowerDone;
    FreeRequires(base, brk, size, fl, live, core, b);
    OnListIsNotLive(base, ptr, brk, size, fl, live, core, i);
    var fl1 := UpperStep(base, ptr, size, fl, i, b, ptr1, size1);
    fl2 := LowerStep(base, ptr1, size1, fl1, i, b, ptr2, size2);
    AddsThen(size, fl, size1, fl1, size2, fl2, b, live[b], fl[i]);
    FreeKeepsHeap(base, brk, size, fl, live, core, size2, fl2, b);
  }

  lemma ListBelowBrk(base: nat, ptr: map<nat, nat>, brk: nat, size: map<nat, nat>, fl: seq<nat>, i: nat)
    requires FreeListOk(base, ptr, size, fl) && Below(size, fl, brk) && base < brk && i < |fl|
    ensures fl[i] < brk
  {
    hide Linked, CoalescedBut;
    if i > 0 {
      assert fl[i] <= fl[i] < fl[i] + SizeAt(size, fl[i]);
      assert Covers(size, fl, fl[i]);
    }
  }

  /** Fresh memory above everything known joins the heap as one block in use. */
  lemma GrowKeepsHeap(base: nat, ptr: map<nat, nat>, brk: nat, size: map<nat, nat>, fl: seq<nat>, live: map<nat, nat>,
                      core: nat, at: nat, n: nat)
    requires HeapOk(base, brk, size, fl, live, core) && FreeListOk(base, ptr, size, fl) && brk <= at && n >= 1
    ensures FreeListOk(base, ptr, size[at := n], fl) && at !in live
    ensures HeapOk(base, at + n, size[at := n], fl, live[at := n], core + n)
    ensures Adds(size, fl, size[at := n], fl, at, 0)
  {
    hide FreeListOk, Covers, LiveApart, LiveOffList;
    forall i | 0 <= i < |fl| ensures fl[i] != at { ListBelowBrk(base, ptr, brk, size, fl, i); }
    assert at !in fl;
    NewHeaderKeepsOrder(base, ptr, size, fl, at, n);
    NewHeaderKeepsUnits(size, fl, at, n);
    assert at !in live;
    SumUpdate(live, at, n);
    assert live - {at} == live;
    GrowKeepsLive(base, brk, size, live, at, n);
    GrowKeepsUnits(brk, size, fl, live, at, n);
  }

  lemma GrowKeepsLive(base: nat, brk: nat, size: map<nat, nat>, live: map<nat, nat>, at: nat, n: nat)
    requires LiveOk(base, brk, size, live) && LiveApart(live) && base < brk <= at && n >= 1
    ensures LiveOk(base, at + n, size[at := n], live[at := n]) && LiveApart(live[at := n])
  {
  }

  lemma GrowKeepsUnits(brk: nat, size: map<nat, nat>, fl: seq<nat>, live: map<nat, nat>, at: nat, n: nat)
    requires LiveOffList(size, fl, live) && Below(size, fl, brk) && brk <= at && n >= 1 && at !in live
    requires forall x :: Covers(size[at := n], fl, x) <==> Covers(size, fl, x)
    ensures LiveOffList(size[at := n], fl, live[at := n]) && Below(size[at := n], fl, at + n)
  {
    hide Covers;
    var size', live' := size[at := n], live[at := n];
    forall a, x | a in live' && a <= x < a + live'[a] ensures !Covers(size', fl, x) {
      assert Covers(size', fl, x) <==> Covers(size, fl, x);
    }
    forall x | Covers(size', fl, x) ensures x < at + n {
      assert Covers(size, fl, x);
    }
  }

  /** Units are added by a growth that is then freed: the list gains exactly the new block. */
  lemma GrowThenFree(size: map<nat, nat>, fl: seq<nat>, size1: map<nat, nat>, size2: map<nat, nat>, fl2: seq<nat>,
                     at: nat, n: nat)
    requires Adds(size, fl, size1, fl, at, 0) && Adds(size1, fl, size2, fl2, at, n)
    ensures Adds(size, fl, size2, fl2, at, n)
  {
    hide Covers;
  }

  /** Room for `n` units: some block of the list has that many. */
  ghost predicate Fits(size: map<nat, nat>, fl: seq<nat>, n: nat) {
    exists i :: 0 <= i < |fl| && SizeAt(size, fl[i]) >= n
  }

  /** Block `a` came out of what was free and what the system granted; the rest of that is free. */
  ghost predicate Served(size: map<nat, nat>, fl: seq<nat>, size': map<nat, nat>, fl': seq<nat>, at: nat, grant: nat,
                         a: nat, n: nat) {
    && (forall x :: Covers(size', fl', x) <==> (Covers(size, fl, x) || at <= x < at + grant) && !(a <= x < a + n))
    && forall x :: a <= x < a + n ==> Covers(size, fl, x) || at <= x < at + grant
  }

  lemma ServedNow(size: map<nat, nat>, fl: seq<nat>, size1: map<nat, nat>, fl1: seq<nat>, size2: map<nat, nat>,
                  fl2: seq<nat>, at: nat, grant: nat, a: nat, n: nat)
    requires Adds(size, fl, size1, fl1, at, grant) && Takes(size1, fl1, size2, fl2, a, n)
    ensures Served(size, fl, size2, fl2, at, grant, a, n)
  {
    hide Covers, Total;
  }

  /** Block `a` is the end of the first block behind `freep`, along the list, that is large enough. */
  ghost predicate NextFit(size: map<nat, nat>, fl: seq<nat>, freep: nat, a: nat, n: nat) {
    exists kf: nat, j: nat :: Searched(size, fl, j, kf, n) && EndOf(size, fl, freep, kf, j, a, n)
  }

  ghost predicate EndOf(size: map<nat, nat>, fl: seq<nat>, freep: nat, kf: nat, j: nat, a: nat, n: nat) {
    && kf < |fl| && j < |fl| && fl[kf] == freep
    && SizeAt(size, fl[j]) >= n && a + n == fl[j] + SizeAt(size, fl[j])
  }

  lemma NextFitNow(size: map<nat, nat>, fl: seq<nat>, kf: nat, j: nat, a: nat, n: nat)
    requires Searched(size, fl, j, kf, n) && SizeAt(size, fl[j]) >= n && a + n == fl[j] + SizeAt(size, fl[j])
    ensures NextFit(size, fl, fl[kf], a, n)
  {
    assert EndOf(size, fl, fl[kf], kf, j, a, n);
  }

  /** The static header covers nothing. */
  lemma EmptyHeader(size: map<nat, nat>, fl: seq<nat>, base: nat, at: nat)
    requires fl == []
    ensures Adds(size, fl, size[base := 0], [base], at, 0)
  {
    var size' := size[base := 0];
    assert [base][..0] == [];
    assert Total(size', [base]) == Total(size', []) + SizeAt(size', base);
    forall x ensures !Covers(size', [base], x) {}
  }

  lemma AddsAfterNothing(size: map<nat, nat>, fl: seq<nat>, size1: map<nat, nat>, fl1: seq<nat>, size2: map<nat, nat>,
                         fl2: seq<nat>, at: nat, n: nat)
    requires Adds(size, fl, size1, fl1, at, 0) && Adds(size1, fl1, size2, fl2, at, n)
    ensures Adds(size, fl, size2, fl2, at, n)
  {
    hide Covers, Total;
  }

  lemma CarveRequires(base: nat, ptr: map<nat, nat>, brk: nat, size: map<nat, nat>, fl: seq<nat>, live: map<nat, nat>,
                      core: nat, i: nat)
    requires HeapOk(base, brk, size, fl, live, core) && FreeListOk(base, ptr, size, fl) && 1 <= i < |fl|
    ensures base < fl[i] && 0 < |fl| && fl[i - 1] in ptr && fl[i] in ptr && fl[i] in size
    ensures forall a :: a in live ==> a in size && a != fl[i]
    ensures base <= fl[i - 1]
  {
    OnListIsNotLive(base, ptr, brk, size, fl, live, core, i);
    OnListIsNotLive(base, ptr, brk, size, fl, live, core, i - 1);
    assert fl[0] < fl[i];
  }

  lemma TailIsNotLive(base: nat, ptr: map<nat, nat>, brk: nat, size: map<nat, nat>, fl: seq<nat>, live: map<nat, nat>,
                      core: nat, i: nat, n: nat, a: nat)
    requires HeapOk(base, brk, size, fl, live, core) && FreeListOk(base, ptr, size, fl)
    requires 1 <= i && IsTail(size, fl, i, n, a)
    ensures a !in live
  {
    hide Linked, CoalescedBut;
    assert fl[i] <= a < fl[i] + SizeAt(size, fl[i]);
    assert Covers(size, fl, a);
  }

  lemma InitKeepsHeap(base: nat, brk: nat, ptr: map<nat, nat>, size: map<nat, nat>, core: nat, n: nat)
    requires HeapOk(base, brk, size, [], map[], core)
    ensures FreeListOk(base, ptr[base := base], size[base := 0], [base])
    ensures HeapOk(base, brk, size[base := 0], [base], map[], core)
    ensures n >= 1 ==> !Fits(size[base := 0], [base], n) && !Fits(size, [], n)
  {
    assert [base][..0] == [];
  }

  lemma NextHeader(base: nat, ptr: map<nat, nat>, size: map<nat, nat>, fl: seq<nat>, j: nat)
    requires FreeListOk(base, ptr, size, fl) && j < |fl|
    ensures fl[j] in ptr && ptr[fl[j]] == fl[Succ(|fl|, j)]
    ensures ptr[fl[j]] in ptr && ptr[fl[j]] in size
  {
  }

  /** A header with room is not the static one, so its predecessor is the one before it in address order. */
  lemma FoundHeader(base: nat, ptr: map<nat, nat>, size: map<nat, nat>, fl: seq<nat>, q: nat, j: nat, n: nat)
    requires FreeListOk(base, ptr, size, fl) && q < |fl| && j == Succ(|fl|, q)
    requires n >= 1 && SizeAt(size, fl[j]) >= n
    ensures 1 <= j && q == j - 1 && Fits(size, fl, n)
  {
  }

  /** The search that began after position `kf` and has now come to `j` passed only blocks that are too small. */
  ghost predicate Searched(size: map<nat, nat>, fl: seq<nat>, j: nat, kf: nat, n: nat) {
    && j < |fl| && kf < |fl|
    && forall k :: 0 <= k < |fl| && Steps(|fl|, k, kf) > Steps(|fl|, j, kf) ==> SizeAt(size, fl[k]) < n
  }

  lemma SearchStarts(size: map<nat, nat>, fl: seq<nat>, kf: nat, n: nat)
    requires kf < |fl|
    ensures Searched(size, fl, Succ(|fl|, kf), kf, n)
  {
  }

  lemma SearchGoesOn(size: map<nat, nat>, fl: seq<nat>, j: nat, kf: nat, n: nat)
    requires Searched(size, fl, j, kf, n) && SizeAt(size, fl[j]) < n && j != kf
    ensures Searched(size, fl, Succ(|fl|, j), kf, n)
    ensures Steps(|fl|, Succ(|fl|, j), kf) < Steps(|fl|, j, kf)
  {
  }

  /** Back at the start of the search with nothing found: no block fits. */
  lemma AllSeen(base: nat, ptr: map<nat, nat>, size: map<nat, nat>, fl: seq<nat>, kf: nat, j: nat, n: nat)
    requires FreeListOk(base, ptr, size, fl) && kf < |fl| && j < |fl| && fl[j] == fl[kf]
    requires SizeAt(size, fl[j]) < n && Searched(size, fl, j, kf, n)
    ensures j == kf && !Fits(size, fl, n)
  {
    hide Linked, CoalescedBut;
    OrderedDistinct(size, fl);
  }

  /** After a growth by `Grant(n)` units some block fits, wherever the new units were merged. */
  lemma GrownFits(base: nat, ptr: map<nat, nat>, size0: map<nat, nat>, fl0: seq<nat>, size: map<nat, nat>, fl: seq<nat>,
                  at: nat, n: nat)
    requires FreeListOk(base, ptr, size, fl) && n >= 1 && Adds(size0, fl0, size, fl, at, Grant(n))
    ensures Fits(size, fl, n)
  {
    hide FreeListOk;
    assert FreeRun(size, fl, at, n);
    FitsIff(base, ptr, size, fl, n);
  }

  class Heap {
    const base: nat              // address of the static header
    var ptr: map<nat, nat>       // s.ptr of the header at an address
    var size: map<nat, nat>      // s.size of the header at an address
    var freep: nat               // 0 before the first request
    var brk: nat                 // end of the memory obtained so far
    ghost var fl: seq<nat>
    ghost var live: map<nat, nat>
    ghost var core: nat
    ghost var calls: nat         // calls of sbrk so far

    ghost predicate Valid()
      reads this
    {
      && 0 < base
      && HeapOk(base, brk, size, fl, live, core)
      && (freep == 0 <==> fl == [])
      && (fl == [] ==> live == map[])
      && (fl != [] ==> FreeListOk(base, ptr, size, fl) && freep in fl)
    }

    constructor (base: nat, brk: nat)
      requires 0 < base < brk
      ensures Valid() && fl == [] && live == map[] && core == 0 && this.base == base && this.brk == brk && calls == 0
    {
      this.base, this.brk := base, brk;
      ptr, size, freep := map[], map[], 0;
      fl, live, core, calls := [], map[], 0, 0;
    }

    /** The search loop of `free`. */
    method FindPlace(bp: nat, ghost i: nat) returns (p: nat)
      requires fl != [] && FreeListOk(base, ptr, size, fl) && freep in fl
      requires base < bp && i < |fl| && Place(fl, i, bp)
      ensures p == fl[i]
    {
      hide FreeListOk, Place;
      p := freep;
      ghost var j: nat :| j < |fl| && fl[j] == freep;
      StopsIff(base, ptr, size, fl, i, bp, j);
      while !(bp > p && bp < ptr[p])
        invariant j < |fl| && i < |fl| && p == fl[j] && p in ptr && ptr[p] == fl[Succ(|fl|, j)]
        invariant StopsAt(ptr, p, bp) <==> j == i
        decreases Steps(|fl|, j, i)
      {
        if p >= ptr[p] && (bp > p || bp < ptr[p]) {
          break;
        }
        p := ptr[p];
        j := Succ(|fl|, j);
        StopsIff(base, ptr, size, fl, i, bp, j);
      }
    }

    /** Return block `ap - 1` to the free list, merging it with the free blocks it touches. */
    method Free(ap: nat)
      requires Valid() && ap >= 1 && ap - 1 in live
      modifies this`ptr, this`size, this`freep, this`fl, this`live
      ensures Valid() && fl != []
      ensures live == old(live) - {ap - 1}
      ensures Adds(old(size), old(fl), size, fl, ap - 1, old(live)[ap - 1])
      ensures forall a :: a in live ==> a in size && size[a] == old(size)[a]
      ensures NextBelow(old(fl), freep, ap - 1)
    {
      hide FreeListOk, NearlyOk, Adds, HeapOk, Covers, Clear, NextBelow;
      var bp: nat := ap - 1;
      FreeRequires(base, brk, size, fl, live, core, bp);
      ghost var i := PlaceExists(base, ptr, size, fl, bp, live[bp]);
      PlaceIsNext(base, ptr, size, fl, i, bp);
      var p := FindPlace(bp, i);
      NextIsAbove(base, ptr, size, fl, i, bp);
      var ptr1, size1 := ptr, size;
      if bp + size[bp] == ptr[p] {
        size1 := size[bp := size[bp] + size[ptr[p]]];
        ptr1 := ptr[bp := ptr[ptr[p]]];
      } else {
        ptr1 := ptr[bp := ptr[p]];
      }
      var ptr2, size2 := ptr1, size1;
      if p + size1[p] == bp {
        size2 := size1[p := size1[p] + size1[bp]];
        ptr2 := ptr1[p := ptr1[bp]];
      } else {
        ptr2 := ptr1[p := bp];
      }
      ghost var fl2 := FreeStep(base, brk, ptr, size, fl, live, core, i, bp, ptr1, size1, ptr2, size2);
      ptr, size, freep, fl, live := ptr2, size2, p, fl2, live - {bp};
    }

    /** Ask the system for at least `nu` units, which arrive at `at` (0: refused), and free them. */
    method MoreCore(nu: nat, at: nat) returns (p: nat)
      requires Valid() && fl != []
      requires at == 0 || brk <= at
      modifies this
      ensures Valid() && fl != [] && live == old(live) && calls == old(calls) + 1
      ensures p == 0 <==> at == 0
      ensures p == 0 ==> ptr == old(ptr) && size == old(size) && fl == old(fl) && freep == old(freep)
      ensures p == 0 ==> core == old(core) && brk == old(brk)
      ensures p != 0 ==> p == freep && brk == at + Grant(nu) && core == old(core) + Grant(nu)
                         && Adds(old(size), old(fl), size, fl, at, Grant(nu))
    {
      hide FreeListOk, Adds, HeapOk;
      var n := if nu < NALLOC then NALLOC else nu;
      calls := calls + 1;
      if at == 0 {
        return 0;
      }
      GrowKeepsHeap(base, ptr, brk, size, fl, live, core, at, n);
      ghost var live0, size0, fl0 := live, size, fl;
      size, live, core, brk := size[at := n], live[at := n], core + n, at + n;
      ghost var size1 := size;
      Free(at + 1);
      assert live == live0;
      GrowThenFree(size0, fl0, size1, size, fl, at, n);
      p := freep;
    }

    /** Take `nunits` units from block `p`, whose predecessor on the list is `prevp`. */
    method Carve(prevp: nat, p: nat, nunits: nat, ghost i: nat) returns (a: nat)
      requires Valid() && 1 <= i < |fl| && fl[i] == p && fl[i - 1] == prevp
      requires 1 <= nunits && p in size && nunits <= size[p]
      modifies this`ptr, this`size, this`freep, this`fl, this`live
      ensures Valid() && a !in old(live) && live == old(live)[a := nunits]
      ensures Takes(old(size), old(fl), size, fl, a, nunits)
      ensures freep == prevp && a + nunits == p + old(size)[p]
    {
      hide FreeListOk, Takes, HeapOk;
      CarveRequires(base, ptr, brk, size, fl, live, core, i);
      if size[p] == nunits {
        ExactFit(base, ptr, size, fl, i);
        a := p;
        TakeKeepsHeap(base, brk, size, fl, live, core, size, Removed(fl, i), a, nunits);
        assert Removed(fl, i)[i - 1] == prevp;
        ptr, fl := ptr[prevp := ptr[p]], Removed(fl, i);
      } else {
        a := p + size[p] - nunits;
        TailFit(base, ptr, size, fl, i, nunits, a);
        TailIsNotLive(base, ptr, brk, size, fl, live, core, i, nunits, a);
        TakeKeepsHeap(base, brk, size, fl, live, core, TailTaken(size, p, nunits, a), fl, a, nunits);
        size := size[p := size[p] - nunits][a := nunits];
      }
      freep, live := prevp, live[a := nunits];
    }

    /** The first request puts the static header on the list, a block of no units. */
    method Start(nunits: nat, ghost at: nat)
      requires Valid() && nunits >= 1
      modifies this`ptr, this`size, this`freep, this`fl
      ensures Valid() && fl != [] && (exists k: nat :: k < |fl| && fl[k] == freep)
      ensures if old(freep) != 0 then size == old(size) && fl == old(fl) && ptr == old(ptr) && freep == old(freep)
              else !Fits(size, fl, nunits) && !Fits(old(size), old(fl), nunits)
      ensures Adds(old(size), old(fl), size, fl, at, 0)
    {
      hide HeapOk, Adds, Fits;
      if freep == 0 {
        InitKeepsHeap(base, brk, ptr, size, core, nunits);
        EmptyHeader(size, fl, base, at);
        ptr, size, freep := ptr[base := base], size[base := 0], base;
        fl := [base];
        assert fl[0] == freep;
      } else {
        AddsNothing(size, fl, at);
      }
    }

    /**
     First fit from `freep`, with one call of `morecore` at most. A request is refused only if
     no run of free units is long enough and the system gives no more memory.
     */
    method Malloc(nbytes: nat, at: nat) returns (ap: nat)
      requires Valid() && Grant(Units(nbytes)) * HEADER < 0x8000_0000
      requires at == 0 || brk <= at
      modifies this
      ensures Valid()
      ensures ap == 0 ==> live == old(live) && core == old(core)
      ensures ap != 0 ==> ap - 1 !in old(live) && live == old(live)[ap - 1 := Units(nbytes)]
      ensures calls == old(calls) + if Fits(old(size), old(fl), Units(nbytes)) then 0 else 1
      ensures ap == 0 <==> !Fits(old(size), old(fl), Units(nbytes)) && at == 0
      ensures core == old(core) + if calls == old(calls) || at == 0 then 0 else Grant(Units(nbytes))
      ensures ap != 0 ==>
                var grant := if calls == old(calls) then 0 else Grant(Units(nbytes));
                Served(old(size), old(fl), size, fl, at, grant, ap - 1, Units(nbytes))
      ensures ap != 0 && calls == old(calls) ==> NextFit(old(size), old(fl), old(freep), ap - 1, Units(nbytes))
    {
      hide FreeListOk, HeapOk, Adds, Takes, Searched, Fits, Units, Served, NextFit;
      var nunits := Units(nbytes);
      Start(nunits, at);
      ghost var kf: nat :| kf < |fl| && fl[kf] == freep;
      NextHeader(base, ptr, size, fl, kf);
      var prevp, p := freep, ptr[freep];
      ghost var q: nat, j: nat := kf, Succ(|fl|, kf);
      SearchStarts(size, fl, kf, nunits);
      ghost var grown := false;
      while true
        invariant Valid() && fl != [] && live == old(live)
        invariant kf < |fl| && fl[kf] == freep
        invariant q < |fl| && prevp == fl[q] && j == Succ(|fl|, q) && p == fl[j] && p in size && p in ptr
        invariant Searched(size, fl, j, kf, nunits)
        invariant !grown ==> calls == old(calls) && core == old(core) && brk == old(brk)
        invariant !grown && old(freep) != 0 ==> size == old(size) && fl == old(fl) && freep == old(freep)
        invariant !grown && old(freep) == 0 ==> !Fits(size, fl, nunits)
        invariant Adds(old(size), old(fl), size, fl, at, if grown then Grant(nunits) else 0)
        invariant !grown ==> (Fits(size, fl, nunits) <==> Fits(old(size), old(fl), nunits))
        invariant grown ==> Fits(size, fl, nunits) && !Fits(old(size), old(fl), nunits) && at != 0
        invariant grown ==> calls == old(calls) + 1 && core == old(core) + Grant(nunits)
        decreases if grown then 0 else 1, Steps(|fl|, j, kf)
      {
        if size[p] >= nunits {
          FoundHeader(base, ptr, size, fl, q, j, nunits);
          ghost var size1, fl1 := size, fl;
          var a := Carve(prevp, p, nunits, j);
          ServedNow(old(size), old(fl), size1, fl1, size, fl, at, if grown then Grant(nunits) else 0, a, nunits);
          if !grown { NextFitNow(size1, fl1, kf, j, a, nunits); }
          ap := a + 1;
          return;
        }
        if p == freep {
          AllSeen(base, ptr, size, fl, kf, j, nunits);
          ghost var size0, fl0 := size, fl;
          p := MoreCore(nunits, at);
          if p == 0 {
            return 0;
          }
          GrownFits(base, ptr, size0, fl0, size, fl, at, nunits);
          AddsAfterNothing(old(size), old(fl), size0, fl0, size, fl, at, Grant(nunits));
          grown := true;
          kf :| 0 <= kf < |fl| && fl[kf] == freep;
          j := kf;
          SearchStarts(size, fl, kf, nunits);
        } else {
          SearchGoesOn(size, fl, j, kf, nunits);
        }
        NextHeader(base, ptr, size, fl, j);
        prevp, p := p, ptr[p];
        q, j := j, Succ(|fl|, j);
      }
    }
  }

  /** What `morecore` asks for. */
  function Grant(nu: nat): (n: nat)
    ensures n >= nu && n >= NALLOC && (n == nu || n == NALLOC)
  {
    if nu < NALLOC then NALLOC else nu
  }
}
