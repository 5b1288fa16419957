/**
 The circular free list of umalloc.c over plain values: `ptr` and `size` give the header
 stored at an address, `fl` lists the headers on the list in address order, starting with
 the static header `base`. Addresses and sizes are in units of one header.
 */
module FreeList {
  import opened Rings

  /** Following `ptr` from any header on the list visits the list in order and wraps once. */
  ghost predicate Linked(ptr: map<nat, nat>, fl: seq<nat>) {
    forall i :: 0 <= i < |fl| ==> fl[i] in ptr && ptr[fl[i]] == fl[Succ(|fl|, i)]
  }

  /** Blocks are in address order and do not overlap. */
  ghost predicate Ordered(size: map<nat, nat>, fl: seq<nat>) {
    && (forall i :: 0 <= i < |fl| ==> fl[i] in size)
    && (forall i, j :: 0 <= i < j < |fl| ==> fl[i] < fl[j] && fl[i] + size[fl[i]] <= fl[j])
  }

  /** No two blocks of the list touch, except possibly block `u` and its successor, or `v` and its. */
  ghost predicate CoalescedBut(size: map<nat, nat>, fl: seq<nat>, u: int, v: int)
    requires Ordered(size, fl)
  {
    forall i :: 0 <= i < |fl| - 1 && i != u && i != v ==> fl[i] + size[fl[i]] != fl[i + 1]
  }

  /** `base` heads the list and is empty; every other block has at least one unit. */
  ghost predicate Headed(base: nat, size: map<nat, nat>, fl: seq<nat>) {
    && 0 < |fl| && fl[0] == base && base in size && size[base] == 0
    && forall i :: 1 <= i < |fl| ==> fl[i] in size && size[fl[i]] >= 1
  }

  ghost predicate FreeListOk(base: nat, ptr: map<nat, nat>, size: map<nat, nat>, fl: seq<nat>) {
    && Headed(base, size, fl)
    && Linked(ptr, fl)
    && Ordered(size, fl)
    && CoalescedBut(size, fl, -1, -1)
  }

  function SizeAt(size: map<nat, nat>, a: nat): nat {
    if a in size then size[a] else 0
  }

  /** The units in all blocks of the list. */
  ghost function Total(size: map<nat, nat>, fl: seq<nat>): (t: nat) {
    if fl == [] then 0 else Total(size, fl[..|fl| - 1]) + SizeAt(size, fl[|fl| - 1])
  }

  lemma OrderedDistinct(size: map<nat, nat>, fl: seq<nat>)
    requires Ordered(size, fl)
    ensures Distinct(fl)
  {
  }

  lemma InsertLinks(ptr: map<nat, nat>, fl: seq<nat>, i: nat, b: nat)
    requires Linked(ptr, fl) && i < |fl| && b !in fl && Distinct(fl)
    ensures Linked(ptr[b := ptr[fl[i]]][fl[i] := b], Inserted(fl, i, b))
  {
    hide Inserted;
    var ptr', fl' := ptr[b := ptr[fl[i]]][fl[i] := b], Inserted(fl, i, b);
    forall k | 0 <= k < |fl'| ensures fl'[k] in ptr' && ptr'[fl'[k]] == fl'[Succ(|fl'|, k)] {
      if k <= i {
        assert ptr[fl[k]] == fl[Succ(|fl|, k)];
      } else if k > i + 1 {
        assert ptr[fl[k - 1]] == fl[Succ(|fl|, k - 1)];
      }
    }
  }

  lemma RemoveLinks(ptr: map<nat, nat>, fl: seq<nat>, i: nat)
    requires Linked(ptr, fl) && 1 <= i < |fl| && Distinct(fl)
    ensures Linked(ptr[fl[i - 1] := ptr[fl[i]]], Removed(fl, i))
  {
    hide Removed;
    var ptr', fl' := ptr[fl[i - 1] := ptr[fl[i]]], Removed(fl, i);
    forall k: nat | k < |fl'| ensures fl'[k] in ptr' && ptr'[fl'[k]] == fl'[Succ(|fl'|, k)] {
      RemoveLink(ptr, fl, i, k);
    }
  }

  lemma RemoveLink(ptr: map<nat, nat>, fl: seq<nat>, i: nat, k: nat)
    requires Linked(ptr, fl) && 1 <= i < |fl| && Distinct(fl) && k < |fl| - 1
    ensures var ptr', fl' := ptr[fl[i - 1] := ptr[fl[i]]], Removed(fl, i);
            fl'[k] in ptr' && ptr'[fl'[k]] == fl'[Succ(|fl'|, k)]
  {
    hide Removed;
    var was := if k < i then k else k + 1;
    assert Removed(fl, i)[k] == fl[was];
    assert ptr[fl[was]] == fl[Succ(|fl|, was)] && ptr[fl[i]] == fl[Succ(|fl|, i)];
    hide Linked;
    assert was != i - 1 ==> fl[was] != fl[i - 1];
    hide Distinct;
  }

  lemma {:induction false} TotalFrame(size: map<nat, nat>, size': map<nat, nat>, fl: seq<nat>)
    requires forall i :: 0 <= i < |fl| ==> SizeAt(size, fl[i]) == SizeAt(size', fl[i])
    ensures Total(size, fl) == Total(size', fl)
  {
    if fl != [] {
      TotalFrame(size, size', fl[..|fl| - 1]);
    }
  }

  lemma {:induction false} TotalConcat(size: map<nat, nat>, fl: seq<nat>, gl: seq<nat>)
    ensures Total(size, fl + gl) == Total(size, fl) + Total(size, gl)
  {
    if gl == [] {
      assert fl + gl == fl;
    } else {
      var n := |gl| - 1;
      TotalConcat(size, fl, gl[..n]);
      assert (fl + gl)[..|fl| + n] == fl + gl[..n];
    }
  }

  lemma TotalSplit(size: map<nat, nat>, fl: seq<nat>, i: nat)
    requires i < |fl|
    ensures Total(size, fl) == Total(size, Removed(fl, i)) + SizeAt(size, fl[i])
  {
    var a, b := fl[..i], fl[i + 1..];
    assert fl == a + [fl[i]] + b;
    TotalConcat(size, a + [fl[i]], b);
    TotalConcat(size, a, [fl[i]]);
    TotalConcat(size, a, b);
    assert [fl[i]][..0] == [];
  }

  // ----- the steps of free -----

  /** `i` is where block `b` belongs: after `fl[i]` and before its successor on the list. */
  ghost predicate Place(fl: seq<nat>, i: nat, b: nat) {
    i < |fl| && fl[i] < b && (i + 1 < |fl| ==> b < fl[i + 1])
  }

  /** Block `b` of `n` units lies clear of every block on the list. */
  ghost predicate Clear(size: map<nat, nat>, fl: seq<nat>, b: nat, n: nat)
    requires Ordered(size, fl)
  {
    forall i :: 1 <= i < |fl| ==> b + n <= fl[i] || fl[i] + size[fl[i]] <= b
  }

  lemma InsertInOrder(size: map<nat, nat>, fl: seq<nat>, i: nat, b: nat)
    requires Ordered(size, fl) && b in size && Place(fl, i, b) && fl[i] + size[fl[i]] <= b
    requires i + 1 < |fl| ==> b + size[b] <= fl[i + 1]
    ensures Ordered(size, Inserted(fl, i, b))
  {
    hide Inserted;
    forall j | 0 <= j <= i ensures fl[j] < b && fl[j] + size[fl[j]] <= b {
      assert j < i ==> fl[j] < fl[i] && fl[j] + size[fl[j]] <= fl[i];
    }
    forall j | i < j < |fl| ensures b < fl[j] && b + size[b] <= fl[j] {
      assert j > i + 1 ==> fl[i + 1] < fl[j];
    }
  }

  lemma InsertOrdered(base: nat, size: map<nat, nat>, fl: seq<nat>, i: nat, b: nat)
    requires Headed(base, size, fl) && Ordered(size, fl) && CoalescedBut(size, fl, -1, -1)
    requires b in size && size[b] >= 1 && Place(fl, i, b) && Clear(size, fl, b, size[b])
    ensures var fl' := Inserted(fl, i, b);
            && Headed(base, size, fl') && Ordered(size, fl') && CoalescedBut(size, fl', i, i + 1)
  {
    InsertInOrder(size, fl, i, b);
    hide Inserted, Ordered;
    var fl' := Inserted(fl, i, b);
    assert Headed(base, size, fl');
    InsertCoalesced(size, fl, i, b);
  }

  lemma InsertCoalesced(size: map<nat, nat>, fl: seq<nat>, i: nat, b: nat)
    requires Ordered(size, fl) && i < |fl| && Ordered(size, Inserted(fl, i, b))
    requires CoalescedBut(size, fl, -1, -1)
    ensures CoalescedBut(size, Inserted(fl, i, b), i, i + 1)
  {
    hide Inserted;
    var fl' := Inserted(fl, i, b);
    forall k | 0 <= k < |fl'| - 1 && k != i && k != i + 1 ensures fl'[k] + size[fl'[k]] != fl'[k + 1] {
      var j := if k < i then k else k - 1;
      assert fl'[k] == fl[j] && fl'[k + 1] == fl[j + 1];
    }
  }

  lemma MergeSizes(size: map<nat, nat>, fl: seq<nat>, i: nat)
    requires Ordered(size, fl) && i + 1 < |fl|
    ensures var size' := size[fl[i] := size[fl[i]] + size[fl[i + 1]]];
            && size'[fl[i]] == size[fl[i]] + size[fl[i + 1]]
            && (forall j :: 0 <= j < |fl| && j != i ==> fl[j] in size' && size'[fl[j]] == size[fl[j]])
  {
    OrderedDistinct(size, fl);
  }

  lemma MergeInOrder(size: map<nat, nat>, fl: seq<nat>, i: nat)
    requires Ordered(size, fl) && i + 1 < |fl| && fl[i] + size[fl[i]] == fl[i + 1]
    ensures Ordered(size[fl[i] := size[fl[i]] + size[fl[i + 1]]], Removed(fl, i + 1))
  {
    MergeSizes(size, fl, i);
    hide Removed;
    assert forall j :: i + 1 < j < |fl| ==> fl[i + 1] + size[fl[i + 1]] <= fl[j];
  }

  lemma MergeCoalesced(size: map<nat, nat>, fl: seq<nat>, i: nat, u: int)
    requires Ordered(size, fl) && i + 1 < |fl| && u < i && CoalescedBut(size, fl, u, i)
    requires fl[i] + size[fl[i]] == fl[i + 1]
    requires Ordered(size[fl[i] := size[fl[i]] + size[fl[i + 1]]], Removed(fl, i + 1))
    ensures CoalescedBut(size[fl[i] := size[fl[i]] + size[fl[i + 1]]], Removed(fl, i + 1), u, u)
  {
    MergeSizes(size, fl, i);
    hide Removed;
    var size', fl' := size[fl[i] := size[fl[i]] + size[fl[i + 1]]], Removed(fl, i + 1);
    forall k | 0 <= k < |fl'| - 1 && k != u ensures fl'[k] + size'[fl'[k]] != fl'[k + 1] {
      var j := if k < i then k else k + 1;
      assert fl'[k + 1] == fl[j + 1];
      assert j != i && fl[j] + size[fl[j]] != fl[j + 1];
    }
  }

  /** Block `i` swallows its successor, which starts where it ends. */
  lemma MergeOrdered(base: nat, size: map<nat, nat>, fl: seq<nat>, i: nat, u: int)
    requires Headed(base, size, fl) && Ordered(size, fl) && 1 <= i && i + 1 < |fl|
    requires CoalescedBut(size, fl, u, i) && u < i
    requires fl[i] + size[fl[i]] == fl[i + 1]
    ensures var size', fl' := size[fl[i] := size[fl[i]] + size[fl[i + 1]]], Removed(fl, i + 1);
            && Headed(base, size', fl') && Ordered(size', fl') && CoalescedBut(size', fl', u, u)
            && Total(size', fl') == Total(size, fl)
  {
    MergeInOrder(size, fl, i);
    MergeCoalesced(size, fl, i, u);
    MergeTotal(size, fl, i);
    MergeSizes(size, fl, i);
    hide Removed, Total, CoalescedBut, Ordered;
  }

  lemma MergeTotal(size: map<nat, nat>, fl: seq<nat>, i: nat)
    requires Ordered(size, fl) && i + 1 < |fl|
    ensures Ordered(size, fl)
    ensures Total(size[fl[i] := size[fl[i]] + size[fl[i + 1]]], Removed(fl, i + 1)) == Total(size, fl)
  {
    var size', fl' := size[fl[i] := size[fl[i]] + size[fl[i + 1]]], Removed(fl, i + 1);
    TotalSplit(size, fl, i + 1);
    TotalSplit(size, fl', i);
    TotalSplit(size', fl', i);
    TotalFrame(size, size', Removed(fl', i));
  }

  // ----- the units the list holds -----

  /** Unit `x` lies in a block of the list. */
  ghost predicate Covers(size: map<nat, nat>, fl: seq<nat>, x: int) {
    exists i :: 0 <= i < |fl| && fl[i] <= x < fl[i] + SizeAt(size, fl[i])
  }

  lemma InsertCovers(size: map<nat, nat>, fl: seq<nat>, i: nat, b: nat, x: int)
    requires i < |fl| && b in size
    ensures Covers(size, Inserted(fl, i, b), x) <==> Covers(size, fl, x) || b <= x < b + size[b]
  {
    hide Inserted;
    var fl' := Inserted(fl, i, b);
    if Covers(size, fl, x) {
      var k :| 0 <= k < |fl| && fl[k] <= x < fl[k] + SizeAt(size, fl[k]);
      assert fl'[if k <= i then k else k + 1] == fl[k];
    }
    if b <= x < b + size[b] {
      assert fl'[i + 1] == b;
    }
    if Covers(size, fl', x) {
      var k :| 0 <= k < |fl'| && fl'[k] <= x < fl'[k] + SizeAt(size, fl'[k]);
      assert k != i + 1 ==> fl'[k] == fl[if k <= i then k else k - 1];
    }
  }

  lemma MergeCoversMore(size: map<nat, nat>, fl: seq<nat>, i: nat, x: int, k: nat)
    requires Ordered(size, fl) && i + 1 < |fl| && fl[i] + size[fl[i]] == fl[i + 1]
    requires k < |fl| && fl[k] <= x < fl[k] + size[fl[k]]
    ensures Covers(size[fl[i] := size[fl[i]] + size[fl[i + 1]]], Removed(fl, i + 1), x)
  {
    hide Removed;
    var size', fl' := size[fl[i] := size[fl[i]] + size[fl[i + 1]]], Removed(fl, i + 1);
    var j := if k <= i then k else k - 1;
    assert k != i ==> fl[k] != fl[i];
    assert fl'[j] <= x < fl'[j] + SizeAt(size', fl'[j]);
  }

  lemma MergeCoversLess(size: map<nat, nat>, fl: seq<nat>, i: nat, x: int, k: nat)
    requires Ordered(size, fl) && i + 1 < |fl| && fl[i] + size[fl[i]] == fl[i + 1]
    requires k < |fl| - 1
    requires var size', fl' := size[fl[i] := size[fl[i]] + size[fl[i + 1]]], Removed(fl, i + 1);
             fl'[k] <= x < fl'[k] + SizeAt(size', fl'[k])
    ensures Covers(size, fl, x)
  {
    hide Removed;
    var j := if k < i then k else if k > i then k + 1 else if x < fl[i + 1] then i else i + 1;
    assert j < i || j > i + 1 ==> fl[j] != fl[i];
    assert fl[j] <= x < fl[j] + SizeAt(size, fl[j]);
  }

  lemma MergeCovers(size: map<nat, nat>, fl: seq<nat>, i: nat, x: int)
    requires Ordered(size, fl) && i + 1 < |fl| && fl[i] + size[fl[i]] == fl[i + 1]
    ensures Covers(size[fl[i] := size[fl[i]] + size[fl[i + 1]]], Removed(fl, i + 1), x) <==> Covers(size, fl, x)
  {
    hide Removed;
    var size', fl' := size[fl[i] := size[fl[i]] + size[fl[i + 1]]], Removed(fl, i + 1);
    if Covers(size, fl, x) {
      var k :| 0 <= k < |fl| && fl[k] <= x < fl[k] + SizeAt(size, fl[k]);
      MergeCoversMore(size, fl, i, x, k);
    }
    if Covers(size', fl', x) {
      var k :| 0 <= k < |fl'| && fl'[k] <= x < fl'[k] + SizeAt(size', fl'[k]);
      MergeCoversLess(size, fl, i, x, k);
    }
  }

  /** A block none of whose units is on the list lies clear of it. */
  lemma UncoveredIsClear(base: nat, size: map<nat, nat>, fl: seq<nat>, b: nat, n: nat)
    requires Headed(base, size, fl) && Ordered(size, fl) && n >= 1
    requires forall x :: b <= x < b + n ==> !Covers(size, fl, x)
    ensures Clear(size, fl, b, n)
  {
    forall i | 1 <= i < |fl| ensures b + n <= fl[i] || fl[i] + size[fl[i]] <= b {
      var x := if b < fl[i] then fl[i] else b;
      if fl[i] <= x < fl[i] + size[fl[i]] { assert Covers(size, fl, x); }
    }
  }

  // ----- free, first its upper half, then its lower half -----

  /** A list that is in order everywhere but may have block `u` touching its successor. */
  ghost predicate NearlyOk(base: nat, ptr: map<nat, nat>, size: map<nat, nat>, fl: seq<nat>, u: int) {
    Headed(base, size, fl) && Linked(ptr, fl) && Ordered(size, fl) && CoalescedBut(size, fl, u, u)
  }

  /** The two lists hold the same units, `size'` and `fl'` those of block `[b, b + n)` besides. */
  ghost predicate Adds(size: map<nat, nat>, fl: seq<nat>, size': map<nat, nat>, fl': seq<nat>, b: nat, n: nat)
  {
    && (forall x :: Covers(size', fl', x) <==> Covers(size, fl, x) || b <= x < b + n)
    && Total(size', fl') == Total(size, fl) + n
  }

  lemma AddsThen(size: map<nat, nat>, fl: seq<nat>, size1: map<nat, nat>, fl1: seq<nat>,
                 size2: map<nat, nat>, fl2: seq<nat>, b: nat, n: nat, c: nat)
    requires Adds(size, fl, size1, fl1, b, n) && Adds(size1, fl1, size2, fl2, c, 0)
    ensures Adds(size, fl, size2, fl2, b, n)
  {
    hide Covers, Total;
  }

  lemma PlaceIsNew(size: map<nat, nat>, fl: seq<nat>, i: nat, b: nat)
    requires Ordered(size, fl) && Place(fl, i, b)
    ensures b !in fl
  {
  }

  lemma InsertAdds(size: map<nat, nat>, fl: seq<nat>, i: nat, b: nat)
    requires i < |fl| && b in size
    ensures Adds(size, fl, size, Inserted(fl, i, b), b, size[b])
  {
    var fl' := Inserted(fl, i, b);
    TotalSplit(size, fl', i + 1);
    assert Removed(fl', i + 1) == fl;
    hide Covers, Total, Inserted;
    forall x ensures Covers(size, fl', x) <==> Covers(size, fl, x) || b <= x < b + size[b] {
      InsertCovers(size, fl, i, b, x);
    }
  }

  lemma LinkAfter(base: nat, ptr: map<nat, nat>, size: map<nat, nat>, fl: seq<nat>, i: nat, b: nat)
    requires FreeListOk(base, ptr, size, fl)
    requires b in size && size[b] >= 1 && Place(fl, i, b) && Clear(size, fl, b, size[b])
    ensures var fl' := Inserted(fl, i, b);
            && Headed(base, size, fl') && Linked(ptr[b := ptr[fl[i]]][fl[i] := b], fl') && Ordered(size, fl')
            && CoalescedBut(size, fl', i, i + 1)
            && Adds(size, fl, size, fl', b, size[b])
  {
    hide Covers, Total, Inserted, CoalescedBut, Headed, Ordered, Linked, Adds, Clear, Distinct;
    InsertOrdered(base, size, fl, i, b);
    InsertAdds(size, fl, i, b);
    OrderedDistinct(size, fl);
    PlaceIsNew(size, fl, i, b);
    InsertLinks(ptr, fl, i, b);
  }

  lemma NextOf(base: nat, ptr: map<nat, nat>, size: map<nat, nat>, fl: seq<nat>, i: nat)
    requires FreeListOk(base, ptr, size, fl) && i + 1 < |fl|
    ensures fl[i] in ptr && ptr[fl[i]] == fl[i + 1] && fl[i + 1] in ptr && fl[i + 1] in size
  {
  }

  /** The first test of `free` succeeds: the new block swallows the one above it. */
  lemma UpperMerge(base: nat, ptr: map<nat, nat>, size: map<nat, nat>, fl: seq<nat>, i: nat, b: nat, next: nat,
                   ptr': map<nat, nat>, size': map<nat, nat>, fl': seq<nat>)
    requires b in size && size[b] >= 1 && next in ptr && next in size && i + 1 < |fl|
    requires b + size[b] == next == fl[i + 1]
    requires ptr' == ptr[b := ptr[next]][fl[i] := b] && size' == size[b := size[b] + size[next]]
    requires fl' == Removed(Inserted(fl, i, b), i + 2)
    requires FreeListOk(base, ptr, size, fl) && Place(fl, i, b) && Clear(size, fl, b, size[b])
    ensures NearlyOk(base, ptr', size', fl', i) && Adds(size, fl, size', fl', b, size[b])
  {
    hide Inserted, Removed, Total, Covers, Adds, Headed, Ordered, Linked, CoalescedBut, Clear, Distinct, FreeListOk;
    NextOf(base, ptr, size, fl, i);
    LinkAfter(base, ptr, size, fl, i, b);
    var fl1 := Inserted(fl, i, b);
    assert Linked(ptr[b := ptr[next]][fl[i] := b], Removed(fl1, i + 2)) by {
      var ptr1: map<nat, nat> := ptr[b := next][fl[i] := b];
      OrderedDistinct(size, fl1);
      RemoveLinks(ptr1, fl1, i + 2);
      assert ptr1[b := ptr1[next]] == ptr[b := ptr[next]][fl[i] := b];
    }
    MergeAdds(base, size, fl1, i + 1, i);
    AddsThen(size, fl, size, fl1, size[b := size[b] + size[next]], Removed(fl1, i + 2), b, size[b], b);
  }

  lemma MergeAdds(base: nat, size: map<nat, nat>, fl: seq<nat>, i: nat, u: int)
    requires Headed(base, size, fl) && Ordered(size, fl) && 1 <= i && i + 1 < |fl|
    requires CoalescedBut(size, fl, u, i) && u < i
    requires fl[i] + size[fl[i]] == fl[i + 1]
    ensures var size', fl' := size[fl[i] := size[fl[i]] + size[fl[i + 1]]], Removed(fl, i + 1);
            && Headed(base, size', fl') && Ordered(size', fl') && CoalescedBut(size', fl', u, u)
            && Adds(size, fl, size', fl', fl[i], 0)
  {
    MergeOrdered(base, size, fl, i, u);
    hide Removed, Total, Covers, Headed, CoalescedBut;
    var size', fl' := size[fl[i] := size[fl[i]] + size[fl[i + 1]]], Removed(fl, i + 1);
    forall x ensures Covers(size', fl', x) <==> Covers(size, fl, x) { MergeCovers(size, fl, i, x); }
  }

  /** The first test of `free` fails: the new block is simply linked in. */
  lemma UpperLink(base: nat, ptr: map<nat, nat>, size: map<nat, nat>, fl: seq<nat>, i: nat, b: nat)
    requires FreeListOk(base, ptr, size, fl)
    requires b in size && size[b] >= 1 && Place(fl, i, b) && Clear(size, fl, b, size[b])
    requires i + 1 < |fl| ==> b + size[b] != fl[i + 1]
    ensures NearlyOk(base, ptr[b := ptr[fl[i]]][fl[i] := b], size, Inserted(fl, i, b), i)
    ensures Adds(size, fl, size, Inserted(fl, i, b), b, size[b])
  {
    LinkAfter(base, ptr, size, fl, i, b);
    hide Inserted, Total, Covers, Linked;
  }

  /** The second test of `free` succeeds: the block below swallows the new one. */
  lemma LowerMerge(base: nat, ptr: map<nat, nat>, size: map<nat, nat>, fl: seq<nat>, i: nat)
    requires NearlyOk(base, ptr, size, fl, i) && 1 <= i && i + 1 < |fl|
    requires fl[i] + size[fl[i]] == fl[i + 1]
    ensures var size', fl' := size[fl[i] := size[fl[i]] + size[fl[i + 1]]], Removed(fl, i + 1);
            FreeListOk(base, ptr[fl[i] := ptr[fl[i + 1]]], size', fl') && Adds(size, fl, size', fl', fl[i], 0)
  {
    RemoveLinks(ptr, fl, i + 1);
    hide Removed, Total, Covers;
    MergeAdds(base, size, fl, i, -1);
  }

  // ----- malloc: taking units off the list -----

  /** The second list lacks exactly the units of `[a, a + n)`, all of which the first one holds. */
  ghost predicate Takes(size: map<nat, nat>, fl: seq<nat>, size': map<nat, nat>, fl': seq<nat>, a: nat, n: nat) {
    && (forall x :: Covers(size', fl', x) <==> Covers(size, fl, x) && !(a <= x < a + n))
    && (forall x :: a <= x < a + n ==> Covers(size, fl, x))
    && Total(size', fl') + n == Total(size, fl)
  }

  lemma CoveredOnce(size: map<nat, nat>, fl: seq<nat>, i: nat, x: int)
    requires Ordered(size, fl) && i < |fl| && fl[i] <= x < fl[i] + size[fl[i]]
    ensures Covers(size, fl, x) && !Covers(size, Removed(fl, i), x)
  {
    assert fl[i] <= x < fl[i] + SizeAt(size, fl[i]);
    var fl' := Removed(fl, i);
    forall k | 0 <= k < |fl'| ensures !(fl'[k] <= x < fl'[k] + SizeAt(size, fl'[k])) {
      if k < i {
        assert fl[k] + size[fl[k]] <= fl[i];
      } else {
        assert fl[i] + size[fl[i]] <= fl[k + 1];
      }
    }
  }

  lemma RemoveCovers(size: map<nat, nat>, fl: seq<nat>, i: nat, x: int)
    requires Ordered(size, fl) && i < |fl|
    ensures Covers(size, Removed(fl, i), x) <==> Covers(size, fl, x) && !(fl[i] <= x < fl[i] + size[fl[i]])
  {
    hide Removed;
    var fl' := Removed(fl, i);
    if fl[i] <= x < fl[i] + size[fl[i]] {
      CoveredOnce(size, fl, i, x);
    } else if Covers(size, fl, x) {
      var k :| 0 <= k < |fl| && fl[k] <= x < fl[k] + SizeAt(size, fl[k]);
      assert fl'[if k < i then k else k - 1] == fl[k];
    }
    if Covers(size, fl', x) {
      var k :| 0 <= k < |fl'| && fl'[k] <= x < fl'[k] + SizeAt(size, fl'[k]);
      assert fl'[k] == fl[if k < i then k else k + 1];
    }
  }

  lemma RemoveOrdered(base: nat, size: map<nat, nat>, fl: seq<nat>, i: nat)
    requires Headed(base, size, fl) && Ordered(size, fl) && CoalescedBut(size, fl, -1, -1) && 1 <= i < |fl|
    ensures var fl' := Removed(fl, i); Headed(base, size, fl') && Ordered(size, fl') && CoalescedBut(size, fl', -1, -1)
  {
    hide Removed;
    assert i + 1 < |fl| ==> fl[i - 1] + size[fl[i - 1]] <= fl[i] < fl[i + 1];
  }

  /** A block of exactly the right size leaves the list. */
  lemma ExactFit(base: nat, ptr: map<nat, nat>, size: map<nat, nat>, fl: seq<nat>, i: nat)
    requires FreeListOk(base, ptr, size, fl) && 1 <= i < |fl|
    ensures FreeListOk(base, ptr[fl[i - 1] := ptr[fl[i]]], size, Removed(fl, i))
    ensures Takes(size, fl, size, Removed(fl, i), fl[i], size[fl[i]])
  {
    hide Covers, CoalescedBut, Linked, Headed, Distinct;
    OrderedDistinct(size, fl);
    RemoveLinks(ptr, fl, i);
    RemoveOrdered(base, size, fl, i);
    RemoveTakes(size, fl, i);
  }

  lemma RemoveTakes(size: map<nat, nat>, fl: seq<nat>, i: nat)
    requires Ordered(size, fl) && i < |fl|
    ensures Takes(size, fl, size, Removed(fl, i), fl[i], size[fl[i]])
  {
    var fl', a, n := Removed(fl, i), fl[i], size[fl[i]];
    TotalSplit(size, fl, i);
    forall x ensures Covers(size, fl', x) <==> Covers(size, fl, x) && !(a <= x < a + n) {
      RemoveCovers(size, fl, i, x);
    }
    forall x | a <= x < a + n ensures Covers(size, fl, x) {
      CoveredOnce(size, fl, i, x);
    }
  }

  /** The sizes after block `p` of `size[p]` units has given up its last `n` units, now headed at `a`. */
  function TailTaken(size: map<nat, nat>, p: nat, n: nat, a: nat): (size': map<nat, nat>)
    requires p in size && n <= size[p]
  {
    size[p := size[p] - n][a := n]
  }

  ghost predicate IsTail(size: map<nat, nat>, fl: seq<nat>, i: nat, n: nat, a: nat) {
    i < |fl| && fl[i] in size && 0 < n < size[fl[i]] && a == fl[i] + size[fl[i]] - n
  }

  lemma TailIsNew(size: map<nat, nat>, fl: seq<nat>, i: nat, n: nat, a: nat)
    requires Ordered(size, fl) && IsTail(size, fl, i, n, a)
    ensures a !in fl
  {
    forall k | 0 <= k < |fl| ensures fl[k] != a {
      assert i < k ==> fl[i] + size[fl[i]] <= fl[k];
      assert k < i ==> fl[k] < fl[i];
    }
  }

  lemma TailSizes(size: map<nat, nat>, fl: seq<nat>, i: nat, n: nat, a: nat)
    requires Ordered(size, fl) && IsTail(size, fl, i, n, a)
    ensures forall k :: 0 <= k < |fl| ==> fl[k] in TailTaken(size, fl[i], n, a)
    ensures forall k :: 0 <= k < |fl| && k != i ==> TailTaken(size, fl[i], n, a)[fl[k]] == size[fl[k]]
    ensures TailTaken(size, fl[i], n, a)[fl[i]] == size[fl[i]] - n
  {
    TailIsNew(size, fl, i, n, a);
    OrderedDistinct(size, fl);
  }

  lemma TailTotal(size: map<nat, nat>, fl: seq<nat>, i: nat, n: nat, a: nat)
    requires Ordered(size, fl) && IsTail(size, fl, i, n, a)
    ensures Total(TailTaken(size, fl[i], n, a), fl) + n == Total(size, fl)
  {
    var size' := TailTaken(size, fl[i], n, a);
    TailSizes(size, fl, i, n, a);
    TotalSplit(size, fl, i);
    TotalSplit(size', fl, i);
    TotalFrame(size, size', Removed(fl, i));
  }

  lemma TailCovers(size: map<nat, nat>, fl: seq<nat>, i: nat, n: nat, a: nat, x: int)
    requires Ordered(size, fl) && IsTail(size, fl, i, n, a)
    ensures Covers(TailTaken(size, fl[i], n, a), fl, x) <==> Covers(size, fl, x) && !(a <= x < a + n)
  {
    var size' := TailTaken(size, fl[i], n, a);
    TailSizes(size, fl, i, n, a);
    hide TailTaken;
    forall k | 0 <= k < |fl|
      ensures fl[k] <= x < fl[k] + SizeAt(size', fl[k]) <==>
                fl[k] <= x < fl[k] + SizeAt(size, fl[k]) && !(a <= x < a + n)
    {
      assert k < i ==> fl[k] + size[fl[k]] <= fl[i];
      assert i < k ==> fl[i] + size[fl[i]] <= fl[k];
    }
  }

  lemma TailOrdered(base: nat, ptr: map<nat, nat>, size: map<nat, nat>, fl: seq<nat>, i: nat, n: nat, a: nat)
    requires FreeListOk(base, ptr, size, fl) && 1 <= i && IsTail(size, fl, i, n, a)
    ensures FreeListOk(base, ptr, TailTaken(size, fl[i], n, a), fl)
  {
    hide Linked, TailTaken, CoalescedBut, Ordered;
    TailStaysOrdered(size, fl, i, n, a);
    TailSizes(size, fl, i, n, a);
    TailCoalesced(size, fl, i, n, a);
  }

  lemma TailStaysOrdered(size: map<nat, nat>, fl: seq<nat>, i: nat, n: nat, a: nat)
    requires Ordered(size, fl) && IsTail(size, fl, i, n, a)
    ensures Ordered(TailTaken(size, fl[i], n, a), fl)
  {
    TailSizes(size, fl, i, n, a);
    hide TailTaken;
  }

  lemma TailCoalesced(size: map<nat, nat>, fl: seq<nat>, i: nat, n: nat, a: nat)
    requires Ordered(size, fl) && CoalescedBut(size, fl, -1, -1) && IsTail(size, fl, i, n, a)
    requires Ordered(TailTaken(size, fl[i], n, a), fl)
    ensures CoalescedBut(TailTaken(size, fl[i], n, a), fl, -1, -1)
  {
    TailSizes(size, fl, i, n, a);
    var size' := TailTaken(size, fl[i], n, a);
    hide TailTaken;
    forall k | 0 <= k < |fl| - 1 ensures fl[k] + size'[fl[k]] != fl[k + 1] {
      assert fl[k] + size[fl[k]] <= fl[k + 1];
    }
  }

  /** A larger block keeps its place and gives up its last `n` units. */
  lemma TailFit(base: nat, ptr: map<nat, nat>, size: map<nat, nat>, fl: seq<nat>, i: nat, n: nat, a: nat)
    requires FreeListOk(base, ptr, size, fl) && 1 <= i && IsTail(size, fl, i, n, a)
    ensures FreeListOk(base, ptr, TailTaken(size, fl[i], n, a), fl)
    ensures Takes(size, fl, TailTaken(size, fl[i], n, a), fl, a, n)
  {
    hide Covers, CoalescedBut, Linked, Headed, TailTaken;
    var size' := TailTaken(size, fl[i], n, a);
    TailOrdered(base, ptr, size, fl, i, n, a);
    TailTotal(size, fl, i, n, a);
    forall x ensures Covers(size', fl, x) <==> Covers(size, fl, x) && !(a <= x < a + n) {
      TailCovers(size, fl, i, n, a, x);
    }
    forall x | a <= x < a + n ensures Covers(size, fl, x) {
      CoveredOnce(size, fl, i, x);
    }
  }

  // ----- full coalescing: a run of free units is never split between blocks -----

  lemma SameBlock(base: nat, ptr: map<nat, nat>, size: map<nat, nat>, fl: seq<nat>, i: nat, x: int)
    requires FreeListOk(base, ptr, size, fl) && i < |fl| && fl[i] <= x < fl[i] + size[fl[i]]
    ensures Covers(size, fl, x + 1) ==> x + 1 < fl[i] + size[fl[i]]
  {
    hide Linked;
    if x + 1 == fl[i] + size[fl[i]] {
      forall k | 0 <= k < |fl| ensures !(fl[k] <= x + 1 < fl[k] + SizeAt(size, fl[k])) {
        assert k < i ==> fl[k] + size[fl[k]] <= fl[i];
        assert i + 1 < k ==> fl[i + 1] < fl[k];
        assert i + 1 < |fl| ==> fl[i] + size[fl[i]] < fl[i + 1];
      }
    }
  }

  lemma {:induction false} RunInOneBlock(base: nat, ptr: map<nat, nat>, size: map<nat, nat>, fl: seq<nat>, b: nat,
                                         n: nat)
      returns (i: nat)
    requires FreeListOk(base, ptr, size, fl) && n >= 1
    requires forall x :: b <= x < b + n ==> Covers(size, fl, x)
    ensures i < |fl| && fl[i] <= b && b + n <= fl[i] + size[fl[i]]
  {
    if n == 1 {
      assert Covers(size, fl, b);
      i :| 0 <= i < |fl| && fl[i] <= b < fl[i] + SizeAt(size, fl[i]);
    } else {
      i := RunInOneBlock(base, ptr, size, fl, b, n - 1);
      SameBlock(base, ptr, size, fl, i, b + n - 2);
    }
  }

  /** Some block has `n` units if and only if there are `n` consecutive free units anywhere. */
  lemma FitsIff(base: nat, ptr: map<nat, nat>, size: map<nat, nat>, fl: seq<nat>, n: nat)
    requires FreeListOk(base, ptr, size, fl) && n >= 1
    ensures (exists i :: 0 <= i < |fl| && SizeAt(size, fl[i]) >= n)
       <==> (exists b: nat :: FreeRun(size, fl, b, n))
  {
    if i :| 0 <= i < |fl| && SizeAt(size, fl[i]) >= n {
      forall x | fl[i] <= x < fl[i] + n ensures Covers(size, fl, x) {
        assert fl[i] <= x < fl[i] + SizeAt(size, fl[i]);
      }
      assert FreeRun(size, fl, fl[i], n);
    }
    if b: nat :| FreeRun(size, fl, b, n) {
      var i := RunInOneBlock(base, ptr, size, fl, b, n);
    }
  }

  /** The `n` units from `b` are all free. */
  ghost predicate FreeRun(size: map<nat, nat>, fl: seq<nat>, b: nat, n: nat) {
    forall x :: b <= x < b + n ==> Covers(size, fl, x)
  }

  /** Steps along the list from position `j` to position `k`. */
  function Steps(n: nat, j: nat, k: nat): (d: nat)
    requires j < n && k < n
    ensures d < n
  {
    if j <= k then k - j else k + n - j
  }

  // ----- the search loop of free -----

  /** The test on which the search of `free` stops at header `p`: `b` belongs after it, or `p` is the wrap point. */
  predicate StopsAt(ptr: map<nat, nat>, p: nat, b: nat)
    requires p in ptr
  {
    (b > p && b < ptr[p]) || (p >= ptr[p] && (b > p || b < ptr[p]))
  }

  /** The search stops at the one place where the block belongs, and nowhere else. */
  lemma StopsIff(base: nat, ptr: map<nat, nat>, size: map<nat, nat>, fl: seq<nat>, i: nat, b: nat, j: nat)
    requires FreeListOk(base, ptr, size, fl) && base < b && Place(fl, i, b) && j < |fl|
    ensures fl[j] in ptr && ptr[fl[j]] == fl[Succ(|fl|, j)]
    ensures StopsAt(ptr, fl[j], b) <==> j == i
  {
    hide CoalescedBut;
    assert ptr[fl[j]] == fl[Succ(|fl|, j)];
    assert j < i ==> fl[j] < fl[j + 1] <= fl[i];
    assert i < j ==> fl[i + 1] <= fl[j];
    assert fl[0] == base;
    assert 0 < j ==> fl[0] < fl[j];
  }

  lemma {:induction false} PlaceFrom(size: map<nat, nat>, fl: seq<nat>, b: nat, k: nat) returns (i: nat)
    requires Ordered(size, fl) && k < |fl| && fl[k] < b && b !in fl
    ensures Place(fl, i, b)
    decreases |fl| - k
  {
    if k + 1 < |fl| && fl[k + 1] < b {
      i := PlaceFrom(size, fl, b, k + 1);
    } else {
      assert k + 1 < |fl| ==> fl[k + 1] in fl;
      i := k;
    }
  }

  /** A block above `base` none of whose units is free has exactly one place on the list. */
  lemma PlaceExists(base: nat, ptr: map<nat, nat>, size: map<nat, nat>, fl: seq<nat>, b: nat, n: nat) returns (i: nat)
    requires FreeListOk(base, ptr, size, fl) && base < b && n >= 1
    requires forall x :: b <= x < b + n ==> !Covers(size, fl, x)
    ensures Place(fl, i, b) && Clear(size, fl, b, n)
  {
    UncoveredIsClear(base, size, fl, b, n);
    forall k | 0 <= k < |fl| ensures fl[k] != b {
      assert k > 0 ==> fl[k] <= fl[k] < fl[k] + SizeAt(size, fl[k]);
    }
    i := PlaceFrom(size, fl, b, 0);
  }

  /** `p` is the last header of the list below `b`. */
  ghost predicate NextBelow(fl: seq<nat>, p: nat, b: nat) {
    p in fl && p < b && forall f :: f in fl ==> f <= p || f > b
  }

  lemma PlaceIsNext(base: nat, ptr: map<nat, nat>, size: map<nat, nat>, fl: seq<nat>, i: nat, b: nat)
    requires FreeListOk(base, ptr, size, fl) && Place(fl, i, b)
    ensures NextBelow(fl, fl[i], b)
  {
    forall f | f in fl ensures f <= fl[i] || f > b {
      var k :| 0 <= k < |fl| && fl[k] == f;
      if k > i + 1 { assert fl[i + 1] < fl[k]; }
    }
  }

  // ----- free, put together -----

  lemma NextIsAbove(base: nat, ptr: map<nat, nat>, size: map<nat, nat>, fl: seq<nat>, i: nat, b: nat)
    requires FreeListOk(base, ptr, size, fl) && i < |fl| && base < b && b in size
    ensures fl[i] in ptr && fl[i] in size && ptr[fl[i]] in ptr && ptr[fl[i]] in size
    ensures i + 1 < |fl| ==> ptr[fl[i]] == fl[i + 1]
    ensures i + 1 == |fl| ==> b + size[b] != ptr[fl[i]]
  {
    assert ptr[fl[i]] == fl[Succ(|fl|, i)];
  }

  /** The headers after the upper half of `free` has dealt with block `b` whose place is after `p`. */
  ghost predicate UpperDone(ptr: map<nat, nat>, size: map<nat, nat>, p: nat, b: nat, ptr': map<nat, nat>,
                            size': map<nat, nat>)
    requires p in ptr && ptr[p] in ptr && ptr[p] in size && b in size
  {
    if b + size[b] == ptr[p] then
      size' == size[b := size[b] + size[ptr[p]]] && ptr' == ptr[b := ptr[ptr[p]]]
    else
      size' == size && ptr' == ptr[b := ptr[p]]
  }

  /** The headers after the lower half of `free`. */
  ghost predicate LowerDone(ptr: map<nat, nat>, size: map<nat, nat>, p: nat, b: nat, ptr': map<nat, nat>,
                            size': map<nat, nat>)
    requires p in size && b in size && b in ptr
  {
    if p + size[p] == b then
      size' == size[p := size[p] + size[b]] && ptr' == ptr[p := ptr[b]]
    else
      size' == size && ptr' == ptr[p := b]
  }

  lemma UpperStep(base: nat, ptr: map<nat, nat>, size: map<nat, nat>, fl: seq<nat>, i: nat, b: nat,
                  ptr1: map<nat, nat>, size1: map<nat, nat>) returns (fl1: seq<nat>)
    requires FreeListOk(base, ptr, size, fl) && base < b
    requires b in size && size[b] >= 1 && Place(fl, i, b) && Clear(size, fl, b, size[b])
    requires fl[i] in ptr && ptr[fl[i]] in ptr && ptr[fl[i]] in size && UpperDone(ptr, size, fl[i], b, ptr1, size1)
    ensures i + 1 < |fl1| && fl1[i] == fl[i] && fl1[i + 1] == b && b in ptr1
    ensures NearlyOk(base, ptr1[fl[i] := b], size1, fl1, i)
    ensures Adds(size, fl, size1, fl1, b, size[b])
    ensures forall a :: a in size && a != b ==> a in size1 && size1[a] == size[a]
  {
    hide Covers, Total, Removed, Inserted, NearlyOk, Adds, FreeListOk, Clear;
    NextIsAbove(base, ptr, size, fl, i, b);
    if b + size[b] == ptr[fl[i]] {
      fl1 := Removed(Inserted(fl, i, b), i + 2);
      UpperMerge(base, ptr, size, fl, i, b, fl[i + 1], ptr[b := ptr[fl[i + 1]]][fl[i] := b], size1, fl1);
    } else {
      UpperLink(base, ptr, size, fl, i, b);
      fl1 := Inserted(fl, i, b);
    }
  }

  lemma LowerStep(base: nat, ptr: map<nat, nat>, size: map<nat, nat>, fl: seq<nat>, i: nat, b: nat,
                  ptr': map<nat, nat>, size': map<nat, nat>) returns (fl': seq<nat>)
    requires i + 1 < |fl| && fl[i + 1] == b && b in ptr && b in size && fl[i] in size && base < b && fl[i] != b
    requires NearlyOk(base, ptr[fl[i] := b], size, fl, i)
    requires LowerDone(ptr, size, fl[i], b, ptr', size')
    ensures FreeListOk(base, ptr', size', fl') && fl[i] in fl'
    ensures Adds(size, fl, size', fl', fl[i], 0)
    ensures forall a :: a in size && a != fl[i] ==> a in size' && size'[a] == size[a]
  {
    hide Linked, Headed, Covers, Ordered, CoalescedBut, Adds, Removed, FreeListOk, NearlyOk;
    if fl[i] + size[fl[i]] == b {
      TouchedIsBlock(base, ptr[fl[i] := b], size, fl, i);
      LowerMerge(base, ptr[fl[i] := b], size, fl, i);
      fl' := Removed(fl, i + 1);
      assert fl'[i] == fl[i];
      assert ptr[fl[i] := b][fl[i] := ptr[b]] == ptr';
    } else {
      fl' := fl;
      NothingTouches(base, ptr[fl[i] := b], size, fl, i);
      AddsNothing(size, fl, fl[i]);
    }
  }

  lemma TouchedIsBlock(base: nat, ptr: map<nat, nat>, size: map<nat, nat>, fl: seq<nat>, i: nat)
    requires NearlyOk(base, ptr, size, fl, i) && i + 1 < |fl| && fl[i] in size && fl[i] + size[fl[i]] == fl[i + 1]
    ensures i >= 1
  {
  }

  lemma NothingTouches(base: nat, ptr: map<nat, nat>, size: map<nat, nat>, fl: seq<nat>, i: nat)
    requires NearlyOk(base, ptr, size, fl, i) && i + 1 < |fl| && fl[i] in size && fl[i] + size[fl[i]] != fl[i + 1]
    ensures FreeListOk(base, ptr, size, fl)
  {
    hide Linked, Headed;
  }

  lemma AddsNothing(size: map<nat, nat>, fl: seq<nat>, b: nat)
    ensures Adds(size, fl, size, fl, b, 0)
  {
    hide Covers;
  }

  // ----- a header outside the list -----

  lemma NewHeaderKeepsOrder(base: nat, ptr: map<nat, nat>, size: map<nat, nat>, fl: seq<nat>, a: nat, n: nat)
    requires FreeListOk(base, ptr, size, fl) && a !in fl
    ensures FreeListOk(base, ptr, size[a := n], fl)
  {
    hide Linked;
    assert forall i :: 0 <= i < |fl| ==> fl[i] != a;
  }

  lemma NewHeaderKeepsUnits(size: map<nat, nat>, fl: seq<nat>, a: nat, n: nat)
    requires a !in fl
    ensures Total(size[a := n], fl) == Total(size, fl)
    ensures forall x :: Covers(size[a := n], fl, x) <==> Covers(size, fl, x)
  {
    assert forall i :: 0 <= i < |fl| ==> fl[i] != a;
    assert forall i :: 0 <= i < |fl| ==> SizeAt(size[a := n], fl[i]) == SizeAt(size, fl[i]);
    TotalFrame(size, size[a := n], fl);
  }
}
