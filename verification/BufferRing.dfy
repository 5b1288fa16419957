/** The doubly linked ring of buffers of bio.c over plain values: `link[b]` holds `b->prev` and `b->next`. */
module BufferRing {
  import opened Rings

  datatype Link = Link(prev: nat, next: nat)

  /** `ring` lists the ring once, forwards: `next` leads along it and `prev` leads back. */
  ghost predicate Linked(link: seq<Link>, ring: seq<nat>) {
    && 0 < |ring| && Distinct(ring)
    && (forall i :: 0 <= i < |ring| ==> ring[i] < |link|)
    && (forall i :: 0 <= i < |ring| ==> link[ring[i]].next == ring[Succ(|ring|, i)])
    && (forall i :: 0 <= i < |ring| ==> link[ring[Succ(|ring|, i)]].prev == ring[i])
  }

  /** `b->next->prev = b->prev; b->prev->next = b->next` */
  function Unlinked(link: seq<Link>, b: nat): (r: seq<Link>)
    requires b < |link| && link[b].next < |link| && link[b].prev < |link|
    ensures |r| == |link|
    ensures forall x :: 0 <= x < |link| ==> r[x].next == if x == link[b].prev then link[b].next else link[x].next
    ensures forall x :: 0 <= x < |link| ==> r[x].prev == if x == link[b].next then link[b].prev else link[x].prev
  {
    var n, p := link[b].next, link[b].prev;
    var l := link[n := link[n].(prev := p)];
    l[p := l[p].(next := n)]
  }

  /** The four assignments that put `b` right after `h`. */
  function LinkedAfter(link: seq<Link>, h: nat, b: nat): (r: seq<Link>)
    requires b < |link| && h < |link| && link[h].next < |link| && b != h && b != link[h].next
    ensures |r| == |link|
    ensures forall x :: 0 <= x < |link| ==>
      r[x].next == if x == h then b else if x == b then link[h].next else link[x].next
    ensures forall x :: 0 <= x < |link| ==>
      r[x].prev == if x == link[h].next then b else if x == b then h else link[x].prev
  {
    var n := link[h].next;
    var l1 := link[b := Link(h, n)];
    var l2 := l1[n := l1[n].(prev := b)];
    l2[h := l2[h].(next := b)]
  }

  lemma NeighboursOf(link: seq<Link>, ring: seq<nat>, i: nat)
    requires Linked(link, ring) && i < |ring|
    ensures ring[i] < |link| && link[ring[i]].next < |link| && link[ring[i]].prev < |link|
    ensures link[ring[i]].next == ring[Succ(|ring|, i)]
    ensures link[ring[i]].prev == ring[if i == 0 then |ring| - 1 else i - 1]
  {
    var j := if i == 0 then |ring| - 1 else i - 1;
    assert Succ(|ring|, j) == i;
  }

  lemma SameMember(link: seq<Link>, ring: seq<nat>, i: nat, j: nat)
    requires Linked(link, ring) && i < |ring| && j < |ring|
    ensures ring[i] == ring[j] <==> i == j
  {
  }

  lemma RemovedDistinct(ring: seq<nat>, i: nat)
    requires Distinct(ring) && i < |ring|
    ensures Distinct(Removed(ring, i)) && ring[i] !in Removed(ring, i)
  {
  }

  lemma UnlinkAt(link: seq<Link>, ring: seq<nat>, i: nat, k: nat)
    requires Linked(link, ring) && 1 <= i < |ring| && k < |ring| - 1 && ring[i] < |link|
    requires link[ring[i]].next < |link| && link[ring[i]].prev < |link|
    ensures var r, l := Removed(ring, i), Unlinked(link, ring[i]);
            l[r[k]].next == r[Succ(|r|, k)] && l[r[Succ(|r|, k)]].prev == r[k]
  {
    hide Removed, Unlinked, Linked;
    var n := |ring|;
    var j := if k < i then k else k + 1;
    var j' := Succ(n, if j + 1 == i then i else j);
    NeighboursOf(link, ring, i);
    NeighboursOf(link, ring, j);
    NeighboursOf(link, ring, j');
    SameMember(link, ring, j, i - 1);
    SameMember(link, ring, j', Succ(n, i));
    var r := Removed(ring, i);
    assert r[k] == ring[j] && r[Succ(|r|, k)] == ring[j'];
  }

  lemma UnlinkKeeps(link: seq<Link>, ring: seq<nat>, i: nat)
    requires Linked(link, ring) && 1 <= i < |ring|
    ensures link[ring[i]].next < |link| && link[ring[i]].prev < |link|
    ensures Linked(Unlinked(link, ring[i]), Removed(ring, i))
  {
    NeighboursOf(link, ring, i);
    RemovedDistinct(ring, i);
    var r, l := Removed(ring, i), Unlinked(link, ring[i]);
    hide Removed, Unlinked, Distinct;
    forall k | 0 <= k < |r| ensures l[r[k]].next == r[Succ(|r|, k)] && l[r[Succ(|r|, k)]].prev == r[k] {
      UnlinkAt(link, ring, i, k);
    }
  }

  lemma LinkAt(link: seq<Link>, ring: seq<nat>, b: nat, k: nat)
    requires Linked(link, ring) && b < |link| && b !in ring && k <= |ring| && link[ring[0]].next in ring
    ensures var r, l := Inserted(ring, 0, b), LinkedAfter(link, ring[0], b);
            l[r[k]].next == r[Succ(|r|, k)] && l[r[Succ(|r|, k)]].prev == r[k]
  {
    hide Inserted, LinkedAfter;
    var n := |ring|;
    NeighboursOf(link, ring, 0);
    assert ring[0] != b;
    if k >= 2 {
      LinkFar(link, ring, b, k);
    } else if k == 1 {
      assert ring[Succ(n, 0)] != b;
    }
  }

  lemma LinkFar(link: seq<Link>, ring: seq<nat>, b: nat, k: nat)
    requires Linked(link, ring) && b < |link| && b !in ring && 2 <= k <= |ring| && link[ring[0]].next in ring
    ensures var r, l := Inserted(ring, 0, b), LinkedAfter(link, ring[0], b);
            l[r[k]].next == r[Succ(|r|, k)] && l[r[Succ(|r|, k)]].prev == r[k]
  {
    hide Inserted, LinkedAfter, Linked;
    var n, j := |ring|, k - 1;
    NeighboursOf(link, ring, 0);
    NeighboursOf(link, ring, j);
    NeighboursOf(link, ring, Succ(n, j));
    SameMember(link, ring, j, 0);
    SameMember(link, ring, Succ(n, j), Succ(n, 0));
    assert ring[0] != b && ring[j] != b && ring[Succ(n, j)] != b;
  }

  lemma InsertedDistinct(ring: seq<nat>, b: nat)
    requires Distinct(ring) && 0 < |ring| && b !in ring
    ensures Distinct(Inserted(ring, 0, b))
  {
    hide Inserted;
    assert forall j :: 0 <= j < |ring| ==> ring[j] != b;
  }

  lemma LinkAfterHead(link: seq<Link>, ring: seq<nat>, b: nat)
    requires Linked(link, ring) && b < |link| && b !in ring
    ensures link[ring[0]].next < |link| && link[ring[0]].next in ring
    ensures Linked(LinkedAfter(link, ring[0], b), Inserted(ring, 0, b))
  {
    NeighboursOf(link, ring, 0);
    var r, l := Inserted(ring, 0, b), LinkedAfter(link, ring[0], b);
    hide Inserted, LinkedAfter;
    InsertedDistinct(ring, b);
    hide Distinct;
    forall k | 0 <= k < |r| ensures l[r[k]].next == r[Succ(|r|, k)] && l[r[Succ(|r|, k)]].prev == r[k] {
      LinkAt(link, ring, b, k);
    }
  }
}
