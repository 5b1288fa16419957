/**
 vm.c: how address spaces change. Page `v` of an address space is the page at address `4096 * v`;
 pages below USER_PAGES are the user half. The predicates here relate the memory before and after
 an operation; the lemmas carry them through one round of its loop.
 */
module VmSpace {
  import opened PageTables

  const USER_PAGES := USER_TABLES * ENTRIES
  const PAGES := ENTRIES * ENTRIES
  const PGSIZE := 4096
  const KERNBASE := USER_PAGES * PGSIZE

  datatype MapResult = Mapped | NoMemory | Remap

  function Pdx(v: nat): (x: nat) {
    v / ENTRIES
  }

  function Ptx(v: nat): (y: nat)
    ensures y < ENTRIES
  {
    v % ENTRIES
  }

  function PageUp(size: nat): (v: nat)
    ensures (v - 1) * PGSIZE < size <= v * PGSIZE
  {
    (size + PGSIZE - 1) / PGSIZE
  }

  function Vpn(x: nat, y: nat): (v: nat) {
    x * ENTRIES + y
  }

  lemma VpnIs(v: nat, x: nat, y: nat)
    requires y < ENTRIES
    ensures Vpn(x, y) == v <==> x == Pdx(v) && y == Ptx(v)
    ensures v < PAGES ==> InPage(Pdx(v)) && InPage(Ptx(v))
    ensures v < USER_PAGES <==> Pdx(v) < USER_TABLES
  {
  }

  /** What address space `d` has at page `v`. */
  function At(p: Phys, d: nat, v: nat): (w: nat) {
    Lookup(p.mem, d, Pdx(v), Ptx(v))
  }

  /** `use'` differs from `use` only in new tables of `d` on frames that were free. */
  ghost predicate TablesAdded(use: Uses, use': Uses, d: nat) {
    && use'.Keys == use.Keys
    && forall g :: g in use && use'[g] != use[g] ==> use[g] == Free && use'[g].Table? && use'[g].d == d
  }

  lemma SameViewSelf(p: Phys, use: Uses)
    ensures SameView(p, p, use)
  {
  }

  /** The frames that `kalloc` deals in. */
  predicate InRam(first: nat, f: nat) {
    first <= f < TOP
  }

  lemma AllHeld(p: Phys, first: nat, use: Uses)
    requires 1 <= first <= TOP == |p.mem| && p.free == [] && forall f :: 0 <= f < TOP ==> p.mem[f] == ZeroPage()
    requires forall f :: f in use <==> first <= f < TOP
    requires forall f :: f in use ==> use[f] == Held
    ensures Sound(p, first, use)
  {
  }

  /** A page that is given up is nobody's concern any more. */
  lemma ViewShrinks(p0: Phys, p1: Phys, use: Uses, use': Uses, f: nat)
    requires SameView(p0, p1, use) && f in use && !use[f].Dir? && use' == use[f := Free]
    ensures SameView(p0, p1, use')
  {
    hide Lookup;
    assert forall c :: IsDir(use', c) ==> IsDir(use, c);
  }

  lemma DirEntry(p: Phys, first: nat, use: Uses, d: nat, x: nat)
    requires Sound(p, first, use) && IsDir(use, d) && InPage(x)
    ensures d < |p.mem| && x < |p.mem[d].words| && p.mem[d].words[x] == Pde(p.mem, d, x)
    ensures Present(Pde(p.mem, d, x)) ==> 0 < FrameOf(Pde(p.mem, d, x)) < |p.mem|
  {
  }

  lemma SamePde(p0: Phys, p: Phys, use0: Uses, first: nat, use: Uses, d: nat, x: nat, t: nat)
    requires SameView(p0, p, use0) && t in use0 && use0[t] == Free && use == use0[t := Held] && Sound(p, first, use)
    requires IsDir(use0, d) && InPage(x) && !Present(Pde(p0.mem, d, x))
    requires t < |p0.mem| && p.mem == p0.mem[t := p.mem[t]]
    ensures IsDir(use, d) && !Present(Pde(p.mem, d, x))
  {
  }

  lemma ViewTwice(p0: Phys, p1: Phys, p2: Phys, use0: Uses, use: Uses, t: nat)
    requires SameView(p0, p1, use0) && SameView(p1, p2, use)
    requires t in use0 && use0[t] == Free && t in use && use == use0[t := use[t]]
    ensures SameView(p0, p2, use0)
  {
    hide Lookup;
    assert forall c :: IsDir(use0, c) ==> IsDir(use, c);
  }

  lemma NoTable(p: Phys, d: nat, x: nat, y: nat)
    requires !Present(Pde(p.mem, d, x))
    ensures !Present(Lookup(p.mem, d, x, y))
  {
  }

  lemma ViewAt(p0: Phys, p: Phys, first: nat, use0: Uses, use: Uses, d: nat, x: nat, y: nat, t: nat)
    requires Sound(p, first, use) && SameView(p0, p, use0) && IsDir(use0, d) && IsDir(use, d) && InPage(x) && InPage(y)
    requires Present(Pde(p.mem, d, x)) && t == FrameOf(Pde(p.mem, d, x)) && t < |p.mem|
    ensures y < |p.mem[t].words| && p.mem[t].words[y] == Lookup(p0.mem, d, x, y) == Lookup(p.mem, d, x, y)
  {
  }

  function WithUser(use: Uses, f: nat, d: nat, v: nat): (r: Uses) {
    if v < USER_PAGES then use[f := User(d, Pdx(v), Ptx(v))] else use
  }

  lemma MapKeeps(p0: Phys, p: Phys, first: nat, use0: Uses, use: Uses, f: nat, d: nat, v: nat, w: nat, t: nat)
    requires Sound(p, first, use) && SameView(p0, p, use0) && TablesAdded(use0, use, d) && IsDir(use0, d) && v < PAGES
    requires Present(Pde(p.mem, d, Pdx(v))) && t == FrameOf(Pde(p.mem, d, Pdx(v))) && t < |p.mem|
    requires v < USER_PAGES ==> f in use0 && use0[f] == Held && !Present(At(p, d, v))
    requires Present(w) && FrameOf(w) == f
    ensures Ptx(v) < |p.mem[t].words|
    ensures Sound(SetWord(p, t, Ptx(v), w), first, WithUser(use, f, d, v))
    ensures OneEntry(p0, SetWord(p, t, Ptx(v), w), use0, d, Pdx(v), Ptx(v), w)
    ensures SameData(p0, SetWord(p, t, Ptx(v), w), use0)
    ensures TablesAdded(WithUser(use0, f, d, v), WithUser(use, f, d, v), d)
  {
    VpnIs(v, Pdx(v), Ptx(v));
    assert IsDir(use, d) && (v < USER_PAGES ==> use[f] == Held);
    hide Sound, FrameOf, Present, Pdx, Ptx, Lookup, Pde, SetWord, OneEntry, SameView, SameData, TablesAdded;
    UserAdded(use0, use, f, d, v);
    if v < USER_PAGES {
      UserKeeps(p, first, use, f, d, Pdx(v), Ptx(v), w);
    } else {
      KernelKeeps(p, first, use, d, Pdx(v), Ptx(v), w);
    }
    ViewThenEntry(p0, p, SetWord(p, t, Ptx(v), w), use0, use, d, Pdx(v), Ptx(v), w);
  }

  lemma UserAdded(use0: Uses, use: Uses, f: nat, d: nat, v: nat)
    requires TablesAdded(use0, use, d) && (v < USER_PAGES ==> f in use0 && use0[f] == Held)
    ensures TablesAdded(WithUser(use0, f, d, v), WithUser(use, f, d, v), d)
  {
  }

  lemma ViewThenEntry(p0: Phys, p: Phys, p': Phys, use0: Uses, use: Uses, d: nat, x: nat, y: nat, w: nat)
    requires SameView(p0, p, use0) && TablesAdded(use0, use, d)
    requires OneEntry(p, p', use, d, x, y, w) && SameData(p, p', use)
    ensures OneEntry(p0, p', use0, d, x, y, w) && SameData(p0, p', use0)
  {
    hide Lookup;
    assert forall c :: IsDir(use0, c) ==> IsDir(use, c);
    assert forall g :: g in use0 && Data(use0[g]) ==> g in use && Data(use[g]);
  }

  /** Freeing a mapped frame and clearing its entry, in the order of the source. */
  lemma UnmapKeeps(p: Phys, first: nat, use: Uses, d: nat, x: nat, y: nat)
    requires Sound(p, first, use) && IsDir(use, d) && x < USER_TABLES && InPage(y) && Present(Lookup(p.mem, d, x, y))
    ensures Present(Pde(p.mem, d, x))
    ensures var f, t := FrameOf(Lookup(p.mem, d, x, y)), FrameOf(Pde(p.mem, d, x));
            && first <= f < |p.mem| && f in use && use[f] == User(d, x, y) && t < |p.mem| && t != f
            && y < |p.mem[t].words|
            && var p' := SetWord(SetPage(p, f, Junk()).(free := [f] + p.free), t, y, 0);
               Sound(p', first, use[f := Free]) && OneEntry(p, p', use, d, x, y, 0) && SameData(p, p', use[f := Free])
  {
    hide Lookup, FrameOf, SetWord, SetPage, Sound, OneEntry, SameData, Pde, Present, SameView;
    HasTable(p, d, x, y);
    var f, t := FrameOf(Lookup(p.mem, d, x, y)), FrameOf(Pde(p.mem, d, x));
    EntryShows(p, first, use, d, x, y, 0);
    ClearKeeps(p, first, use, f, d, x, y);
    var p1 := SetWord(p, t, y, 0);
    GiveKeeps(p1, first, use[f := Held], f);
    InBounds(p, first, use, f);
    assert use[f := Held][f := Free] == use[f := Free];
    Commutes(p, f, t, y);
    EntryThenGive(p, p1, SetPage(p1, f, Junk()).(free := [f] + p1.free), use, f, d, x, y);
  }

  lemma HasTable(p: Phys, d: nat, x: nat, y: nat)
    requires Present(Lookup(p.mem, d, x, y))
    ensures Present(Pde(p.mem, d, x))
  {
  }

  lemma InBounds(p: Phys, first: nat, use: Uses, f: nat)
    requires Sound(p, first, use) && f in use
    ensures first <= f < |p.mem|
  {
  }

  lemma Commutes(p: Phys, f: nat, t: nat, y: nat)
    requires f < |p.mem| && t < |p.mem| && f != t && y < |p.mem[t].words|
    ensures y < |SetPage(p, f, Junk()).mem[t].words|
    ensures |SetWord(p, t, y, 0).mem| == |p.mem| == |SetPage(p, f, Junk()).mem|
    ensures SetWord(SetPage(p, f, Junk()).(free := [f] + p.free), t, y, 0) ==
              SetPage(SetWord(p, t, y, 0), f, Junk()).(free := [f] + SetWord(p, t, y, 0).free)
  {
  }

  lemma EntryThenGive(p: Phys, p1: Phys, p2: Phys, use: Uses, f: nat, d: nat, x: nat, y: nat)
    requires f in use && use[f].User? && OneEntry(p, p1, use, d, x, y, 0) && SameData(p, p1, use)
    requires |p2.mem| == |p1.mem|
    requires SameView(p1, p2, use[f := Held] - {f})
    ensures OneEntry(p, p2, use, d, x, y, 0) && SameData(p, p2, use[f := Free])
  {
    hide Lookup;
    assert forall c :: IsDir(use, c) ==> IsDir(use[f := Held] - {f}, c);
  }

  /** Page `v` lies in the range that is taken away. */
  predicate InRange(v: int, lo: int, hi: int) {
    lo <= v < hi
  }

  /** `use` without the user pages of `d` from `lo` up to `hi`. */
  function Dropped(use: Uses, d: nat, lo: nat, hi: nat): (r: Uses)
    ensures r.Keys == use.Keys
  {
    map f | f in use ::
      if use[f].User? && use[f].d == d && InRange(Vpn(use[f].x, use[f].y), lo, hi) then Free else use[f]
  }

  /** Exactly the pages of `d` from `lo` up to `hi` are gone and their frames free. */
  ghost predicate DropState(p0: Phys, p: Phys, use0: Uses, use: Uses, d: nat, lo: nat, hi: nat) {
    && |p.mem| == |p0.mem| && use == Dropped(use0, d, lo, hi) && SameData(p0, p, use)
    && forall c, x, y :: IsDir(use0, c) && InPage(x) && InPage(y) ==>
         Lookup(p.mem, c, x, y) ==
           if c == d && InRange(Vpn(x, y), lo, hi) && Present(Lookup(p0.mem, c, x, y)) then 0
           else Lookup(p0.mem, c, x, y)
  }

  lemma DropNothing(p: Phys, use: Uses, d: nat, newsz: nat, oldsz: nat)
    ensures DropState(p, p, use, use, d, PageUp(newsz), PageUp(newsz))
    ensures newsz >= oldsz ==> DropState(p, p, use, use, d, PageUp(newsz), PageUp(oldsz))
    ensures newsz < oldsz ==> PageUp(newsz) <= PageUp(oldsz)
    ensures oldsz <= KERNBASE ==> PageUp(oldsz) <= USER_PAGES
  {
    hide Lookup;
    assert Dropped(use, d, PageUp(newsz), PageUp(newsz)) == use;
    assert newsz >= oldsz ==> PageUp(newsz) >= PageUp(oldsz) && Dropped(use, d, PageUp(newsz), PageUp(oldsz)) == use;
  }

  lemma DropKeepsDir(p0: Phys, p: Phys, use0: Uses, use: Uses, d: nat, lo: nat, hi: nat)
    requires DropState(p0, p, use0, use, d, lo, hi) && IsDir(use0, d)
    ensures IsDir(use, d)
  {
  }

  /** A page that is not there needs nothing done. */
  lemma DropAbsent(p0: Phys, p: Phys, first: nat, use0: Uses, use: Uses, d: nat, lo: nat, v: nat)
    requires DropState(p0, p, use0, use, d, lo, v) && Sound(p, first, use) && IsDir(use0, d) && lo <= v < USER_PAGES
    requires !Present(At(p, d, v))
    ensures DropState(p0, p, use0, use, d, lo, v + 1)
  {
    forall x, y | InPage(x) && InPage(y) && InRange(Vpn(x, y), v, v + 1) ensures !Present(Lookup(p.mem, d, x, y)) {
      VpnIs(v, x, y);
    }
    hide *;
    DropRange(p0, p, first, use0, use, d, lo, v, v + 1);
  }

  /** Nor does a stretch of pages none of which is there. */
  lemma DropRange(p0: Phys, p: Phys, first: nat, use0: Uses, use: Uses, d: nat, lo: nat, v: nat, hi: nat)
    requires DropState(p0, p, use0, use, d, lo, v) && Sound(p, first, use) && IsDir(use0, d)
    requires lo <= v <= hi <= USER_PAGES
    requires forall x, y :: InPage(x) && InPage(y) && InRange(Vpn(x, y), v, hi) ==> !Present(Lookup(p.mem, d, x, y))
    ensures DropState(p0, p, use0, use, d, lo, hi)
  {
    hide Lookup, Present, Vpn;
    forall f | f in use ensures use[f] == Dropped(use0, d, lo, hi)[f] {
      if use[f].User? && use[f].d == d {
        assert InPage(use[f].x) && InPage(use[f].y);
      }
    }
  }

  /** A missing table means that none of its pages is there, so the search may go on behind it. */
  lemma DropSkip(p0: Phys, p: Phys, first: nat, use0: Uses, use: Uses, d: nat, lo: nat, v: nat, hi: nat)
    requires DropState(p0, p, use0, use, d, lo, v) && Sound(p, first, use) && IsDir(use0, d)
    requires lo <= v < hi <= USER_PAGES
    requires !Present(Pde(p.mem, d, Pdx(v)))
    ensures v < (Pdx(v) + 1) * ENTRIES
    ensures DropState(p0, p, use0, use, d, lo, if (Pdx(v) + 1) * ENTRIES < hi then (Pdx(v) + 1) * ENTRIES else hi)
  {
    var e := if (Pdx(v) + 1) * ENTRIES < hi then (Pdx(v) + 1) * ENTRIES else hi;
    forall x, y | InPage(x) && InPage(y) && InRange(Vpn(x, y), v, e) ensures !Present(Lookup(p.mem, d, x, y)) {
      VpnIs(Vpn(x, y), x, y);
      assert x == Pdx(v);
    }
    DropRange(p0, p, first, use0, use, d, lo, v, e);
  }

  lemma DropMore(p0: Phys, p1: Phys, p2: Phys, first: nat, use0: Uses, use1: Uses, use2: Uses, d: nat, lo: nat, v: nat)
    requires DropState(p0, p1, use0, use1, d, lo, v) && IsDir(use0, d) && lo <= v < USER_PAGES
    requires Present(At(p1, d, v)) && OneEntry(p1, p2, use1, d, Pdx(v), Ptx(v), 0) && SameData(p1, p2, use2)
    requires var f := FrameOf(At(p1, d, v)); f in use1 && use1[f] == User(d, Pdx(v), Ptx(v)) && use2 == use1[f := Free]
    requires Sound(p1, first, use1)
    ensures DropState(p0, p2, use0, use2, d, lo, v + 1)
  {
    DroppedMore(p1, first, use0, use1, d, lo, v, FrameOf(At(p1, d, v)));
    hide Lookup, Present, FrameOf, Vpn, Pdx, Ptx, Sound, Dropped;
    forall x: nat, y: nat | InPage(y) ensures Vpn(x, y) == v <==> x == Pdx(v) && y == Ptx(v) { VpnIs(v, x, y); }
  }

  lemma DroppedMore(p: Phys, first: nat, use0: Uses, use: Uses, d: nat, lo: nat, v: nat, f: nat)
    requires Sound(p, first, use) && use == Dropped(use0, d, lo, v) && lo <= v
    requires f in use && use[f] == User(d, Pdx(v), Ptx(v))
    ensures use[f := Free] == Dropped(use0, d, lo, v + 1)
    ensures forall c :: IsDir(use, c) <==> IsDir(use0, c)
  {
    hide FreeOk, TablesAreNamed, NamedAreTables, NamedAreUsers, Present;
    forall g | g in use && use[g].User? && use[g].d == d && Vpn(use[g].x, use[g].y) == v ensures g == f {
      VpnIs(v, use[g].x, use[g].y);
    }
    VpnIs(v, Pdx(v), Ptx(v));
  }

  /** The word the walk found is the page's entry. */
  lemma WalkedTo(p: Phys, first: nat, use: Uses, d: nat, v: nat, t: nat)
    requires Sound(p, first, use) && IsDir(use, d) && v < PAGES
    requires Present(Pde(p.mem, d, Pdx(v))) && t == FrameOf(Pde(p.mem, d, Pdx(v))) && t < |p.mem|
    ensures Ptx(v) < |p.mem[t].words| && p.mem[t].words[Ptx(v)] == At(p, d, v)
  {
  }

  /** With the whole user half taken away, no user page is left. */
  lemma DroppedAll(p0: Phys, p: Phys, use0: Uses, use: Uses, d: nat)
    requires DropState(p0, p, use0, use, d, PageUp(0), PageUp(KERNBASE)) && IsDir(use0, d)
    ensures IsDir(use, d)
    ensures forall x, y :: InPage(x) && x < USER_TABLES && InPage(y) ==> !Present(Lookup(p.mem, d, x, y))
  {
    assert PageUp(0) == 0 && PageUp(KERNBASE) == USER_PAGES && !Present(0);
    forall x, y | InPage(x) && x < USER_TABLES && InPage(y) ensures !Present(Lookup(p.mem, d, x, y)) {
      assert InRange(Vpn(x, y), 0, USER_PAGES);
    }
  }

  lemma ReleasedAfterDrop(p0: Phys, p1: Phys, p2: Phys, first: nat, use0: Uses, use1: Uses, d: nat)
    requires Sound(p0, first, use0) && DropState(p0, p1, use0, use1, d, PageUp(0), PageUp(KERNBASE)) && IsDir(use0, d)
    requires SameView(p1, p2, Released(use1, d))
    ensures Released(use1, d) == Released(use0, d) && SameView(p0, p2, Released(use0, d))
  {
    ReleasedSame(p0, first, use0, d);
    hide Sound, Lookup, Vpn, PageUp, Present, Released;
    ReleasedKeeps(use0, use1, d, PageUp(0), PageUp(KERNBASE));
  }

  lemma ReleasedSame(p0: Phys, first: nat, use0: Uses, d: nat)
    requires Sound(p0, first, use0)
    ensures Released(Dropped(use0, d, PageUp(0), PageUp(KERNBASE)), d) == Released(use0, d)
  {
    assert PageUp(0) == 0 && PageUp(KERNBASE) == USER_PAGES;
    hide Sound;
  }

  lemma ReleasedKeeps(use0: Uses, use1: Uses, d: nat, lo: nat, hi: nat)
    requires use1 == Dropped(use0, d, lo, hi)
    ensures forall c :: IsDir(Released(use0, d), c) ==> IsDir(use0, c) && c != d
    ensures forall g :: g in Released(use0, d) && Data(Released(use0, d)[g]) ==>
              g in use1 && use1[g] == use0[g] && Data(use1[g])
  {
  }

  lemma TornNothing(p: Phys, first: nat, use: Uses, d: nat)
    requires Sound(p, first, use)
    ensures Torn(p, p, use, d, 0) && |p.mem| == TOP
  {
  }
}
