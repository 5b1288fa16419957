/** vm.c: what the kernel half of an address space holds, and what a copied address space holds. */
module VmCopy {
  import opened PageTables
  import opened VmSpace

  const KERNLINK_PAGE := USER_PAGES + 0x100    // page of KERNBASE + EXTMEM
  const DEVSPACE_PAGE := 0xFE000

  /** A stretch of the kernel half: pages from `v`, frames from `f`. */
  datatype Region = Region(v: nat, f: nat, n: nat, perm: nat)

  /** The page where the kernel's data begins lies between its text and the end of memory. */
  predicate Linked(data: nat) {
    KERNLINK_PAGE < data < USER_PAGES + TOP
  }

  /** The kernel's mappings, present in every address space. */
  function Kmap(data: nat): (k: seq<Region>)
    requires Linked(data)
  {
    [Region(USER_PAGES, 0, 0x100, PTE_W),
     Region(KERNLINK_PAGE, 0x100, data - KERNLINK_PAGE, 0),
     Region(data, data - USER_PAGES, USER_PAGES + TOP - data, PTE_W),
     Region(DEVSPACE_PAGE, DEVSPACE_PAGE, PAGES - DEVSPACE_PAGE, PTE_W)]
  }

  /**
   What page `v` holds outside the user pages: physical memory from address 0 is mapped at
   KERNBASE, read-only where the kernel's text lies, and the devices are mapped to themselves.
   */
  function KernelWord(data: nat, v: nat): (w: nat) {
    if USER_PAGES <= v < USER_PAGES + TOP then Entry(v - USER_PAGES, if KERNLINK_PAGE <= v < data then 0 else PTE_W)
    else if DEVSPACE_PAGE <= v then Entry(v, PTE_W)
    else 0
  }

  /** Where the first `k` regions end. */
  function KmapEnd(data: nat, k: nat): (e: nat) {
    if k == 0 then USER_PAGES else if k == 1 then KERNLINK_PAGE else if k == 2 then data
    else if k == 3 then USER_PAGES + TOP else PAGES
  }

  /** Address space `d` maps what the kernel maps below page `e`, and nothing else. */
  ghost predicate KernelUpto(p: Phys, d: nat, data: nat, e: nat) {
    forall x, y :: InPage(x) && InPage(y) ==>
      Lookup(p.mem, d, x, y) == if Vpn(x, y) < e then KernelWord(data, Vpn(x, y)) else 0
  }

  /** Pages `v` up to `v + n` of `d` map the frames from `f` on; every other page is as it was. */
  ghost predicate Ranged(p0: Phys, p: Phys, use0: Uses, use: Uses, d: nat, v: nat, n: nat, f: nat, perm: nat)
    requires perm < PGSIZE
  {
    && |p.mem| == |p0.mem| && SameData(p0, p, use0) && TablesAdded(use0, use, d)
    && forall c, x, y :: IsDir(use0, c) && InPage(x) && InPage(y) ==>
         Lookup(p.mem, c, x, y) ==
           if c == d && InRange(Vpn(x, y), v, v + n) then Entry(f + (Vpn(x, y) - v), perm) else Lookup(p0.mem, c, x, y)
  }

  lemma RangedNothing(p: Phys, use: Uses, d: nat, v: nat, f: nat, perm: nat)
    requires perm < PGSIZE
    ensures Ranged(p, p, use, use, d, v, 0, f, perm)
  {
    hide Lookup, Entry;
  }

  lemma RangedMore(p0: Phys, p: Phys, p2: Phys, use0: Uses, use: Uses, use2: Uses, d: nat, v: nat, n: nat, f: nat,
                   perm: nat)
    requires perm < PGSIZE && Ranged(p0, p, use0, use, d, v, n, f, perm) && IsDir(use0, d)
    requires OneEntry(p, p2, use, d, Pdx(v + n), Ptx(v + n), Entry(f + n, perm)) && SameData(p, p2, use)
    requires TablesAdded(use, use2, d)
    ensures Ranged(p0, p2, use0, use2, d, v, n + 1, f, perm)
  {
    hide Lookup, Entry, Pdx, Ptx, Vpn;
    forall x: nat, y: nat | InPage(y)
      ensures Vpn(x, y) == v + n <==> x == Pdx(v + n) && y == Ptx(v + n) { VpnIs(v + n, x, y); }
    assert forall c :: IsDir(use0, c) ==> IsDir(use, c);
  }

  lemma RangedAt(p0: Phys, p: Phys, use0: Uses, use: Uses, d: nat, v: nat, n: nat, f: nat, perm: nat)
    requires perm < PGSIZE && Ranged(p0, p, use0, use, d, v, n, f, perm) && IsDir(use0, d) && v + n < PAGES
    ensures IsDir(use, d) && At(p, d, v + n) == At(p0, d, v + n)
  {
    VpnIs(v + n, Pdx(v + n), Ptx(v + n));
  }

  /** Mapping region `k` behind the regions before it. */
  lemma KernelMore(p0: Phys, p: Phys, use0: Uses, use: Uses, d: nat, data: nat, k: nat)
    requires Linked(data) && k < |Kmap(data)| && KernelUpto(p0, d, data, KmapEnd(data, k)) && IsDir(use0, d)
    requires Ranged(p0, p, use0, use, d, Kmap(data)[k].v, Kmap(data)[k].n, Kmap(data)[k].f, Kmap(data)[k].perm)
    ensures KernelUpto(p, d, data, KmapEnd(data, k + 1))
  {
    hide Lookup, Vpn, Entry;
    assert forall x: nat, y: nat :: InPage(x) && InPage(y) ==> Vpn(x, y) < PAGES by { VpnBound(); }
  }

  lemma VpnBound()
    ensures forall x: nat, y: nat :: InPage(x) && InPage(y) ==> Vpn(x, y) < PAGES
  {
  }

  /** `use` is `use0` except that frames that were free have gone into the new address space `c`. */
  ghost predicate UseFor(use0: Uses, use: Uses, c: nat) {
    && use.Keys == use0.Keys && c in use0 && use0[c] == Free && use[c] == Dir
    && forall g :: g in use0 && use[g] != use0[g] ==>
         use0[g] == Free && (g == c || ((use[g].Table? || use[g].User?) && use[g].d == c))
  }

  /** Tearing the new address space down gives back exactly the frames it took. */
  lemma ReleasedBack(p0: Phys, first: nat, use0: Uses, use: Uses, c: nat)
    requires Sound(p0, first, use0) && UseFor(use0, use, c)
    ensures Released(use, c) == use0
  {
    forall g | g in use0 && (use0[g].Table? || use0[g].User?) ensures use0[g].d != c {
      assert IsDir(use0, use0[g].d);
    }
    hide Sound;
  }

  lemma ViewFor(p0: Phys, p1: Phys, p2: Phys, use0: Uses, use1: Uses, c: nat, v: nat, n: nat, f: nat, perm: nat,
                use2: Uses)
    requires SameView(p0, p1, use0) && UseFor(use0, use1, c) && perm < PGSIZE
    requires Ranged(p1, p2, use1, use2, c, v, n, f, perm)
    ensures SameView(p0, p2, use0) && UseFor(use0, use2, c)
  {
    hide Lookup, Entry, Vpn;
    assert forall d :: IsDir(use0, d) ==> IsDir(use1, d) && d != c;
    assert forall g :: g in use0 && Data(use0[g]) ==> use1[g] == use0[g];
  }

  lemma ViewAgain(p0: Phys, p1: Phys, p2: Phys, use: Uses)
    requires SameView(p0, p1, use) && SameView(p1, p2, use)
    ensures SameView(p0, p2, use)
  {
    hide Lookup;
  }

  lemma NewDir(use0: Uses, c: nat)
    requires c in use0 && use0[c] == Free
    ensures UseFor(use0, use0[c := Dir], c) && use0[c := Held][c := Dir] == use0[c := Dir]
  {
  }

  lemma KernelNothing(p: Phys, d: nat, data: nat)
    requires forall x, y :: InPage(x) && InPage(y) ==> Lookup(p.mem, d, x, y) == 0
    ensures KernelUpto(p, d, data, USER_PAGES)
  {
    hide Lookup, Entry;
  }

  /** The same flags on a frame that was free, with the same contents. */
  ghost predicate CopyOf(p0: Phys, p: Phys, use0: Uses, w0: nat, w: nat) {
    && Present(w) && FlagsOf(w) == FlagsOf(w0) && FrameOf(w) in use0 && use0[FrameOf(w)] == Free
    && FrameOf(w) < |p.mem| && FrameOf(w0) < |p0.mem| && p.mem[FrameOf(w)] == p0.mem[FrameOf(w0)]
  }

  /** Pages below `v` of `c` are copies of those of `d`; the rest is the kernel's. Nobody else sees a change. */
  ghost predicate CopyState(p0: Phys, p: Phys, use0: Uses, use: Uses, d: nat, c: nat, data: nat, v: nat) {
    && SameView(p0, p, use0) && UseFor(use0, use, c)
    && forall x, y :: InPage(x) && InPage(y) ==>
         if Vpn(x, y) < v then CopyOf(p0, p, use0, Lookup(p0.mem, d, x, y), Lookup(p.mem, c, x, y))
         else Lookup(p.mem, c, x, y) == KernelWord(data, Vpn(x, y))
  }

  lemma CopyNothing(p0: Phys, p: Phys, use0: Uses, use: Uses, d: nat, c: nat, data: nat)
    requires SameView(p0, p, use0) && UseFor(use0, use, c) && KernelUpto(p, c, data, PAGES)
    ensures CopyState(p0, p, use0, use, d, c, data, 0)
  {
    VpnBound();
    hide Lookup, Entry, Vpn, SameView, UseFor;
  }

  lemma CopyOfKept(p0: Phys, p: Phys, p1: Phys, p2: Phys, first: nat, use0: Uses, use: Uses, f: nat, c: nat, x: nat,
                   y: nat, w0: nat)
    requires Sound(p, first, use) && IsDir(use, c) && InPage(x) && x < USER_TABLES && InPage(y) && f in use
    requires use[f] == Free
    requires CopyOf(p0, p, use0, w0, Lookup(p.mem, c, x, y))
    requires SameData(p, p1, use) && SameData(p1, p2, use[f := Held]) && |p1.mem| == |p.mem| == |p2.mem|
    ensures CopyOf(p0, p2, use0, w0, Lookup(p.mem, c, x, y))
  {
    assert use[FrameOf(Lookup(p.mem, c, x, y))] == User(c, x, y);
  }

  lemma UseForMore(use0: Uses, use: Uses, use2: Uses, f: nat, c: nat, v: nat)
    requires UseFor(use0, use, c) && f in use && use[f] == Free
    requires TablesAdded(use[f := User(c, Pdx(v), Ptx(v))], use2, c)
    ensures UseFor(use0, use2, c) && f in use0 && use0[f] == Free
  {
    assert f in use0;
    assert use2.Keys == use0.Keys;
  }

  lemma CopyMore(p0: Phys, p: Phys, p1: Phys, p2: Phys, first: nat, use0: Uses, use: Uses, use2: Uses,
                 f: nat, d: nat, c: nat, data: nat, v: nat, w: nat)
    requires Sound(p, first, use) && CopyState(p0, p, use0, use, d, c, data, v) && IsDir(use0, d) && v < USER_PAGES
    requires f in use && use[f] == Free && f < |p1.mem| && SameView(p, p1, use)
    requires FrameOf(At(p0, d, v)) < |p0.mem| && p1.mem[f] == p0.mem[FrameOf(At(p0, d, v))]
    requires OneEntry(p1, p2, use[f := Held], c, Pdx(v), Ptx(v), w) && SameData(p1, p2, use[f := Held])
    requires Present(w) && FrameOf(w) == f && FlagsOf(w) == FlagsOf(At(p0, d, v))
    requires TablesAdded(use[f := User(c, Pdx(v), Ptx(v))], use2, c)
    ensures CopyState(p0, p2, use0, use2, d, c, data, v + 1)
  {
    UseForMore(use0, use, use2, f, c, v);
    hide Sound, Lookup, Present, FrameOf, FlagsOf, Vpn, Pdx, Ptx, Entry, UseFor;
    CopyView(p0, p, p1, p2, use0, use, f, c, v, w);
    forall x, y | InPage(x) && InPage(y)
      ensures if Vpn(x, y) < v + 1 then CopyOf(p0, p2, use0, Lookup(p0.mem, d, x, y), Lookup(p2.mem, c, x, y))
              else Lookup(p2.mem, c, x, y) == KernelWord(data, Vpn(x, y))
    {
      VpnIs(v, x, y);
      if Vpn(x, y) < v {
        VpnIs(Vpn(x, y), x, y);
        CopyOfKept(p0, p, p1, p2, first, use0, use, f, c, x, y, Lookup(p0.mem, d, x, y));
      }
    }
  }

  lemma CopyView(p0: Phys, p: Phys, p1: Phys, p2: Phys, use0: Uses, use: Uses, f: nat, c: nat, v: nat, w: nat)
    requires SameView(p0, p, use0) && UseFor(use0, use, c) && SameView(p, p1, use) && f in use && use[f] == Free
    requires OneEntry(p1, p2, use[f := Held], c, Pdx(v), Ptx(v), w) && SameData(p1, p2, use[f := Held])
    ensures SameView(p0, p2, use0) && IsDir(use, c) && IsDir(use[f := Held], c)
  {
    hide Lookup;
    assert forall d :: IsDir(use0, d) ==> IsDir(use, d) && IsDir(use[f := Held], d) && d != c;
    assert forall g :: g in use0 && Data(use0[g]) ==> use[g] == use0[g] && use[f := Held][g] == use0[g];
  }

  lemma KmapRegion(data: nat, k: nat)
    requires Linked(data) && k < 4
    ensures |Kmap(data)| == 4
    ensures var r := Kmap(data)[k];
            && USER_PAGES <= r.v && 0 < r.n && r.v + r.n <= PAGES && r.perm < PGSIZE
            && r.v >= KmapEnd(data, k) && (r.v == KmapEnd(data, k) || k == 3)
  {
  }

  /** The pages of a region are still free when its turn comes. */
  lemma KernelFree(p: Phys, d: nat, data: nat, k: nat, i: nat)
    requires Linked(data) && k < 4 && KernelUpto(p, d, data, KmapEnd(data, k))
    ensures |Kmap(data)| == 4 && (i < Kmap(data)[k].n ==> !Present(At(p, d, Kmap(data)[k].v + i)))
  {
    var v := Kmap(data)[k].v + i;
    if i < Kmap(data)[k].n {
      VpnIs(v, Pdx(v), Ptx(v));
      assert !Present(0);
      hide Lookup, Vpn, Entry;
    }
  }

  lemma IsNew(use0: Uses, use: Uses, d: nat)
    requires UseFor(use0, use, d)
    ensures IsDir(use, d)
  {
  }

  lemma CopyBound(sz: nat)
    requires sz <= KERNBASE
    ensures PageUp(sz) <= USER_PAGES
  {
  }

  lemma CopyDirs(p0: Phys, p: Phys, use0: Uses, use: Uses, d: nat, c: nat, data: nat, v: nat)
    requires CopyState(p0, p, use0, use, d, c, data, v) && IsDir(use0, d) && v < USER_PAGES
    ensures IsDir(use, d) && IsDir(use, c) && At(p, d, v) == At(p0, d, v) && UseFor(use0, use, c)
    ensures SameView(p0, p, use0)
  {
    VpnIs(v, Pdx(v), Ptx(v));
  }

  /** The page about to be copied still has the contents it had at the start. */
  lemma SameSource(p0: Phys, p: Phys, first: nat, use0: Uses, use: Uses, d: nat, v: nat)
    requires Sound(p0, first, use0) && Sound(p, first, use) && SameView(p0, p, use0) && IsDir(use0, d) && v < USER_PAGES
    requires Present(At(p, d, v)) && At(p, d, v) == At(p0, d, v)
    ensures var f := FrameOf(At(p, d, v));
            f < |p.mem| && f < |p0.mem| && p.mem[f] == p0.mem[f] && |p.mem[f].words| == ENTRIES
  {
    VpnIs(v, Pdx(v), Ptx(v));
    assert use0[FrameOf(At(p0, d, v))] == User(d, Pdx(v), Ptx(v));
  }

  lemma FlagBound(w: nat)
    requires Present(w)
    ensures FlagsOf(w) < PGSIZE && Present(FlagsOf(w))
  {
  }

  /** The child's page is not there yet, so mapping it cannot panic. */
  lemma StillEmpty(p0: Phys, p: Phys, p': Phys, use0: Uses, use: Uses, d: nat, c: nat, data: nat, v: nat)
    requires CopyState(p0, p, use0, use, d, c, data, v) && v < USER_PAGES && SameView(p, p', use) && IsDir(use, c)
    ensures !Present(At(p', c, v))
  {
    VpnIs(v, Pdx(v), Ptx(v));
    assert !Present(0);
    hide Lookup, Entry, Vpn;
    assert InPage(Pdx(v)) && InPage(Ptx(v));
  }

  /** Taking a frame and giving it back changes nothing that anyone sees. */
  lemma NeverHeld(p0: Phys, p1: Phys, p2: Phys, p3: Phys, use0: Uses, use1: Uses, use3: Uses, f: nat, c: nat)
    requires SameView(p0, p1, use0) && UseFor(use0, use1, c) && SameView(p1, p2, use1)
    requires f in use1 && use1[f] == Free && use3 == use1[f := Held][f := Free] && SameView(p2, p3, use3)
    ensures use3 == use1 && SameView(p0, p3, use0) && UseFor(use0, use3, c)
  {
    hide Lookup;
    assert use3 == use1;
    assert forall d :: IsDir(use0, d) ==> IsDir(use1, d);
    assert forall g :: g in use0 && Data(use0[g]) ==> use1[g] == use0[g];
  }
}
