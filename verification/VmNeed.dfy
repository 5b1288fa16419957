/**
 vm.c: how many frames an operation takes. Mapping a page takes a page table besides, if the directory
 has none for it yet; pages are mapped in order, so a range takes one table for every entry of the
 directory that it covers and that is empty.
 */
module VmNeed {
  import opened PageTables
  import opened VmSpace
  import opened VmCopy

  /** Entry `x` of directory `d` has a table. */
  predicate Tabled(p: Phys, d: nat, x: nat) {
    Present(Pde(p.mem, d, x))
  }

  /** How many of the entries `a` up to `b` have none. */
  function Missing(p: Phys, d: nat, a: nat, b: nat): (n: nat) {
    if a >= b then 0 else Missing(p, d, a, b - 1) + if Tabled(p, d, b - 1) then 0 else 1
  }

  /** The directory entry behind those that pages `lo` up to `hi` need. */
  function TableEnd(lo: nat, hi: nat): (x: nat)
    ensures x >= Pdx(lo)
  {
    if hi <= lo then Pdx(lo) else Pdx(hi - 1) + 1
  }

  /** The tables that pages `lo` up to `hi` of `d` lack. */
  function TablesFor(p: Phys, d: nat, lo: nat, hi: nat): (n: nat) {
    Missing(p, d, Pdx(lo), TableEnd(lo, hi))
  }

  ghost predicate SameTables(p: Phys, p': Phys, d: nat) {
    forall x :: InPage(x) ==> (Tabled(p', d, x) <==> Tabled(p, d, x))
  }

  /** The tables for pages `lo` up to `hi` of `d` have been made; they and `frames` others came off the free list. */
  ghost predicate Took(p: Phys, p': Phys, d: nat, lo: nat, hi: nat, frames: nat) {
    && (forall x :: InPage(x) ==> (Tabled(p', d, x) <==> Tabled(p, d, x) || Pdx(lo) <= x < TableEnd(lo, hi)))
    && |p'.free| + frames + TablesFor(p, d, lo, hi) == |p.free|
  }

  lemma TookFits(p: Phys, p': Phys, d: nat, lo: nat, hi: nat, frames: nat)
    requires Took(p, p', d, lo, hi, frames)
    ensures frames + TablesFor(p, d, lo, hi) + |p'.free| == |p.free|
  {
  }

  lemma TookNothing(p: Phys, d: nat, lo: nat)
    ensures Took(p, p, d, lo, lo, 0)
  {
  }

  /** The next page lies in the last table or begins a new one. */
  lemma TableNext(lo: nat, v: nat)
    requires lo <= v
    ensures TableEnd(lo, v + 1) == Pdx(v) + 1 && (v < PAGES ==> InPage(Pdx(v)))
    ensures Pdx(v) == TableEnd(lo, v) || (Pdx(v) == TableEnd(lo, v) - 1 && Pdx(lo) < TableEnd(lo, v))
  {
  }

  lemma TookMore(p0: Phys, p1: Phys, p2: Phys, p3: Phys, d: nat, lo: nat, v: nat, frames: nat, n: nat)
    requires Took(p0, p1, d, lo, v, frames) && lo <= v < PAGES
    requires SameTables(p1, p2, d) && |p2.free| + n == |p1.free| && Took(p2, p3, d, v, v + 1, 0)
    ensures Took(p0, p3, d, lo, v + 1, frames + n)
    ensures TablesFor(p0, d, lo, v + 1) == TablesFor(p0, d, lo, v) + if Tabled(p1, d, Pdx(v)) then 0 else 1
  {
    TableNext(lo, v);
    TableNext(v, v);
    hide Tabled, Pdx, TableEnd;
    assert Missing(p2, d, Pdx(v), Pdx(v)) == 0;
  }

  lemma NextNeeds(p0: Phys, p1: Phys, d: nat, lo: nat, v: nat, frames: nat)
    requires Took(p0, p1, d, lo, v, frames) && lo <= v < PAGES
    ensures TablesFor(p0, d, lo, v + 1) == TablesFor(p0, d, lo, v) + if Tabled(p1, d, Pdx(v)) then 0 else 1
  {
    TableNext(lo, v);
    hide Tabled, Pdx, TableEnd;
  }

  lemma {:induction false} MissingGrows(p: Phys, d: nat, a: nat, b: nat, c: nat)
    requires b <= c
    ensures Missing(p, d, a, b) <= Missing(p, d, a, c)
    decreases c
  {
    hide Tabled;
    if b < c { MissingGrows(p, d, a, b, c - 1); }
  }

  lemma TablesGrow(p: Phys, d: nat, lo: nat, v: nat, hi: nat)
    requires lo <= v <= hi
    ensures TablesFor(p, d, lo, v) <= TablesFor(p, d, lo, hi)
  {
    MissingGrows(p, d, Pdx(lo), TableEnd(lo, v), TableEnd(lo, hi));
  }

  /** Where tables are there up to entry `e` and not from there on, the rest are missing. */
  lemma {:induction false} MissingRest(p: Phys, d: nat, a: nat, e: nat, b: nat)
    requires a <= e <= b && forall x :: a <= x < b ==> (Tabled(p, d, x) <==> x < e)
    ensures Missing(p, d, a, b) == b - e
    decreases b
  {
    hide Tabled;
    if e < b {
      MissingRest(p, d, a, e, b - 1);
    } else if a < b {
      MissingRest(p, d, a, e - 1, b - 1);
    }
  }

  /** No frame is left and the next page needs a table: the whole range needs more than there was. */
  lemma OutOfTables(p0: Phys, p1: Phys, d: nat, lo: nat, v: nat, hi: nat, frames: nat)
    requires Took(p0, p1, d, lo, v, frames) && lo <= v < hi && v < PAGES
    requires !Tabled(p1, d, Pdx(v)) && |p1.free| == 0
    ensures frames + TablesFor(p0, d, lo, hi) > |p0.free|
  {
    NextNeeds(p0, p1, d, lo, v, frames);
    TablesGrow(p0, d, lo, v + 1, hi);
    hide TablesFor;
  }

  /** The same if there is no frame for the page itself. */
  lemma OutOfFrames(p0: Phys, p1: Phys, d: nat, lo: nat, v: nat, hi: nat, frames: nat)
    requires Took(p0, p1, d, lo, v, frames) && lo <= v <= hi && |p1.free| == 0
    ensures frames + TablesFor(p0, d, lo, hi) >= |p0.free|
  {
    TablesGrow(p0, d, lo, v, hi);
  }

  /** Or if the last frame went to the page and none is left for its table. */
  lemma OneFrameLeft(p0: Phys, p1: Phys, p2: Phys, d: nat, lo: nat, v: nat, hi: nat, frames: nat)
    requires Took(p0, p1, d, lo, v, frames) && lo <= v < hi && v < PAGES
    requires SameTables(p1, p2, d) && |p2.free| + 1 == |p1.free| && !Tabled(p2, d, Pdx(v)) && |p2.free| == 0
    ensures frames + 1 + TablesFor(p0, d, lo, hi) > |p0.free|
  {
    TableNext(lo, v);
    NextNeeds(p0, p1, d, lo, v, frames);
    TablesGrow(p0, d, lo, v + 1, hi);
    hide TablesFor, Tabled, Pdx;
  }

  // ----- the first page that is there, or is not -----

  /** The first page from `lo` on of which `there` tells the truth; `hi` if there is none below. */
  function FirstPage(p: Phys, d: nat, lo: nat, hi: nat, there: bool): (v: nat)
    ensures lo <= v && (lo <= hi ==> v <= hi) && (v < hi ==> Present(At(p, d, v)) == there)
    ensures forall u :: lo <= u < v ==> Present(At(p, d, u)) != there
    decreases hi - lo
  {
    if lo >= hi || Present(At(p, d, lo)) == there then lo else FirstPage(p, d, lo + 1, hi, there)
  }

  // ----- the kernel's tables -----

  /** Directory entries that memory and the devices are mapped by, in every address space. */
  predicate KernelTable(x: nat) {
    USER_TABLES <= x < USER_TABLES + TOP / ENTRIES || Pdx(DEVSPACE_PAGE) <= x < ENTRIES
  }

  /** A directory, 56 tables for memory and 8 for the devices. */
  const KERNEL_FRAMES := 1 + TOP / ENTRIES + (ENTRIES - DEVSPACE_PAGE / ENTRIES)

  /** How many tables the first `k` regions of the kernel's map need. */
  function KernelTables(data: nat, k: nat): (n: nat) {
    if k <= 3 then TableEnd(USER_PAGES, KmapEnd(data, k)) - USER_TABLES else KERNEL_FRAMES - 1
  }

  /** The tables of `d` are those of the first `k` regions. */
  ghost predicate KernelTabled(p: Phys, d: nat, data: nat, k: nat) {
    forall x :: InPage(x) ==>
      (Tabled(p, d, x) <==>
         USER_TABLES <= x < TableEnd(USER_PAGES, KmapEnd(data, if k <= 3 then k else 3)) ||
         (k == 4 && Pdx(DEVSPACE_PAGE) <= x))
  }

  lemma KernelTabledNothing(p: Phys, d: nat, data: nat)
    requires d < |p.mem| && p.mem[d] == ZeroPage()
    ensures KernelTabled(p, d, data, 0) && KernelTables(data, 0) == 0
  {
  }

  /** Region `k` lacks exactly the tables that the regions before it do not bring. */
  lemma RegionTables(p: Phys, d: nat, data: nat, k: nat)
    requires Linked(data) && k < 4 && KernelTabled(p, d, data, k)
    ensures var r := Kmap(data)[k];
            KernelTables(data, k) + TablesFor(p, d, r.v, r.v + r.n) == KernelTables(data, k + 1) <= KERNEL_FRAMES - 1
  {
    var r := Kmap(data)[k];
    var a, b := Pdx(r.v), TableEnd(r.v, r.v + r.n);
    assert KmapEnd(data, 3) == USER_PAGES + TOP;
    hide Tabled;
    if k < 3 {
      MissingRest(p, d, a, TableEnd(USER_PAGES, KmapEnd(data, k)), b);
    } else {
      MissingRest(p, d, a, a, b);
    }
  }

  lemma KernelTabledMore(p: Phys, p': Phys, d: nat, data: nat, k: nat)
    requires Linked(data) && k < 4 && KernelTabled(p, d, data, k)
    requires var r := Kmap(data)[k]; Took(p, p', d, r.v, r.v + r.n, 0)
    ensures KernelTabled(p', d, data, k + 1)
  {
    hide Tabled, TablesFor;
  }

  /** Below KERNBASE a new address space has no tables, so a range from 0 on lacks them all. */
  lemma UserTables(p: Phys, c: nat, v: nat)
    requires v <= USER_PAGES && forall x :: InPage(x) ==> (Tabled(p, c, x) <==> KernelTable(x))
    ensures TablesFor(p, c, 0, v) == TableEnd(0, v)
  {
    hide Tabled;
    MissingRest(p, c, 0, 0, TableEnd(0, v));
  }

  lemma AllTables(data: nat)
    ensures KernelTables(data, 4) == KERNEL_FRAMES - 1
  {
  }

  lemma AllKernelTables(p: Phys, d: nat, data: nat)
    requires Linked(data) && KernelTabled(p, d, data, 4)
    ensures forall x :: InPage(x) ==> (Tabled(p, d, x) <==> KernelTable(x))
  {
    hide Tabled;
  }

  // ----- steps -----

  lemma NoTableAt(p: Phys, d: nat, v: nat)
    requires !Present(Pde(p.mem, d, Pdx(v)))
    ensures !Present(At(p, d, v))
  {
    NoTable(p, d, Pdx(v), Ptx(v));
  }

  /** Writing a frame that is not the directory leaves its tables. */
  lemma OtherFrame(p: Phys, p': Phys, d: nat, f: nat, page: Page)
    requires f < |p.mem| && f != d && p'.mem == p.mem[f := page]
    ensures SameTables(p, p', d)
  {
  }

  lemma NewTable(p: Phys, first: nat, use: Uses, d: nat, x: nat, w: nat)
    requires Sound(p, first, use) && IsDir(use, d) && InPage(x) && Present(w) && !Tabled(p, d, x)
    ensures d < |p.mem| && x < |p.mem[d].words|
    ensures forall z :: InPage(z) ==> (Tabled(SetWord(p, d, x, w), d, z) <==> Tabled(p, d, z) || z == x)
    ensures Pde(SetWord(p, d, x, w).mem, d, x) == w
  {
  }

  lemma TableFlags(t: nat)
    ensures FlagsOf(Entry(t, PTE_P + PTE_W + PTE_U)) == PTE_P + PTE_W + PTE_U
  {
    assert Present(PTE_P + PTE_W + PTE_U);
  }

  /** The table of an entry is not the directory. */
  lemma TableIsOther(p: Phys, first: nat, use: Uses, d: nat, x: nat)
    requires Sound(p, first, use) && IsDir(use, d) && InPage(x) && Tabled(p, d, x)
    ensures FrameOf(Pde(p.mem, d, x)) != d
  {
  }

  lemma TookHad(p: Phys, d: nat, v: nat)
    requires Tabled(p, d, Pdx(v))
    ensures Took(p, p, d, v, v + 1, 0)
  {
    assert Missing(p, d, Pdx(v), Pdx(v)) == 0;
  }

  /** A frame has been taken for the table of page `v`. */
  lemma TookNew(p0: Phys, p1: Phys, p2: Phys, d: nat, v: nat)
    requires SameTables(p0, p1, d) && !Tabled(p0, d, Pdx(v)) && v < PAGES
    requires forall z :: InPage(z) ==> (Tabled(p2, d, z) <==> Tabled(p1, d, z) || z == Pdx(v))
    requires |p2.free| + 1 == |p0.free|
    ensures Took(p0, p2, d, v, v + 1, 0)
  {
    TableNext(v, v);
    hide Tabled;
    assert Missing(p0, d, Pdx(v), Pdx(v)) == 0;
  }

  lemma TookThenSame(p0: Phys, p1: Phys, p2: Phys, d: nat, lo: nat, hi: nat, frames: nat)
    requires Took(p0, p1, d, lo, hi, frames) && SameTables(p1, p2, d) && p2.free == p1.free
    ensures Took(p0, p2, d, lo, hi, frames)
  {
    hide Tabled, TablesFor, TableEnd;
  }

  /** Writing an entry of that table takes nothing. */
  lemma TookEntry(p0: Phys, p1: Phys, first: nat, use: Uses, d: nat, v: nat, t: nat, y: nat, w: nat)
    requires Sound(p1, first, use) && IsDir(use, d) && v < PAGES && Took(p0, p1, d, v, v + 1, 0)
    requires Tabled(p1, d, Pdx(v)) && t == FrameOf(Pde(p1.mem, d, Pdx(v))) && t < |p1.mem| && y < |p1.mem[t].words|
    ensures Took(p0, SetWord(p1, t, y, w), d, v, v + 1, 0)
  {
    TableNext(v, v);
    TableIsOther(p1, first, use, d, Pdx(v));
    hide Sound, Took, Tabled, Pdx;
    OtherFrame(p1, SetWord(p1, t, y, w), d, t, Page(p1.mem[t].words[y := w]));
    TookThenSame(p0, p1, SetWord(p1, t, y, w), d, v, v + 1, 0);
  }
}
