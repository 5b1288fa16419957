/**
 The two-level x86 page table (section 4.3 of Intel SDM volume 3A) over physical page frames.
 A page is 1024 words of 32 bits. An entry holds a frame number in its upper 20 bits and flags
 in its lower 12; bit 0 is the present bit. `Use` says what each allocatable frame is for, so
 that a frame has one use at a time.
 */
module PageTables {
  import opened Rings

  const PTE_P := 1
  const PTE_W := 2
  const PTE_U := 4
  const ENTRIES := 1024       // entries per directory and per table
  const USER_TABLES := 512    // directory entries below KERNBASE
  const TOP := 0xE000         // PHYSTOP, in frames

  datatype Page = Page(words: seq<nat>)

  /** `Held`: allocated, but not part of an address space. */
  datatype Use = Free | Held | Dir | Table(d: nat, x: nat) | User(d: nat, x: nat, y: nat)

  datatype Phys = Phys(mem: seq<Page>, free: seq<nat>)

  type Uses = map<nat, Use>

  predicate Present(w: nat) {
    w % 2 == 1
  }

  function FrameOf(w: nat): (f: nat) {
    w / 4096
  }

  function FlagsOf(w: nat): (f: nat) {
    w % 4096
  }

  lemma SplitWord(f: nat, flags: nat)
    requires flags < 4096
    ensures FrameOf(f * 4096 + flags) == f && FlagsOf(f * 4096 + flags) == flags
    ensures Present(f * 4096 + flags) <==> Present(flags)
  {
    var w := f * 4096 + flags;
    assert w == 2 * (f * 2048) + flags;
    ParityOf(f * 2048, flags);
  }

  lemma ParityOf(k: nat, r: nat)
    ensures (2 * k + r) % 2 == r % 2
  {
  }

  function WithPresent(perm: nat): (flags: nat)
    requires perm < 4096
    ensures flags < 4096 && Present(flags)
  {
    if Present(perm) then perm else perm + PTE_P
  }

  /** The entry for frame `f` with flags `perm`, marked present. */
  function Entry(f: nat, perm: nat): (w: nat)
    requires perm < 4096
    ensures Present(w) && FrameOf(w) == f
    ensures FlagsOf(w) == if Present(perm) then perm else perm + PTE_P
  {
    SplitWord(f, WithPresent(perm)); f * 4096 + WithPresent(perm)
  }

  function ZeroPage(): (z: Page)
    ensures |z.words| == ENTRIES && forall k :: 0 <= k < ENTRIES ==> z.words[k] == 0
  {
    Page(seq(ENTRIES, _ => 0))
  }

  /** What `kfree` fills a page with. */
  function Junk(): (z: Page)
    ensures |z.words| == ENTRIES
  {
    Page(seq(ENTRIES, _ => 0x01010101))
  }

  predicate InPage(k: int) {
    0 <= k < ENTRIES
  }

  ghost predicate WellFormed(p: Phys, first: nat, use: Uses) {
    && 1 <= first <= TOP == |p.mem|
    && (forall f :: 0 <= f < TOP ==> |p.mem[f].words| == ENTRIES)
    && (forall f :: f in use <==> first <= f < TOP)
  }

  predicate IsDir(use: Uses, d: nat) {
    d in use && use[d] == Dir
  }

  /** Directory entry `x` of `d`. */
  function Pde(mem: seq<Page>, d: nat, x: nat): (w: nat) {
    if d < |mem| && x < |mem[d].words| then mem[d].words[x] else 0
  }

  /** What the hardware finds for page `y` of table `x`; 0 if there is no table. */
  function Lookup(mem: seq<Page>, d: nat, x: nat, y: nat): (w: nat) {
    if Present(Pde(mem, d, x)) then Pde(mem, FrameOf(Pde(mem, d, x)), y) else 0
  }

  /** A frame is on the free list, once, exactly if it is free. */
  ghost predicate FreeOk(p: Phys, use: Uses) {
    Distinct(p.free) && forall f :: f in p.free <==> f in use && use[f] == Free
  }

  ghost predicate TablesAreNamed(p: Phys, use: Uses) {
    forall f :: f in use && use[f].Table? ==>
      IsDir(use, use[f].d) && use[f].x < ENTRIES
      && Present(Pde(p.mem, use[f].d, use[f].x)) && FrameOf(Pde(p.mem, use[f].d, use[f].x)) == f
  }

  ghost predicate NamedAreTables(p: Phys, use: Uses) {
    forall d, x :: IsDir(use, d) && InPage(x) && Present(Pde(p.mem, d, x)) ==>
      FrameOf(Pde(p.mem, d, x)) in use && use[FrameOf(Pde(p.mem, d, x))] == Table(d, x)
  }

  ghost predicate UsersAreNamed(p: Phys, use: Uses) {
    forall f :: f in use && use[f].User? ==>
      IsDir(use, use[f].d) && use[f].x < USER_TABLES && use[f].y < ENTRIES
      && Present(Lookup(p.mem, use[f].d, use[f].x, use[f].y))
      && FrameOf(Lookup(p.mem, use[f].d, use[f].x, use[f].y)) == f
  }

  ghost predicate NamedAreUsers(p: Phys, use: Uses) {
    forall d, x, y :: IsDir(use, d) && InPage(x) && x < USER_TABLES && InPage(y) && Present(Lookup(p.mem, d, x, y)) ==>
      FrameOf(Lookup(p.mem, d, x, y)) in use && use[FrameOf(Lookup(p.mem, d, x, y))] == User(d, x, y)
  }

  ghost predicate Sound(p: Phys, first: nat, use: Uses) {
    && WellFormed(p, first, use) && FreeOk(p, use)
    && TablesAreNamed(p, use) && NamedAreTables(p, use) && UsersAreNamed(p, use) && NamedAreUsers(p, use)
  }

  /** No address space of `use` sees a difference, and neither do holders of pages. */
  ghost predicate SameView(p: Phys, p': Phys, use: Uses) {
    && |p'.mem| == |p.mem|
    && (forall d, x, y :: IsDir(use, d) && InPage(x) && InPage(y) ==> Lookup(p'.mem, d, x, y) == Lookup(p.mem, d, x, y))
    && SameData(p, p', use)
  }

  predicate Data(u: Use) {
    u.User? || u.Held?
  }

  /** Mapped and held pages keep their contents. */
  ghost predicate SameData(p: Phys, p': Phys, use: Uses) {
    forall f :: f in use && Data(use[f]) && f < |p.mem| && f < |p'.mem| ==> p'.mem[f] == p.mem[f]
  }

  /** No frame is mapped twice, in one address space or in two. */
  lemma NoSharing(p: Phys, first: nat, use: Uses, d: nat, x: nat, y: nat, c: nat, z: nat, v: nat)
    requires Sound(p, first, use) && IsDir(use, d) && IsDir(use, c)
    requires x < USER_TABLES && z < USER_TABLES && InPage(y) && InPage(v)
    requires Present(Lookup(p.mem, d, x, y)) && Present(Lookup(p.mem, c, z, v))
    ensures FrameOf(Lookup(p.mem, d, x, y)) == FrameOf(Lookup(p.mem, c, z, v)) ==> d == c && x == z && y == v
  {
    assert use[FrameOf(Lookup(p.mem, d, x, y))] == User(d, x, y);
  }

  // ----- one step at a time -----

  function SetPage(p: Phys, f: nat, page: Page): (r: Phys)
    requires f < |p.mem|
    ensures |r.mem| == |p.mem| && r.free == p.free
  {
    p.(mem := p.mem[f := page])
  }

  function SetWord(p: Phys, f: nat, k: nat, w: nat): (r: Phys)
    requires f < |p.mem| && k < |p.mem[f].words|
  {
    SetPage(p, f, Page(p.mem[f].words[k := w]))
  }

  /** Only directories and tables are looked at. */
  lemma WriteKeepsLookup(p: Phys, first: nat, use: Uses, f: nat, page: Page, d: nat, x: nat, y: nat)
    requires Sound(p, first, use) && f in use && !use[f].Dir? && !use[f].Table?
    requires IsDir(use, d) && InPage(x)
    ensures f < |p.mem| && Pde(SetPage(p, f, page).mem, d, x) == Pde(p.mem, d, x)
    ensures Lookup(SetPage(p, f, page).mem, d, x, y) == Lookup(p.mem, d, x, y)
  {
    assert Present(Pde(p.mem, d, x)) ==> use[FrameOf(Pde(p.mem, d, x))] == Table(d, x);
  }

  /** Filling a frame that no address space uses. */
  lemma FillKeeps(p: Phys, first: nat, use: Uses, f: nat, page: Page)
    requires Sound(p, first, use) && f in use && (use[f].Free? || use[f].Held?) && |page.words| == ENTRIES
    ensures f < |p.mem| && Sound(SetPage(p, f, page), first, use)
    ensures SameView(p, SetPage(p, f, page), use - {f})
  {
    var p' := SetPage(p, f, page);
    forall d, x, y | IsDir(use, d) && InPage(x)
      ensures Pde(p'.mem, d, x) == Pde(p.mem, d, x) && Lookup(p'.mem, d, x, y) == Lookup(p.mem, d, x, y)
    {
      WriteKeepsLookup(p, first, use, f, page, d, x, y);
    }
  }

  lemma TakeKeeps(p: Phys, first: nat, use: Uses)
    requires Sound(p, first, use) && |p.free| > 0
    ensures p.free[0] in use && use[p.free[0]] == Free
    ensures Sound(p.(free := p.free[1..]), first, use[p.free[0] := Held])
  {
    var f, p' := p.free[0], p.(free := p.free[1..]);
    assert f in p.free;
    forall g ensures g in p'.free <==> g in p.free && g != f {
      if g in p.free { var k :| 0 <= k < |p.free| && p.free[k] == g; if k > 0 { assert p'.free[k - 1] == g; } }
    }
    UseKept(p, p', first, use, f, Held);
  }

  /** Frame `f` is not part of an address space before or after; everything else is as it was. */
  lemma UseKept(p: Phys, p': Phys, first: nat, use: Uses, f: nat, u: Use)
    requires Sound(p, first, use) && p'.mem == p.mem && f in use
    requires !use[f].Dir? && !use[f].Table? && !use[f].User? && !u.Dir? && !u.Table? && !u.User?
    requires FreeOk(p', use[f := u])
    ensures Sound(p', first, use[f := u])
  {
    var use' := use[f := u];
    assert forall d :: IsDir(use', d) <==> IsDir(use, d);
    hide Lookup, Pde;
  }

  lemma GiveKeeps(p: Phys, first: nat, use: Uses, f: nat)
    requires Sound(p, first, use) && f in use && use[f] == Held
    ensures f < |p.mem|
    ensures Sound(SetPage(p, f, Junk()).(free := [f] + p.free), first, use[f := Free])
    ensures SameView(p, SetPage(p, f, Junk()).(free := [f] + p.free), use - {f})
  {
    FillKeeps(p, first, use, f, Junk());
    var p1 := SetPage(p, f, Junk());
    assert f !in p.free;
    hide Sound;
    FreePush(p1, first, use, f);
  }

  lemma FreePush(p: Phys, first: nat, use: Uses, f: nat)
    requires Sound(p, first, use) && f in use && use[f] == Held
    ensures Sound(p.(free := [f] + p.free), first, use[f := Free])
  {
    assert f !in p.free;
    UseKept(p, p.(free := [f] + p.free), first, use, f, Free);
  }

  /** Putting a zeroed table into an empty directory entry: no page appears or disappears. */
  lemma TableKeeps(p: Phys, first: nat, use: Uses, f: nat, d: nat, x: nat)
    requires Sound(p, first, use) && f in use && use[f] == Held && f < |p.mem| && p.mem[f] == ZeroPage()
    requires IsDir(use, d) && InPage(x) && !Present(Pde(p.mem, d, x))
    ensures d < |p.mem| && x < |p.mem[d].words|
    ensures var p' := SetWord(p, d, x, Entry(f, PTE_P + PTE_W + PTE_U));
            && Sound(p', first, use[f := Table(d, x)]) && SameView(p, p', use[f := Table(d, x)])
            && Pde(p'.mem, d, x) == Entry(f, PTE_P + PTE_W + PTE_U)
  {
    var e := Entry(f, PTE_P + PTE_W + PTE_U);
    var p', use' := SetWord(p, d, x, e), use[f := Table(d, x)];
    assert forall c :: IsDir(use', c) <==> IsDir(use, c);
    forall c, z | IsDir(use, c) && InPage(z)
      ensures Pde(p'.mem, c, z) == if c == d && z == x then e else Pde(p.mem, c, z) {}
    forall c, z, y | IsDir(use, c) && InPage(z) && InPage(y) ensures Lookup(p'.mem, c, z, y) == Lookup(p.mem, c, z, y) {
      assert Present(Pde(p.mem, c, z)) ==> use[FrameOf(Pde(p.mem, c, z))] == Table(c, z);
    }
    hide Lookup, Pde, Entry;
  }

  /** The views of `p` and `p'` differ exactly in that page (x, y) of `d` now reads `w`. */
  ghost predicate OneEntry(p: Phys, p': Phys, use: Uses, d: nat, x: nat, y: nat, w: nat) {
    && |p'.mem| == |p.mem|
    && (forall c, z, v :: IsDir(use, c) && InPage(z) && InPage(v) ==>
          Lookup(p'.mem, c, z, v) == if c == d && z == x && v == y then w else Lookup(p.mem, c, z, v))
  }

  ghost predicate SamePdes(p: Phys, p': Phys, use: Uses) {
    forall c, z :: IsDir(use, c) && InPage(z) ==> Pde(p'.mem, c, z) == Pde(p.mem, c, z)
  }

  /** A word written into the table of (d, x) shows up there and nowhere else. */
  lemma EntryShows(p: Phys, first: nat, use: Uses, d: nat, x: nat, y: nat, w: nat)
    requires Sound(p, first, use) && IsDir(use, d) && InPage(x) && InPage(y) && Present(Pde(p.mem, d, x))
    ensures var t := FrameOf(Pde(p.mem, d, x)); t < |p.mem| && y < |p.mem[t].words| && t in use && use[t] == Table(d, x)
    ensures var p' := SetWord(p, FrameOf(Pde(p.mem, d, x)), y, w);
            OneEntry(p, p', use, d, x, y, w) && SamePdes(p, p', use) && SameData(p, p', use)
  {
    var t := FrameOf(Pde(p.mem, d, x));
    assert t in use && use[t] == Table(d, x);
    var p' := SetWord(p, t, y, w);
    forall c, z | IsDir(use, c) && InPage(z) ensures Pde(p'.mem, c, z) == Pde(p.mem, c, z) {}
    forall c, z, v | IsDir(use, c) && InPage(z) && InPage(v)
      ensures Lookup(p'.mem, c, z, v) == if c == d && z == x && v == y then w else Lookup(p.mem, c, z, v)
    {
      assert Present(Pde(p.mem, c, z)) ==> use[FrameOf(Pde(p.mem, c, z))] == Table(c, z);
    }
  }

  /** Mapping a held frame into an empty user page. */
  lemma UserKeeps(p: Phys, first: nat, use: Uses, f: nat, d: nat, x: nat, y: nat, w: nat)
    requires Sound(p, first, use) && f in use && use[f] == Held
    requires IsDir(use, d) && x < USER_TABLES && InPage(y) && Present(Pde(p.mem, d, x))
    requires !Present(Lookup(p.mem, d, x, y))
    requires Present(w) && FrameOf(w) == f
    ensures var t := FrameOf(Pde(p.mem, d, x)); t < |p.mem| && y < |p.mem[t].words|
    ensures Sound(SetWord(p, FrameOf(Pde(p.mem, d, x)), y, w), first, use[f := User(d, x, y)])
    ensures OneEntry(p, SetWord(p, FrameOf(Pde(p.mem, d, x)), y, w), use, d, x, y, w)
    ensures SameData(p, SetWord(p, FrameOf(Pde(p.mem, d, x)), y, w), use)
  {
    EntryShows(p, first, use, d, x, y, w);
    var p', use' := SetWord(p, FrameOf(Pde(p.mem, d, x)), y, w), use[f := User(d, x, y)];
    hide Lookup, Pde, SetWord, FrameOf, Present;
    assert forall c :: IsDir(use', c) <==> IsDir(use, c);
    assert WellFormed(p', first, use') by { WordKeepsSize(p, first, use, FrameOf(Pde(p.mem, d, x)), y, w); }
  }

  lemma WordKeepsSize(p: Phys, first: nat, use: Uses, t: nat, y: nat, w: nat)
    requires WellFormed(p, first, use) && t < |p.mem| && y < |p.mem[t].words|
    ensures WellFormed(SetWord(p, t, y, w), first, use) && SetWord(p, t, y, w).free == p.free
  {
  }

  /** Mapping anything into a page of the kernel half; the frames there belong to nobody's user map. */
  lemma KernelKeeps(p: Phys, first: nat, use: Uses, d: nat, x: nat, y: nat, w: nat)
    requires Sound(p, first, use) && IsDir(use, d) && USER_TABLES <= x && InPage(x) && InPage(y)
    requires Present(Pde(p.mem, d, x))
    ensures var t := FrameOf(Pde(p.mem, d, x)); t < |p.mem| && y < |p.mem[t].words|
    ensures Sound(SetWord(p, FrameOf(Pde(p.mem, d, x)), y, w), first, use)
    ensures OneEntry(p, SetWord(p, FrameOf(Pde(p.mem, d, x)), y, w), use, d, x, y, w)
    ensures SameData(p, SetWord(p, FrameOf(Pde(p.mem, d, x)), y, w), use)
  {
    EntryShows(p, first, use, d, x, y, w);
    var p' := SetWord(p, FrameOf(Pde(p.mem, d, x)), y, w);
    WordKeepsSize(p, first, use, FrameOf(Pde(p.mem, d, x)), y, w);
    hide Lookup, Pde, SetWord, FrameOf, Present;
  }

  /** Clearing a user page takes its frame out of the address space. */
  lemma ClearKeeps(p: Phys, first: nat, use: Uses, f: nat, d: nat, x: nat, y: nat)
    requires Sound(p, first, use) && IsDir(use, d) && x < USER_TABLES && InPage(y) && Present(Pde(p.mem, d, x))
    requires Present(Lookup(p.mem, d, x, y)) && FrameOf(Lookup(p.mem, d, x, y)) == f
    ensures f in use && use[f] == User(d, x, y)
    ensures var t := FrameOf(Pde(p.mem, d, x)); t < |p.mem| && y < |p.mem[t].words|
    ensures Sound(SetWord(p, FrameOf(Pde(p.mem, d, x)), y, 0), first, use[f := Held])
    ensures OneEntry(p, SetWord(p, FrameOf(Pde(p.mem, d, x)), y, 0), use, d, x, y, 0)
    ensures SameData(p, SetWord(p, FrameOf(Pde(p.mem, d, x)), y, 0), use)
  {
    assert !Present(0);
    hide Lookup, Pde, SetWord, FrameOf, Present;
    EntryShows(p, first, use, d, x, y, 0);
    var p', use' := SetWord(p, FrameOf(Pde(p.mem, d, x)), y, 0), use[f := Held];
    assert forall c :: IsDir(use', c) <==> IsDir(use, c);
    WordKeepsSize(p, first, use, FrameOf(Pde(p.mem, d, x)), y, 0);
  }

  // ----- whole address spaces -----

  /** A zeroed frame becomes a directory that maps nothing. */
  lemma DirKeeps(p: Phys, first: nat, use: Uses, f: nat)
    requires Sound(p, first, use) && f in use && use[f] == Held && f < |p.mem| && p.mem[f] == ZeroPage()
    ensures Sound(p, first, use[f := Dir])
    ensures forall x, y :: InPage(x) && InPage(y) ==> Lookup(p.mem, f, x, y) == 0
  {
    var use' := use[f := Dir];
    assert forall c :: IsDir(use', c) <==> IsDir(use, c) || c == f;
    assert forall x :: InPage(x) ==> Pde(p.mem, f, x) == 0;
    assert !Present(0);
    assert forall x, y :: InPage(x) && InPage(y) ==> Lookup(p.mem, f, x, y) == 0;
    hide Lookup, Pde, FrameOf, Present;
  }

  predicate TableOf(u: Use, d: nat, k: nat) {
    u.Table? && u.d == d && u.x < k
  }

  /** The tables in the first `k` directory entries of `d` have been given to the free list. */
  ghost predicate Torn(p0: Phys, p: Phys, use: Uses, d: nat, k: nat) {
    && |p.mem| == |p0.mem|
    && (forall g :: 0 <= g < |p.mem| ==> |p.mem[g].words| == ENTRIES)
    && (forall g :: 0 <= g < |p.mem| && !(g in use && TableOf(use[g], d, k)) ==> p.mem[g] == p0.mem[g])
    && Distinct(p.free)
    && (forall g :: g in p.free <==> g in use && (use[g] == Free || TableOf(use[g], d, k)))
  }

  lemma TornMore(p0: Phys, p: Phys, first: nat, use: Uses, d: nat, k: nat)
    requires Sound(p0, first, use) && IsDir(use, d) && InPage(k) && Torn(p0, p, use, d, k)
    ensures d < |p.mem| && k < |p.mem[d].words| && p.mem[d].words[k] == Pde(p0.mem, d, k)
    ensures !Present(Pde(p0.mem, d, k)) ==> Torn(p0, p, use, d, k + 1)
    ensures Present(Pde(p0.mem, d, k)) ==>
              var f := FrameOf(Pde(p0.mem, d, k));
              first <= f < |p.mem| && Torn(p0, SetPage(p, f, Junk()).(free := [f] + p.free), use, d, k + 1)
  {
    var f := FrameOf(Pde(p0.mem, d, k));
    forall g | g in use && TableOf(use[g], d, k + 1) && !TableOf(use[g], d, k)
      ensures Present(Pde(p0.mem, d, k)) && g == f {}
    if Present(Pde(p0.mem, d, k)) {
      assert use[f] == Table(d, k);
      hide Sound, FrameOf, Pde;
      assert f !in p.free;
    }
  }

  /** `use` once address space `d` has been torn down. */
  function Released(use: Uses, d: nat): (r: Uses)
    ensures r.Keys == use.Keys
  {
    map f | f in use :: if f == d || ((use[f].Table? || use[f].User?) && use[f].d == d) then Free else use[f]
  }

  /** When all tables and the directory are on the free list, the other address spaces are intact. */
  lemma TornDown(p0: Phys, p: Phys, first: nat, use: Uses, d: nat)
    requires Sound(p0, first, use) && IsDir(use, d) && Torn(p0, p, use, d, ENTRIES)
    requires forall x, y :: InPage(x) && x < USER_TABLES && InPage(y) ==> !Present(Lookup(p0.mem, d, x, y))
    ensures first <= d < |p.mem|
    ensures var p' := SetPage(p, d, Junk()).(free := [d] + p.free);
            Sound(p', first, Released(use, d)) && SameView(p0, p', Released(use, d))
  {
    var p', use' := SetPage(p, d, Junk()).(free := [d] + p.free), Released(use, d);
    assert d !in p.free;
    forall g | g in use && use[g].User? ensures use[g].d != d {
      assert IsDir(use, use[g].d);
      assert InPage(use[g].x) && InPage(use[g].y);
    }
    forall c, x | IsDir(use', c) && InPage(x)
      ensures IsDir(use, c) && c != d && Pde(p'.mem, c, x) == Pde(p0.mem, c, x) {}
    forall c, x, y | IsDir(use', c) && InPage(x) && InPage(y)
      ensures Lookup(p'.mem, c, x, y) == Lookup(p0.mem, c, x, y)
    {
      assert Present(Pde(p0.mem, c, x)) ==> use[FrameOf(Pde(p0.mem, c, x))] == Table(c, x);
    }
    TornSound(p0, p', first, use, d);
  }

  lemma TornSound(p0: Phys, p': Phys, first: nat, use: Uses, d: nat)
    requires Sound(p0, first, use) && IsDir(use, d) && WellFormed(p', first, use) && FreeOk(p', Released(use, d))
    requires forall g :: g in use && use[g].User? ==> use[g].d != d
    requires forall c, x :: IsDir(Released(use, d), c) && InPage(x) ==> Pde(p'.mem, c, x) == Pde(p0.mem, c, x)
    requires forall c, x, y :: IsDir(Released(use, d), c) && InPage(x) && InPage(y) ==>
               Lookup(p'.mem, c, x, y) == Lookup(p0.mem, c, x, y)
    ensures Sound(p', first, Released(use, d))
  {
    var use' := Released(use, d);
    forall c ensures IsDir(use', c) <==> IsDir(use, c) && c != d {}
    hide Lookup, Pde, FrameOf, Present;
  }
}
