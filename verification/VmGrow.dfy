/** vm.c: what growing an address space adds, and that a failed attempt leaves no page behind. */
module VmGrow {
  import opened PageTables
  import opened VmSpace

  /** A zeroed page on a frame that was free. */
  ghost predicate NewPage(p: Phys, use0: Uses, w: nat) {
    && Present(w) && FlagsOf(w) == PTE_P + PTE_W + PTE_U
    && FrameOf(w) in use0 && use0[FrameOf(w)] == Free && FrameOf(w) < |p.mem| && p.mem[FrameOf(w)] == ZeroPage()
  }

  predicate NewUse(u: Use, d: nat, lo: nat, v: nat) {
    (u.Table? && u.d == d) || (u.User? && u.d == d && InRange(Vpn(u.x, u.y), lo, v))
  }

  ghost predicate UseGrown(use0: Uses, use: Uses, d: nat, lo: nat, v: nat) {
    && use.Keys == use0.Keys
    && forall g :: g in use0 && use[g] != use0[g] ==> use0[g] == Free && NewUse(use[g], d, lo, v)
  }

  /** The pages of `d` from `lo` up to `v` are new; every other page of every address space is as it was. */
  ghost predicate Grown(p0: Phys, p: Phys, use0: Uses, use: Uses, d: nat, lo: nat, v: nat) {
    && |p.mem| == |p0.mem| && SameData(p0, p, use0) && UseGrown(use0, use, d, lo, v)
    && forall c, x, y :: IsDir(use0, c) && InPage(x) && InPage(y) ==>
         if c == d && InRange(Vpn(x, y), lo, v) then NewPage(p, use0, Lookup(p.mem, c, x, y))
         else Lookup(p.mem, c, x, y) == Lookup(p0.mem, c, x, y)
  }

  /** No page of `d` from `lo` up to `hi` is there. */
  ghost predicate Empty(p: Phys, d: nat, lo: nat, hi: nat) {
    forall x, y :: InPage(x) && InPage(y) && InRange(Vpn(x, y), lo, hi) ==> Lookup(p.mem, d, x, y) == 0
  }

  lemma GrownNothing(p: Phys, use: Uses, d: nat, lo: nat)
    ensures Grown(p, p, use, use, d, lo, lo)
  {
  }

  lemma UseGrownMore(use0: Uses, use: Uses, use2: Uses, f: nat, d: nat, lo: nat, v: nat)
    requires UseGrown(use0, use, d, lo, v) && f in use && use[f] == Free && lo <= v < USER_PAGES
    requires TablesAdded(use[f := User(d, Pdx(v), Ptx(v))], use2, d)
    ensures UseGrown(use0, use2, d, lo, v + 1) && f in use0 && use0[f] == Free
  {
    VpnIs(v, Pdx(v), Ptx(v));
    hide Vpn, Pdx, Ptx;
    assert f in use0;
    assert use2.Keys == use0.Keys;
  }

  /** The new pages found so far are in use, so later rounds leave them alone. */
  lemma NewPageKept(p: Phys, p1: Phys, p2: Phys, first: nat, use0: Uses, use: Uses, f: nat, d: nat, x: nat, y: nat)
    requires Sound(p, first, use) && IsDir(use, d) && InPage(x) && x < USER_TABLES && InPage(y) && f in use
    requires use[f] == Free
    requires NewPage(p, use0, Lookup(p.mem, d, x, y))
    requires SameData(p, p1, use) && SameData(p1, p2, use[f := Held]) && |p1.mem| == |p.mem| == |p2.mem|
    ensures NewPage(p2, use0, Lookup(p.mem, d, x, y))
  {
    var g := FrameOf(Lookup(p.mem, d, x, y));
    assert use[g] == User(d, x, y);
  }

  lemma GrownMore(p0: Phys, p: Phys, p1: Phys, p2: Phys, first: nat, use0: Uses, use: Uses, use2: Uses,
                  f: nat, d: nat, lo: nat, v: nat, w: nat)
    requires Sound(p, first, use) && Grown(p0, p, use0, use, d, lo, v) && IsDir(use0, d) && lo <= v < USER_PAGES
    requires f in use && use[f] == Free && f < |p1.mem| && p1.mem[f] == ZeroPage() && SameView(p, p1, use)
    requires OneEntry(p1, p2, use[f := Held], d, Pdx(v), Ptx(v), w) && SameData(p1, p2, use[f := Held])
    requires Present(w) && FrameOf(w) == f && FlagsOf(w) == PTE_P + PTE_W + PTE_U
    requires TablesAdded(use[f := User(d, Pdx(v), Ptx(v))], use2, d)
    ensures Grown(p0, p2, use0, use2, d, lo, v + 1)
  {
    UseGrownMore(use0, use, use2, f, d, lo, v);
    assert forall c :: IsDir(use0, c) ==> IsDir(use[f := Held], c) && IsDir(use, c);
    assert forall g :: g in use0 && Data(use0[g]) ==> use[g] == use0[g] && use[f := Held][g] == use0[g];
    hide Sound, Lookup, Present, FrameOf, FlagsOf, Vpn, Pdx, Ptx, UseGrown;
    forall c, x, y | IsDir(use0, c) && InPage(x) && InPage(y)
      ensures if c == d && InRange(Vpn(x, y), lo, v + 1) then NewPage(p2, use0, Lookup(p2.mem, c, x, y))
              else Lookup(p2.mem, c, x, y) == Lookup(p0.mem, c, x, y)
    {
      VpnIs(v, x, y);
      if c == d && InRange(Vpn(x, y), lo, v) {
        VpnIs(Vpn(x, y), x, y);
        NewPageKept(p, p1, p2, first, use0, use, f, d, x, y);
      }
    }
  }

  /** Taking the range away again leaves the user map as it was; only tables remain. */
  lemma Restored(p0: Phys, p1: Phys, p2: Phys, first: nat, use0: Uses, use1: Uses, use2: Uses, d: nat, lo: nat, v: nat,
                 hi: nat)
    requires Sound(p0, first, use0) && Empty(p0, d, lo, hi) && lo <= v <= hi && IsDir(use0, d)
    requires Grown(p0, p1, use0, use1, d, lo, v) && DropState(p1, p2, use1, use2, d, lo, hi)
    ensures SameView(p0, p2, use0) && TablesAdded(use0, use2, d)
  {
    RestoredUse(p0, p1, p2, first, use0, use1, use2, d, lo, v, hi);
    assert !Present(0);
    hide Sound, Lookup, FrameOf, FlagsOf, Vpn, Present, SameData, UseGrown, Dropped;
    assert forall c :: IsDir(use0, c) ==> IsDir(use1, c) by { GrownDirs(use0, use1, d, lo, v); }
  }

  lemma GrownDirs(use0: Uses, use1: Uses, d: nat, lo: nat, v: nat)
    requires UseGrown(use0, use1, d, lo, v)
    ensures forall c :: IsDir(use0, c) ==> IsDir(use1, c)
  {
  }

  lemma RestoredUse(p0: Phys, p1: Phys, p2: Phys, first: nat, use0: Uses, use1: Uses, use2: Uses, d: nat, lo: nat,
                    v: nat, hi: nat)
    requires Sound(p0, first, use0) && Empty(p0, d, lo, hi) && lo <= v <= hi && IsDir(use0, d)
    requires |p1.mem| == |p0.mem| == |p2.mem|
    requires SameData(p0, p1, use0) && UseGrown(use0, use1, d, lo, v) && use2 == Dropped(use1, d, lo, hi)
    requires SameData(p1, p2, use2)
    ensures SameData(p0, p2, use0) && TablesAdded(use0, use2, d)
  {
    hide Sound, Vpn, Empty;
    forall g | g in use0 && use0[g].User? && use0[g].d == d ensures !InRange(Vpn(use0[g].x, use0[g].y), lo, hi) {
      NotThere(p0, first, use0, g, lo, hi);
    }
  }

  lemma NotThere(p0: Phys, first: nat, use0: Uses, g: nat, lo: nat, hi: nat)
    requires Sound(p0, first, use0) && g in use0 && use0[g].User? && Empty(p0, use0[g].d, lo, hi)
    ensures !InRange(Vpn(use0[g].x, use0[g].y), lo, hi)
  {
    assert InPage(use0[g].x) && InPage(use0[g].y);
    assert !Present(0);
  }

  /** The same if a frame was held while the range was taken away, and then given back. */
  lemma DropHeld(p1: Phys, p: Phys, p3: Phys, p4: Phys, use1: Uses, use3: Uses, use4: Uses, f: nat, d: nat, lo: nat,
                 hi: nat)
    requires f in use1 && use1[f] == Free && SameView(p1, p, use1) && DropState(p, p3, use1[f := Held], use3, d, lo, hi)
    requires f in use3 && use4 == use3[f := Free] && SameView(p3, p4, use4)
    ensures DropState(p1, p4, use1, use4, d, lo, hi)
  {
    hide Lookup, Vpn, Present;
    assert use4 == Dropped(use1, d, lo, hi);
    assert forall c :: IsDir(use1, c) ==> IsDir(use1[f := Held], c) && IsDir(use4, c);
    assert SameData(p1, p4, use4);
  }

  lemma PageUpGrows(oldsz: nat, newsz: nat)
    ensures newsz >= oldsz ==> PageUp(newsz) >= PageUp(oldsz)
    ensures newsz < KERNBASE ==> PageUp(newsz) <= USER_PAGES
  {
  }

  lemma GrownDir(p0: Phys, p: Phys, use0: Uses, use: Uses, d: nat, lo: nat, v: nat)
    requires Grown(p0, p, use0, use, d, lo, v) && IsDir(use0, d)
    ensures IsDir(use, d)
  {
  }

  /** A page that was not there at the start and has not been reached yet is still not there. */
  lemma GrownAt(p0: Phys, p: Phys, p': Phys, use0: Uses, use: Uses, d: nat, lo: nat, v: nat)
    requires Grown(p0, p, use0, use, d, lo, v) && IsDir(use0, d) && IsDir(use, d) && SameView(p, p', use)
    requires lo <= v < USER_PAGES
    ensures forall hi :: v < hi && Empty(p0, d, lo, hi) ==> !Present(At(p', d, v))
  {
    VpnIs(v, Pdx(v), Ptx(v));
    hide Lookup, Vpn, Pdx, Ptx;
    assert !Present(0);
    forall hi | v < hi && Empty(p0, d, lo, hi) ensures !Present(At(p', d, v)) {
      assert InPage(Pdx(v)) && InPage(Ptx(v)) && InRange(Vpn(Pdx(v), Ptx(v)), lo, hi);
    }
  }

  /** A page that has not been reached yet is as it was. */
  lemma GrownHere(p0: Phys, p: Phys, p': Phys, use0: Uses, use: Uses, d: nat, lo: nat, v: nat)
    requires Grown(p0, p, use0, use, d, lo, v) && IsDir(use0, d) && IsDir(use, d) && SameView(p, p', use)
    requires lo <= v < USER_PAGES
    ensures At(p', d, v) == At(p0, d, v)
  {
    VpnIs(v, Pdx(v), Ptx(v));
    hide Lookup, Vpn, Pdx, Ptx;
    assert InPage(Pdx(v)) && InPage(Ptx(v));
  }

  lemma StillHeld(p: Phys, p': Phys, use: Uses, use': Uses, f: nat, d: nat, lo: nat, hi: nat)
    requires DropState(p, p', use, use', d, lo, hi) && f in use && use[f] == Held
    ensures f in use' && use'[f] == Held
  {
  }

  lemma UserEntry(f: nat)
    ensures FlagsOf(Entry(f, PTE_W + PTE_U)) == PTE_P + PTE_W + PTE_U
  {
    assert !Present(PTE_W + PTE_U);
  }
}
