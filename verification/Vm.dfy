/**
 kalloc.c and vm.c: the page allocator and the operations that build, grow, shrink, copy and
 free address spaces.
 */
module Vm {
  import opened PageTables
  import opened VmSpace
  import opened VmGrow
  import opened VmCopy
  import opened VmNeed

  datatype CopyResult = Child(c: nat) | NoChild | NotMapped
  datatype GrowResult = Size(n: nat) | OutOfMemory | TooBig | Remapped

  class Memory {
    const first: nat
    var p: Phys
    ghost var use: Uses

    ghost predicate Valid()
      reads this
    {
      Sound(p, first, use)
    }

    /** All frames from `first` on, free. */
    constructor (first: nat)
      requires 1 <= first <= TOP
      ensures Valid() && this.first == first && forall f :: f in use ==> use[f] == Free
    {
      this.first := first;
      p := Phys(seq(TOP, _ => ZeroPage()), []);
      use := map f | 0 <= f < TOP && InRam(first, f) :: Held;
      new;
      AllHeld(p, first, use);
      hide Sound;
      Freerange(first, TOP);
    }

    /** Free the frames from `lo` up to `hi`. */
    method Freerange(lo: nat, hi: nat)
      requires Valid() && lo <= hi && forall f :: lo <= f < hi ==> f in use && use[f] == Held
      modifies this
      ensures Valid() && use.Keys == old(use).Keys && SameView(old(p), p, use)
      ensures forall f :: f in use ==> use[f] == if lo <= f < hi then Free else old(use)[f]
    {
      hide Sound, SameView;
      SameViewSelf(p, use);
      var f := lo;
      while f < hi
        invariant lo <= f <= hi && Valid() && use.Keys == old(use).Keys && SameView(old(p), p, use)
        invariant forall g :: g in use ==> use[g] == if lo <= g < f then Free else old(use)[g]
      {
        ghost var p1, use1 := p, use;
        Release(f);
        ViewShrinks(old(p), p1, use1, use, f);
        ViewAgain(old(p), p1, p, use);
        f := f + 1;
      }
    }

    /** Take the first frame of the free list; 0 if there is none. */
    method Kalloc() returns (f: nat)
      requires Valid()
      modifies this
      ensures Valid()
      ensures |old(p).free| == 0 ==> f == 0 && p == old(p) && use == old(use)
      ensures |old(p).free| > 0 ==> f > 0 && f in old(use) && old(use)[f] == Free && f < |p.mem|
      ensures |old(p).free| > 0 ==> p.mem == old(p).mem && use == old(use)[f := Held]
      ensures |old(p).free| > 0 ==> f == old(p).free[0] && p.free == old(p).free[1..]
    {
      if |p.free| == 0 {
        return 0;
      }
      TakeKeeps(p, first, use);
      f := p.free[0];
      p := p.(free := p.free[1..]);
      use := use[f := Held];
    }

    /** Put frame `f` in front of the free list; false stands for the panic. */
    method Kfree(f: nat) returns (ok: bool)
      requires |p.mem| == TOP
      modifies this`p
      ensures ok == (first <= f < TOP)
      ensures ok ==> p == SetPage(old(p), f, Junk()).(free := [f] + old(p).free)
      ensures !ok ==> p == old(p)
    {
      if f < first || f >= TOP {
        return false;
      }
      p := p.(mem := p.mem[f := Junk()], free := [f] + p.free);
      return true;
    }

    /** Give back a frame that is held. */
    method Release(f: nat)
      requires Valid() && f in use && use[f] == Held
      modifies this
      ensures Valid() && use == old(use)[f := Free] && SameView(old(p), p, use)
    {
      GiveKeeps(p, first, use, f);
      var ok := Kfree(f);
      assert ok;
      use := use[f := Free];
    }

    /** Take a frame and fill it with `page`. */
    method KallocFill(page: Page) returns (f: nat)
      requires Valid() && |page.words| == ENTRIES
      modifies this
      ensures Valid() && SameView(old(p), p, old(use))
      ensures f == 0 <==> |old(p).free| == 0
      ensures f == 0 ==> p == old(p) && use == old(use)
      ensures f != 0 ==> f in old(use) && old(use)[f] == Free && use == old(use)[f := Held]
      ensures f != 0 ==> f < |old(p).mem| && p.mem == old(p).mem[f := page] && |p.free| + 1 == |old(p).free|
    {
      hide Sound;
      SameViewSelf(p, use);
      f := Kalloc();
      if f != 0 {
        FillKeeps(p, first, use, f, page);
        p := p.(mem := p.mem[f := page]);
      }
    }

    /** The frame of the table that covers page `v`, made if `alloc` says so; 0 if there is none. */
    method Walkpgdir(d: nat, v: nat, alloc: bool) returns (t: nat)
      requires Valid() && IsDir(use, d) && v < PAGES
      modifies this
      ensures Valid() && SameView(old(p), p, old(use)) && TablesAdded(old(use), use, d)
      ensures Present(Pde(old(p).mem, d, Pdx(v))) || !alloc || |old(p).free| == 0 ==> p == old(p) && use == old(use)
      ensures t == 0 <==> !Present(Pde(p.mem, d, Pdx(v)))
      ensures t == 0 <==> !Present(Pde(old(p).mem, d, Pdx(v))) && (!alloc || |old(p).free| == 0)
      ensures t != 0 ==> t == FrameOf(Pde(p.mem, d, Pdx(v))) && t < |p.mem|
      ensures t != 0 ==> Took(old(p), p, d, v, v + 1, 0)
      ensures t != 0 && !Present(Pde(old(p).mem, d, Pdx(v))) ==>
                FlagsOf(Pde(p.mem, d, Pdx(v))) == PTE_P + PTE_W + PTE_U
    {
      hide Sound, Lookup, Entry, SameView, Pde, FrameOf, FlagsOf, Present, Took;
      ghost var p0, use0 := p, use;
      VpnIs(v, Pdx(v), Ptx(v));
      var x := Pdx(v);
      DirEntry(p, first, use, d, x);
      SameViewSelf(p, use);
      if Present(p.mem[d].words[x]) {
        TookHad(p, d, v);
        return FrameOf(p.mem[d].words[x]);
      }
      if !alloc {
        return 0;
      }
      t := KallocFill(ZeroPage());
      if t == 0 {
        return;
      }
      ghost var p1 := p;
      SamePde(p0, p1, use0, first, use, d, x, t);
      TableKeeps(p, first, use, t, d, x);
      OtherFrame(p0, p1, d, t, ZeroPage());
      NewTable(p, first, use, d, x, Entry(t, PTE_P + PTE_W + PTE_U));
      TableFlags(t);
      p := SetWord(p, d, x, Entry(t, PTE_P + PTE_W + PTE_U));
      TookNew(p0, p1, p, d, v);
      use := use[t := Table(d, x)];
      ViewTwice(p0, p1, p, use0, use, t);
    }

    /** One round of `mappages`: let page `v` of `d` map frame `f`. */
    method MapPage(d: nat, v: nat, f: nat, perm: nat) returns (r: MapResult)
      requires Valid() && IsDir(use, d) && v < PAGES && perm < PGSIZE
      requires v < USER_PAGES ==> f in use && use[f] == Held
      modifies this
      ensures Valid()
      ensures r == Remap <==> Present(At(old(p), d, v))
      ensures r == NoMemory <==> !Tabled(old(p), d, Pdx(v)) && |old(p).free| == 0
      ensures r == Mapped ==> Took(old(p), p, d, v, v + 1, 0)
      ensures r != Mapped ==> p == old(p) && use == old(use)
      ensures r == Mapped ==>
                OneEntry(old(p), p, old(use), d, Pdx(v), Ptx(v), Entry(f, perm)) && SameData(old(p), p, old(use))
      ensures r == Mapped ==>
                TablesAdded(if v < USER_PAGES then old(use)[f := User(d, Pdx(v), Ptx(v))] else old(use), use, d)
    {
      ghost var p0, use0 := p, use;
      VpnIs(v, Pdx(v), Ptx(v));
      var x, y := Pdx(v), Ptx(v);
      var t := Walkpgdir(d, v, true);
      hide Sound, SameView, TablesAdded, FrameOf, Present, Entry, OneEntry, Pdx, Ptx, Took;
      if t == 0 {
        NoTable(p, d, x, y);
        return NoMemory;
      }
      ViewAt(p0, p, first, use0, use, d, x, y, t);
      if Present(p.mem[t].words[y]) {
        return Remap;
      }
      MapKeeps(p0, p, first, use0, use, f, d, v, Entry(f, perm), t);
      TookEntry(p0, p, first, use, d, v, t, y, Entry(f, perm));
      p := SetWord(p, t, y, Entry(f, perm));
      if v < USER_PAGES { use := use[f := User(d, x, y)]; }
      return Mapped;
    }

    /** One round of `deallocuvm`: free the frame of page `v` and clear its entry. */
    method UnmapPage(d: nat, v: nat, t: nat)
      requires Valid() && IsDir(use, d) && v < USER_PAGES && Present(At(p, d, v))
      requires Present(Pde(p.mem, d, Pdx(v))) && t == FrameOf(Pde(p.mem, d, Pdx(v))) && t < |p.mem|
      modifies this
      ensures Valid() && FrameOf(At(old(p), d, v)) in old(use) && use == old(use)[FrameOf(At(old(p), d, v)) := Free]
      ensures old(use)[FrameOf(At(old(p), d, v))] == User(d, Pdx(v), Ptx(v))
      ensures OneEntry(old(p), p, old(use), d, Pdx(v), Ptx(v), 0) && SameData(old(p), p, use)
    {
      ghost var p0, use0 := p, use;
      var x, y := Pdx(v), Ptx(v);
      VpnIs(v, x, y);
      UnmapKeeps(p, first, use, d, x, y);
      var f := FrameOf(p.mem[t].words[y]);
      assert f == FrameOf(At(p, d, v));
      var ok := Kfree(f);
      assert ok;
      p := SetWord(p, t, y, 0);
      use := use[f := Free];
    }

    /** Take pages away from address space `d` until it ends at `newsz`. */
    method Deallocuvm(d: nat, oldsz: nat, newsz: nat) returns (size: nat)
      requires Valid() && IsDir(use, d) && oldsz <= KERNBASE
      modifies this
      ensures Valid() && size == if newsz >= oldsz then oldsz else newsz
      ensures DropState(old(p), p, old(use), use, d, PageUp(newsz), PageUp(oldsz))
    {
      ghost var p0, use0 := p, use;
      hide Sound, DropState, PageUp, Lookup, Pde, Present, FrameOf, Pdx, Ptx;
      DropNothing(p, use, d, newsz, oldsz);
      if newsz >= oldsz {
        return oldsz;
      }
      ghost var lo := PageUp(newsz);
      var a, hi := PageUp(newsz), PageUp(oldsz);
      while a < hi
        invariant lo <= a && hi <= USER_PAGES
        invariant Valid() && DropState(p0, p, use0, use, d, lo, if a < hi then a else hi)
      {
        DropKeepsDir(p0, p, use0, use, d, lo, a);
        var t := Walkpgdir(d, a, false);
        if t != 0 { WalkedTo(p, first, use, d, a, t); }
        if t == 0 {
          DropSkip(p0, p, first, use0, use, d, lo, a, hi);
          a := (Pdx(a) + 1) * ENTRIES - 1;
        } else if Present(p.mem[t].words[Ptx(a)]) {
          ghost var p1, use1 := p, use;
          UnmapPage(d, a, t);
          DropMore(p0, p1, p, first, use0, use1, use, d, lo, a);
        } else {
          DropAbsent(p0, p, first, use0, use, d, lo, a);
        }
        a := a + 1;
      }
      return newsz;
    }

    /**
     Grow address space `d` from `oldsz` to `newsz`. The source reports OutOfMemory and TooBig as 0,
     and panics on Remapped. Memory runs out exactly if the pages and the tables they lack are more
     than the free frames, up to the first page that is mapped already, for which one frame is taken.
     */
    method Allocuvm(d: nat, oldsz: nat, newsz: nat) returns (r: GrowResult)
      requires Valid() && IsDir(use, d)
      modifies this
      ensures Valid()
      ensures r == TooBig <==> newsz >= KERNBASE
      ensures newsz < KERNBASE && newsz < oldsz ==> r == Size(oldsz)
      ensures newsz < KERNBASE && newsz >= oldsz ==> r == Size(newsz) || r == OutOfMemory || r == Remapped
      ensures r == TooBig || newsz < oldsz ==> p == old(p) && use == old(use)
      ensures r == Size(newsz) ==> Grown(old(p), p, old(use), use, d, PageUp(oldsz), PageUp(newsz))
      ensures newsz < KERNBASE && newsz >= oldsz ==>
                var lo, hi := PageUp(oldsz), PageUp(newsz);
                var e := FirstPage(old(p), d, lo, hi, true);
                var need := e - lo + TablesFor(old(p), d, lo, e) + if e < hi then 1 else 0;
                && (r == OutOfMemory <==> need > |old(p).free|)
                && (r == Remapped <==> need <= |old(p).free| && e < hi)
      ensures Empty(old(p), d, PageUp(oldsz), PageUp(newsz)) ==> r != Remapped
      ensures Empty(old(p), d, PageUp(oldsz), PageUp(newsz)) && r == OutOfMemory ==>
                SameView(old(p), p, old(use)) && TablesAdded(old(use), use, d)
    {
      ghost var p0, use0 := p, use;
      hide Sound, Grown, Empty, DropState, SameView, TablesAdded, PageUp, Lookup, Present, FrameOf, FlagsOf, Pdx, Ptx,
           At, Entry, OneEntry, SameData;
      hide Took, TablesFor, Tabled, FirstPage, SameTables;
      GrownNothing(p, use, d, PageUp(newsz));
      PageUpGrows(oldsz, newsz);
      if newsz >= KERNBASE {
        return TooBig;
      }
      if newsz < oldsz {
        return Size(oldsz);
      }
      GrownNothing(p, use, d, PageUp(oldsz));
      ghost var lo := PageUp(oldsz);
      var v, hi := PageUp(oldsz), PageUp(newsz);
      ghost var e := FirstPage(p, d, lo, hi, true);
      TookNothing(p, d, lo);
      while v < hi
        invariant lo <= v <= hi <= USER_PAGES
        invariant Valid() && IsDir(use, d) && Grown(p0, p, use0, use, d, lo, v)
        invariant Took(p0, p, d, lo, v, v - lo) && v <= e
      {
        ghost var p1, use1 := p, use;
        var f := KallocFill(ZeroPage());
        if f == 0 {
          OutOfFrames(p0, p, d, lo, v, e, v - lo);
          var _ := Deallocuvm(d, newsz, oldsz);
          if Empty(p0, d, lo, hi) { Restored(p0, p1, p, first, use0, use1, use, d, lo, v, hi); }
          return OutOfMemory;
        }
        ghost var p2 := p;
        var m := MapPage(d, v, f, PTE_W + PTE_U);
        GrownAt(p0, p1, p2, use0, use1, d, lo, v);
        GrownHere(p0, p1, p2, use0, use1, d, lo, v);
        OtherFrame(p1, p2, d, f, ZeroPage());
        if m == Remap {
          TookFits(p0, p1, d, lo, v, v - lo);
          return Remapped;
        }
        if m == NoMemory {
          OneFrameLeft(p0, p1, p2, d, lo, v, e, v - lo);
          var _ := Deallocuvm(d, newsz, oldsz);
          ghost var p3, use3 := p, use;
          StillHeld(p2, p3, use1[f := Held], use3, f, d, lo, hi);
          Release(f);
          DropHeld(p1, p2, p3, p, use1, use3, use, f, d, lo, hi);
          if Empty(p0, d, lo, hi) { Restored(p0, p1, p, first, use0, use1, use, d, lo, v, hi); }
          return OutOfMemory;
        }
        UserEntry(f);
        assert use1[f := Held][f := User(d, Pdx(v), Ptx(v))] == use1[f := User(d, Pdx(v), Ptx(v))];
        GrownMore(p0, p1, p2, p, first, use0, use1, use, f, d, lo, v, Entry(f, PTE_W + PTE_U));
        GrownDir(p0, p, use0, use, d, lo, v + 1);
        TookMore(p0, p1, p2, p, d, lo, v, v - lo, 1);
        v := v + 1;
      }
      TookFits(p0, p, d, lo, v, v - lo);
      return Size(newsz);
    }

    /** Free address space `d`: its user pages, its tables and its directory, each once. */
    method Freevm(d: nat)
      requires Valid() && IsDir(use, d)
      modifies this
      ensures Valid() && use == Released(old(use), d) && SameView(old(p), p, use)
    {
      ghost var p0, use0 := p, use;
      hide Sound, DropState, SameView, Released, Torn, Pde, PageUp, FrameOf, Present, Lookup, SetPage;
      var _ := Deallocuvm(d, KERNBASE, 0);
      ghost var p1, use1 := p, use;
      DroppedAll(p0, p, use0, use, d);
      TornNothing(p, first, use, d);
      var i := 0;
      while i < ENTRIES
        invariant 0 <= i <= ENTRIES && Torn(p1, p, use1, d, i) && |p.mem| == TOP && use == use1
      {
        TornMore(p1, p, first, use1, d, i);
        if Present(p.mem[d].words[i]) {
          var ok := Kfree(FrameOf(p.mem[d].words[i]));
          assert ok;
        }
        i := i + 1;
      }
      TornDown(p1, p, first, use1, d);
      var ok := Kfree(d);
      assert ok;
      ReleasedAfterDrop(p0, p1, p, first, use0, use1, d);
      use := Released(use, d);
    }

    /** `mappages` over the kernel half; `done` pages were mapped when it stopped. */
    method Mappages(d: nat, v: nat, n: nat, f: nat, perm: nat) returns (r: MapResult, ghost done: nat)
      requires Valid() && IsDir(use, d) && USER_PAGES <= v && 0 < n && v + n <= PAGES && perm < PGSIZE
      modifies this
      ensures Valid() && done <= n && Ranged(old(p), p, old(use), use, d, v, done, f, perm)
      ensures r == Mapped <==> done == n
      ensures Took(old(p), p, d, v, v + done, 0) && (r == NoMemory ==> |p.free| == 0)
      ensures var e := FirstPage(old(p), d, v, v + n, true);
              && (r == NoMemory <==> TablesFor(old(p), d, v, e) > |old(p).free|)
              && (r == Remap <==> TablesFor(old(p), d, v, e) <= |old(p).free| && e < v + n)
              && (r == Remap ==> v + done == e)
    {
      ghost var p0, use0 := p, use;
      hide Sound, Ranged, OneEntry, TablesAdded, Lookup, Present, FrameOf, Pdx, Ptx, Entry, SameData, At;
      hide Took, TablesFor, Tabled, FirstPage;
      ghost var e := FirstPage(p, d, v, v + n, true);
      RangedNothing(p, use, d, v, f, perm);
      TookNothing(p, d, v);
      done := 0;
      var a, last, pa := v, v + n - 1, f;
      while true
        invariant v <= a <= last && done == a - v && pa == f + done
        invariant Valid() && Ranged(p0, p, use0, use, d, v, done, f, perm)
        invariant Took(p0, p, d, v, a, 0) && a <= e
        decreases last - a
      {
        ghost var p1, use1 := p, use;
        RangedAt(p0, p, use0, use, d, v, done, f, perm);
        r := MapPage(d, a, pa, perm);
        if r == NoMemory { OutOfTables(p0, p1, d, v, a, e, 0); }
        if r == Remap { TookFits(p0, p, d, v, a, 0); }
        if r != Mapped {
          return;
        }
        RangedMore(p0, p1, p, use0, use1, use, d, v, done, f, perm);
        TookMore(p0, p1, p1, p, d, v, a, 0, 0);
        done := done + 1;
        if a == last {
          TookFits(p0, p, d, v, a + 1, 0);
          return;
        }
        a, pa := a + 1, pa + 1;
      }
    }

    /** Give up an address space that is not finished. */
    method Abandon(c: nat, ghost p0: Phys, ghost use0: Uses)
      requires Valid() && Sound(p0, first, use0) && SameView(p0, p, use0) && UseFor(use0, use, c)
      modifies this
      ensures Valid() && use == use0 && SameView(p0, p, use0)
    {
      hide Sound, SameView, UseFor, Released;
      ghost var p1, use1 := p, use;
      IsNew(use0, use, c);
      Freevm(c);
      ReleasedBack(p0, first, use0, use1, c);
      ViewAgain(p0, p1, p, use0);
    }

    /** A new address space that holds the kernel's mappings only; 0 if memory ran out, and then nothing was taken. */
    method Setupkvm(data: nat) returns (d: nat)
      requires Valid() && Linked(data)
      modifies this
      ensures Valid() && SameView(old(p), p, old(use))
      ensures d == 0 ==> use == old(use)
      ensures d != 0 ==> UseFor(old(use), use, d) && KernelUpto(p, d, data, PAGES)
      ensures d == 0 <==> |old(p).free| < KERNEL_FRAMES
      ensures d != 0 ==> |p.free| + KERNEL_FRAMES == |old(p).free|
      ensures d != 0 ==> forall x :: InPage(x) ==> (Tabled(p, d, x) <==> KernelTable(x))
    {
      ghost var p0, use0 := p, use;
      hide Sound, Ranged, SameView, UseFor, KernelUpto, Released, Lookup, At, Entry, Kmap, Linked;
      hide Took, TablesFor, Tabled, FirstPage, KernelTabled, KernelTables, KernelTable;
      d := KallocFill(ZeroPage());
      if d == 0 {
        return;
      }
      KernelTabledNothing(p, d, data);
      DirKeeps(p, first, use, d);
      use := use[d := Dir];
      NewDir(use0, d);
      KernelNothing(p, d, data);
      var k := 0;
      while k < 4
        invariant 0 <= k <= 4
        invariant Valid() && IsDir(use, d) && SameView(p0, p, use0) && UseFor(use0, use, d)
        invariant KernelUpto(p, d, data, KmapEnd(data, k)) && KernelTabled(p, d, data, k)
        invariant |p.free| + 1 + KernelTables(data, k) == |p0.free|
      {
        KmapRegion(data, k);
        var region := Kmap(data)[k];
        ghost var p1, use1 := p, use;
        var r, done := Mappages(d, region.v, region.n, region.f, region.perm);
        KernelFree(p1, d, data, k, FirstPage(p1, d, region.v, region.v + region.n, true) - region.v);
        RegionTables(p1, d, data, k);
        TookFits(p1, p, d, region.v, region.v + done, 0);
        ViewFor(p0, p1, p, use0, use1, d, region.v, done, region.f, region.perm, use);
        IsNew(use0, use, d);
        if r != Mapped {
          assert r == NoMemory;
          Abandon(d, p0, use0);
          return 0;
        }
        KernelMore(p1, p, use1, use, d, data, k);
        KernelTabledMore(p1, p, d, data, k);
        k := k + 1;
      }
      AllTables(data);
      AllKernelTables(p, d, data);
    }

    /**
     A copy of the first `sz` bytes of address space `d`. NoChild: memory ran out, and every frame
     is back where it was. NotMapped stands for the panics on a page that is not there. Up to that
     page, the child takes the kernel's frames, one for every page and one for every table they need.
     */
    method Copyuvm(d: nat, sz: nat, data: nat) returns (r: CopyResult)
      requires Valid() && IsDir(use, d) && sz <= KERNBASE && Linked(data)
      modifies this
      ensures Valid()
      ensures r.Child? ==> CopyState(old(p), p, old(use), use, d, r.c, data, PageUp(sz))
      ensures r == NoChild ==> use == old(use) && SameView(old(p), p, use)
      ensures r == NotMapped ==> exists v :: 0 <= v < PageUp(sz) && !Present(At(old(p), d, v))
      ensures var e := FirstPage(old(p), d, 0, PageUp(sz), false);
              var need := KERNEL_FRAMES + e + TableEnd(0, e);
              && (r == NoChild <==> need > |old(p).free|)
              && (r == NotMapped <==> need <= |old(p).free| && e < PageUp(sz))
    {
      ghost var p0, use0 := p, use;
      hide Sound, CopyState, SameView, UseFor, KernelUpto, Released, Lookup, Pde, Entry, Linked, PageUp, OneEntry,
           SameData, TablesAdded, FrameOf, FlagsOf, Present, Pdx, Ptx, At;
      hide Took, TablesFor, TableEnd, Tabled, FirstPage, SameTables, KernelTable;
      ghost var e := FirstPage(p, d, 0, PageUp(sz), false);
      CopyBound(sz);
      var c := Setupkvm(data);
      if c == 0 {
        return NoChild;
      }
      ghost var pk := p;
      TookNothing(p, c, 0);
      UserTables(p, c, e);
      CopyNothing(p0, p, use0, use, d, c, data);
      var v, hi := 0, PageUp(sz);
      while v < hi
        invariant 0 <= v <= hi <= USER_PAGES
        invariant Valid() && CopyState(p0, p, use0, use, d, c, data, v)
        invariant Took(pk, p, c, 0, v, v) && v <= e
      {
        CopyDirs(p0, p, use0, use, d, c, data, v);
        var t := Walkpgdir(d, v, false);
        if t == 0 {
          NoTableAt(p, d, v);
          TookFits(pk, p, c, 0, v, v);
          return NotMapped;
        }
        WalkedTo(p, first, use, d, v, t);
        var w := p.mem[t].words[Ptx(v)];
        if !Present(w) {
          TookFits(pk, p, c, 0, v, v);
          return NotMapped;
        }
        ghost var p1, use1 := p, use;
        SameSource(p0, p, first, use0, use, d, v);
        var f := KallocFill(p.mem[FrameOf(w)]);
        if f == 0 {
          OutOfFrames(pk, p, c, 0, v, e, v);
          Abandon(c, p0, use0);
          return NoChild;
        }
        ghost var p2 := p;
        OtherFrame(p1, p2, c, f, p1.mem[FrameOf(w)]);
        FlagBound(w);
        StillEmpty(p0, p1, p2, use0, use1, d, c, data, v);
        var m := MapPage(c, v, f, FlagsOf(w));
        if m != Mapped {
          assert m == NoMemory;
          OneFrameLeft(pk, p1, p2, c, 0, v, e, v);
          Release(f);
          NeverHeld(p0, p1, p2, p, use0, use1, use, f, c);
          Abandon(c, p0, use0);
          return NoChild;
        }
        assert use1[f := Held][f := User(c, Pdx(v), Ptx(v))] == use1[f := User(c, Pdx(v), Ptx(v))];
        CopyMore(p0, p1, p2, p, first, use0, use1, use, f, d, c, data, v, Entry(f, FlagsOf(w)));
        TookMore(pk, p1, p2, p, c, 0, v, v, 1);
        v := v + 1;
      }
      TookFits(pk, p, c, 0, v, v);
      return Child(c);
    }
  }
}
