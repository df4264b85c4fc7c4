/**
The kernel's physical memory with its page allocator (kalloc.c) and its page tables (vm.c).
*/
module KernelVm {
  import opened Basics
  import opened PageTables
  import opened FrameAlloc
  import opened Vm
  import opened Teardown

  datatype MapResult = Mapped | NoMemory | Remap

  /** copyuvm's answers: the new directory, out of memory, or the panic over page (i, j) not being there. */
  datatype CopyResult = Copied(d: nat) | NoRoom | Absent(i: nat, j: nat)

  const PGSIZE := 4096

  /** Addresses in 32-bit arithmetic, as page numbers: PGROUNDDOWN. */
  function PageOf(a: nat): (v: nat)
    ensures v < PAGES
  {
    a % TWO32 / PGSIZE
  }

  /** Frame f is one the allocator manages. */
  predicate Managed(first: nat, f: nat)
  {
    first <= f < NFRAMES
  }

  lemma WholePage(p: nat, vend: nat)
    ensures PGSIZE * (p + 1) <= vend <==> p < vend / PGSIZE
  {
  }

  ghost function Range(lo: nat, hi: nat): (r: set<nat>)
    requires lo <= hi
    ensures forall f :: f in r <==> lo <= f < hi
    decreases hi
  {
    if lo == hi then {} else Range(lo, hi - 1) + {hi - 1}
  }

  class Kernel {
    const first: nat           // the first frame above the kernel image
    var frames: Frames
    var freelist: nat
    ghost var g: Books

    ghost predicate Valid()
      reads this
    {
      Sound(frames, freelist, g, first)
    }

    /** Returns the first free frame, or 0. */
    method Kalloc() returns (f: nat)
      requires Valid()
      modifies this`freelist, this`g
      ensures Valid()
      ensures f == 0 <==> old(g.free) == []
      ensures f == 0 ==> g == old(g) && freelist == old(freelist)
      ensures f != 0 ==> g == old(g).(free := old(g.free)[1..], loose := old(g.loose) + {f})
      ensures f != 0 ==>
                f < NFRAMES && f in FreeSet(old(g)) && f !in g.own && f !in old(g.loose)
                    && FreeSet(g) == FreeSet(old(g)) - {f}
      ensures All(g) == All(old(g))
    {
      f := freelist;
      if f != 0 {
        TakeFrame(frames, freelist, g, first);
        freelist := Linked(At(frames, f, 0));
        g := g.(free := g.free[1..], loose := g.loose + {f});
      }
    }

    /** Fills a frame with junk and puts it on the free list; panics for frames outside the allocator's range. */
    method Kfree(f: nat) returns (panicked: bool)
      requires Valid() && (Managed(first, f) ==> f in g.loose)
      modifies this`frames, this`freelist, this`g
      ensures Valid() && (panicked <==> !Managed(first, f)) && (old(f in g.loose) ==> !panicked)
      ensures panicked ==> frames == old(frames) && freelist == old(freelist) && g == old(g)
      ensures !panicked ==>
                && g == old(g).(free := [f] + old(g.free), loose := old(g.loose) - {f})
                && FreeSet(g) == FreeSet(old(g)) + {f} && All(g) == All(old(g))
      ensures !panicked ==> freelist == f
      ensures !panicked ==> At(frames, f, 0) == Word(if old(freelist) == 0 then 0 else KERNBASE + old(freelist), 0)
      ensures !panicked ==> forall k: nat {:trigger At(frames, f, k)} :: 0 < k < ENTRIES ==> At(frames, f, k) == JUNK
      ensures SameMap(old(frames), frames, g.own) && Kept(old(frames), frames, g.own)
      ensures forall x: nat, k: nat {:trigger At(frames, x, k)} :: x != f ==> At(frames, x, k) == At(old(frames), x, k)
    {
      if f < first || NFRAMES <= f {
        return true;
      }
      ghost var fr := frames;
      frames := Fill(frames, f, JUNK);
      frames := Set(frames, f, 0, Link(freelist));
      LooseWrite(fr, freelist, g, first, f, frames);
      GiveFrame(fr, freelist, g, first, f, frames);
      freelist := f;
      g := g.(free := [f] + g.free, loose := g.loose - {f});
      panicked := false;
    }

    /** freerange: frees every whole page between two addresses; panics when one of them is not the allocator's. */
    method FreeRange(vstart: nat, vend: nat) returns (panicked: bool)
      requires Valid()
      requires forall f: nat {:trigger Managed(first, f)} ::
                RoundUp(vstart) <= f < vend / PGSIZE && Managed(first, f) ==>
        f in g.loose
      modifies this
      ensures Valid() && All(g) == All(old(g)) && g.own == old(g.own) && SameMap(old(frames), frames, g.own)
      ensures !panicked <==>
              forall f: nat {:trigger Managed(first, f)} :: RoundUp(vstart) <= f < vend / PGSIZE ==> Managed(first, f)
      ensures !panicked ==> forall f: nat {:trigger f in g.loose} ::
                f in g.loose <==> f in old(g.loose) && !(RoundUp(vstart) <= f < vend / PGSIZE)
    {
      SameMapRefl(frames, g.own);
      hide Sound;
      hide SameMap;
      hide Kept;
      hide All;
      hide FreeSet;
      var p := RoundUp(vstart);
      ghost var lo, hi := p, vend / PGSIZE;
      hide RoundUp;
      WholePage(p, vend);
      while PGSIZE * (p + 1) <= vend
        invariant lo <= p && (p <= hi || p == lo) && (PGSIZE * (p + 1) <= vend <==> p < hi)
        invariant Valid() && All(g) == All(old(g)) && g.own == old(g.own) && SameMap(old(frames), frames, g.own)
        invariant forall f: nat {:trigger Managed(first, f)} :: lo <= f < p ==> Managed(first, f)
        invariant forall f: nat {:trigger f in g.loose} :: f in g.loose <==> f in old(g.loose) && !(lo <= f < p)
        decreases hi - p
      {
        assert Managed(first, p) ==> p in old(g.loose) && p in g.loose;
        ghost var fr := frames;
        panicked := Kfree(p);
        SameMapTrans(old(frames), fr, frames, g.own);
        if panicked {
          assert !Managed(first, p);
          return;
        }
        p := p + 1;
        WholePage(p, vend);
      }
      panicked := false;
    }

    /** No frame is free yet: every frame above the kernel image is still to be handed to the allocator. */
    constructor (first: nat, memory: Frames)
      requires 0 < first <= NFRAMES == |memory|
      ensures this.first == first && frames == memory && Valid()
      ensures g == Books([], map[], Range(first, NFRAMES))
    {
      this.first, frames, freelist, g := first, memory, 0, Books([], map[], Range(first, NFRAMES));
    }

    /** Memory in the middle of its life. */
    constructor Holding(first: nat, memory: Frames, freelist: nat, ghost g: Books)
      requires Sound(memory, freelist, g, first)
      ensures this.first == first && frames == memory && this.freelist == freelist && this.g == g && Valid()
    {
      this.first, frames, this.freelist, this.g := first, memory, freelist, g;
    }

    /** The part of walkpgdir that makes a missing table. */
    method AddTable(d: nat, i: nat) returns (t: nat)
      requires Valid() && IsDir(g.own, d) && i < ENTRIES && !Present(At(frames, d, i))
      modifies this
      ensures Valid() && SameMap(old(frames), frames, old(g.own)) && Kept(old(frames), frames, old(g.own))
      ensures Grew(old(g), g) && NewIn(old(g), g, d) && g.loose == old(g.loose)
      ensures KeptLoose(old(frames), frames, g.loose)
      ensures t == 0 ==> old(g.free) == [] && frames == old(frames) && g == old(g) && freelist == old(freelist)
      ensures t != 0 ==> At(frames, d, i) == Word(t, PTE_P + PTE_W + PTE_U)
      ensures t != 0 ==> HasW(At(frames, d, i).lo) && HasU(At(frames, d, i).lo)
    {
      t := Kalloc();
      if t != 0 {
        ghost var g1 := g;
        TableMade(frames, freelist, g, first, d, i, t);
        AllFlags();
        hide HasW;
        hide HasU;
        frames := Fill(frames, t, Word(0, 0));
        frames := Set(frames, d, i, Word(t, WithP(PTE_P + PTE_W + PTE_U)));
        g := g.(own := g.own[t := Table(d, i)], loose := g.loose - {t});
        assert g.loose == old(g.loose);
      }
    }

    /** walkpgdir without alloc: the page table of directory d for index i, or 0. */
    method Lookup(d: nat, i: nat) returns (t: nat)
      requires Valid() && IsDir(g.own, d) && i < ENTRIES
      ensures t != 0 <==> Present(At(frames, d, i))
      ensures t != 0 ==> At(frames, d, i).hi == t
      ensures t != 0 ==> HasW(At(frames, d, i).lo) && HasU(At(frames, d, i).lo)
    {
      assert g.own[d] == Dir;
      var pde := frames[d][i];
      if !Present(pde) {
        return 0;
      }
      assert HoldsTable(frames, g.own, d, i);
      assert g.own[pde.hi] == Table(d, i);
      return pde.hi;
    }

    /** walkpgdir: the page table of directory d for index i, made if it is missing; 0 if there is no memory for it. */
    method Walk(d: nat, i: nat) returns (t: nat)
      requires Valid() && IsDir(g.own, d) && i < ENTRIES
      modifies this
      ensures Valid() && SameMap(old(frames), frames, old(g.own)) && Kept(old(frames), frames, old(g.own))
      ensures Grew(old(g), g) && NewIn(old(g), g, d) && g.loose == old(g.loose)
      ensures KeptLoose(old(frames), frames, g.loose)
      ensures t == 0 ==> !Present(At(frames, d, i)) && old(g.free) == []
      ensures t != 0 ==> Present(At(frames, d, i)) && At(frames, d, i).hi == t
      ensures t != 0 ==> HasW(At(frames, d, i).lo) && HasU(At(frames, d, i).lo)
      ensures t == 0 || Present(At(old(frames), d, i)) ==>
                frames == old(frames) && g == old(g) && freelist == old(freelist)
    {
      t := Lookup(d, i);
      hide Sound;
      hide HasW;
      hide HasU;
      if t == 0 {
        hide SameMap;
        hide Kept;
        hide KeptLoose;
        hide Grew;
        hide NewIn;
        t := AddTable(d, i);
      }
    }

    /** Writes entry j of table t, which is table i of directory d. */
    method SetEntry(d: nat, i: nat, j: nat, t: nat, w: Word)
      requires Valid() && IsDir(g.own, d) && i < ENTRIES && j < ENTRIES && Present(At(frames, d, i))
      requires At(frames, d, i).hi == t
      requires Present(w) && Bound(frames, d, i, j) == None && (i < USERTABLES ==> w.hi in g.loose)
      modifies this`frames, this`g
      ensures Valid() && Kept(old(frames), frames, old(g.own)) && Grew(old(g), g) && NewIn(old(g), g, d)
      ensures BoundAt(old(frames), frames, old(g.own), d, i, j, w) && g == Owned(old(g), d, i, j, w.hi)
      ensures KeptLoose(old(frames), frames, old(g.loose))
    {
      EntrySet(frames, freelist, g, first, d, i, j, w);
      frames := Set(frames, t, j, w);
      g := Owned(g, d, i, j, w.hi);
    }

    /** One turn of the loop of mappages, for virtual page (i, j). */
    method MapOne(d: nat, i: nat, j: nat, pa: nat, perm: nat) returns (r: MapResult)
      requires Valid() && IsDir(g.own, d) && i < ENTRIES && j < ENTRIES && (i < USERTABLES ==> pa in g.loose)
      modifies this
      ensures Valid() && Kept(old(frames), frames, old(g.own)) && Grew(old(g), g) && NewIn(old(g), g, d)
      ensures r.Remap? <==> Bound(old(frames), d, i, j).Some?
      ensures r.NoMemory? ==> old(g.free) == []
      ensures !r.Mapped? ==> frames == old(frames) && g == old(g) && freelist == old(freelist)
      ensures r.Mapped? ==> BoundAt(old(frames), frames, old(g.own), d, i, j, Word(pa, WithP(perm)))
      ensures r.Mapped? ==> g.loose == old(g.loose) - (if i < USERTABLES then {pa} else {})
      ensures r.Mapped? && i < USERTABLES ==> pa in g.own && g.own[pa] == User(d, i, j)
      ensures KeptLoose(old(frames), frames, old(g.loose))
    {
      var t := Walk(d, i);
      if t == 0 {
        return NoMemory;
      }
      assert Bound(frames, d, i, j) == Bound(old(frames), d, i, j);
      if Present(At(frames, t, j)) {
        BoundInside(old(frames), d, i, j);
        return Remap;
      }
      ghost var fr1, g1 := frames, g;
      SetEntry(d, i, j, t, Word(pa, WithP(perm)));
      NewInTrans(old(g), g1, g, d);
      MapTwice(old(frames), fr1, frames, old(g), g1, g, d, i, j, Word(pa, WithP(perm)));
      return Mapped;
    }

    /** The body of the loop of mappages, for page a, the k-th of the range. */
    method MapTurn(ghost fr: Frames, ghost g0: Books, d: nat, ghost start: nat, ghost k: nat, ghost n: nat,
                   ghost pa: nat, perm: nat, a: nat, f: nat)
      returns (r: MapResult)
      requires Valid() && IsDir(g0.own, d) && start < PAGES && pa < PAGES && k < n <= PAGES && a == Plus(start, k)
      requires f == Plus(pa, k)
      requires Mapping(fr, g0, frames, g, d, start, k, n, pa, perm)
      modifies this
      ensures Valid() && Mapping(fr, g0, frames, g, d, start, if r.Mapped? then k + 1 else k, n, pa, perm)
      ensures r.Remap? <==> !Vacant(fr, d, start, k + 1)
      ensures r.NoMemory? ==> g.free == []
    {
      var i, j := Indices(a);
      NextBacked(g.loose, start, k, n, pa, i, j);
      assert g0.own[d] == Dir;
      ghost var fr1, g1 := frames, g;
      r := MapOne(d, i, j, f, perm);
      if r.Mapped? {
        MappingMore(fr, g0, fr1, g1, frames, g, d, start, k, n, pa, perm, i, j);
      } else {
        RemapFound(fr, fr1, g0.own, d, start, k, pa, perm, i, j);
      }
    }

    /** The loop of mappages, from page start to page last. */
    method MapRange(d: nat, start: nat, last: nat, pa: nat, perm: nat) returns (r: MapResult, ghost k: nat)
      requires Valid() && IsDir(g.own, d) && start < PAGES && last < PAGES && pa < PAGES
      requires Backed(g.loose, start, 0, Off(start, last) + 1, pa)
      modifies this
      ensures Valid() && k <= Off(start, last) + 1 && (r.Mapped? ==> k == Off(start, last) + 1)
      ensures Mapping(old(frames), old(g), frames, g, d, start, k, Off(start, last) + 1, pa, perm)
      ensures !r.Mapped? ==> k < Off(start, last) + 1 && (r.Remap? <==> !Vacant(old(frames), d, start, k + 1))
      ensures r.NoMemory? ==> g.free == []
    {
      hide Sound;
      hide Mapping;
      hide Backed;
      hide Vacant;
      var a, f := start, pa;
      k := 0;
      ghost var n := Off(start, last) + 1;
      MappingStarts(frames, g, d, start, n, pa, perm);
      while true
        invariant Valid() && k < n && a == Plus(start, k) && f == Plus(pa, k)
        invariant Mapping(old(frames), old(g), frames, g, d, start, k, n, pa, perm)
        decreases n - k
      {
        r := MapTurn(old(frames), old(g), d, start, k, n, pa, perm, a, f);
        if !r.Mapped? {
          return;
        }
        k := k + 1;
        if a == last {
          return;
        }
        a, f := Plus(a, 1), Plus(f, 1);
      }
    }

    /** Binds every page from that of va to that of va + size - 1 to consecutive frames; it stops, after k pages, at the
        first page already bound or for want of a frame for a table. */
    method MapPages(d: nat, va: nat, size: nat, pa: nat, perm: nat) returns (r: MapResult, ghost k: nat)
      requires Valid() && IsDir(g.own, d) && va < TWO32 && size < TWO32 && pa < PAGES
      requires Backed(g.loose, PageOf(va), 0, PageCount(va, size), pa)
      modifies this
      ensures Valid() && Grew(old(g), g) && NewIn(old(g), g, d) && Kept(old(frames), frames, old(g.own))
        && KeptLoose(old(frames), frames, old(g.loose))
      ensures k <= PageCount(va, size) && (r.Mapped? <==> k == PageCount(va, size))
      ensures Spread(old(frames), frames, old(g.own), d, PageOf(va), k, pa, perm)
      ensures Granted(frames, d, PageOf(va), k, pa, perm)
      ensures Vacant(old(frames), d, PageOf(va), k)
      ensures !r.Mapped? ==> (r.Remap? <==> !Vacant(old(frames), d, PageOf(va), k + 1))
      ensures r.NoMemory? ==> g.free == []
      ensures LooseToUser(old(g), g) && SameElsewhere(old(frames), frames, old(g.own), d)
    {
      r, k := MapRange(d, PageOf(va), PageOf(va + size + TWO32 - 1), pa, perm);
      SpreadElsewhere(old(frames), frames, old(g.own), d, PageOf(va), k, pa, perm);
      assert old(g.own)[d] == Dir;
      SpreadGranted(old(frames), frames, old(g.own), g.own, d, PageOf(va), k, pa, perm);
    }

    /** mappages on whole pages: n of them from page start on. */
    method MapWhole(d: nat, start: nat, n: nat, pa: nat, perm: nat) returns (r: MapResult)
      requires Valid() && IsDir(g.own, d) && 0 < n && start + n <= PAGES && PGSIZE * n < TWO32 && pa < PAGES
        && Backed(g.loose, start, 0, n, pa)
      modifies this
      ensures Valid() && Grew(old(g), g) && NewIn(old(g), g, d) && Kept(old(frames), frames, old(g.own))
        && KeptLoose(old(frames), frames, old(g.loose))
      ensures r.Mapped? ==> Spread(old(frames), frames, old(g.own), d, start, n, pa, perm)
      ensures r.Remap? ==> !Vacant(old(frames), d, start, n)
      ensures r.NoMemory? ==> g.free == []
      ensures SameElsewhere(old(frames), frames, old(g.own), d)
      ensures r.Mapped? && (KERNBASE <= start || n == 1) ==>
                g.loose == if KERNBASE <= start then old(g.loose) else old(g.loose) - {pa}
    {
      PageExact(start, n);
      ghost var k;
      r, k := MapPages(d, PGSIZE * start, PGSIZE * n, pa, perm);
      if r.Mapped? && (KERNBASE <= start || n == 1) {
        LooseAfter(old(frames), old(g), frames, g, first, d, start, n, pa, perm);
      }
    }

    /** One row of kmap is mapped into the new address space d. */
    method MapRow(ghost fr: Frames, ghost g0: Books, d: nat, ghost dp: nat, ghost lo: nat, start: nat, n: nat, pa: nat,
                  perm: nat)
      returns (ok: bool)
      requires Valid() && Apart(fr, g0, frames, g, d) && g.loose == g0.loose && KmapRow(dp, lo, start, n, pa, perm)
        && KernelUpTo(frames, d, dp, lo)
      modifies this
      ensures Valid() && Grew(g0, g)
      ensures ok ==> Apart(fr, g0, frames, g, d) && g.loose == g0.loose && KernelUpTo(frames, d, dp, start + n)
      ensures !ok ==> g.free == []
    {
      ghost var fr1, g1 := frames, g;
      KernelBacked(g.loose, start, n, pa);
      RowVacant(frames, d, dp, lo, start, n, pa, perm);
      var r := MapWhole(d, start, n, pa, perm);
      ok := r.Mapped?;
      GrewTrans(g0, g1, g);
      if ok {
        RowMapped(fr1, frames, g1.own, d, dp, lo, start, n, pa, perm);
        ApartMore(fr, g0, fr1, g1, frames, g, d);
      }
    }

    /** A new directory with an empty map. */
    method NewDir(ghost dp: nat) returns (d: nat)
      requires Valid()
      modifies this
      ensures Valid()
      ensures d == 0 ==> g == old(g) && old(g.free) == []
      ensures d != 0 ==>
                Apart(old(frames), old(g), frames, g, d) && g.loose == old(g.loose)
                    && KernelUpTo(frames, d, dp, KERNBASE)
    {
      d := Kalloc();
      if d != 0 {
        ghost var g1 := g;
        LooseWrite(frames, freelist, g, first, d, Fill(frames, d, Word(0, 0)));
        frames := Fill(frames, d, Word(0, 0));
        DirAdded(frames, freelist, g, first, d, dp);
        g := g.(own := g.own[d := Dir], loose := g.loose - {d});
        assert g.loose == old(g.loose);
      }
    }

    /** An address space with the kernel's mappings only, or 0; the remap panic cannot happen. */
    method SetupKvm(dp: nat) returns (d: nat)
      requires Valid() && EXTMEM < dp < NFRAMES
      modifies this
      ensures Valid() && Grew(old(g), g)
      ensures d == 0 ==> g.free == []
      ensures d != 0 ==>
                Apart(old(frames), old(g), frames, g, d) && g.loose == old(g.loose) && KernelUpTo(frames, d, dp, PAGES)
      ensures d != 0 ==> KernelAllowed(frames, d, dp)
    {
      d := NewDir(dp);
      if d == 0 {
        return;
      }
      var k := 0;
      while k < |Kmap(dp)|
        invariant k <= 4 && Valid() && Apart(old(frames), old(g), frames, g, d) && g.loose == old(g.loose)
          && KernelUpTo(frames, d, dp, Limit(dp, k))
      {
        var row := Kmap(dp)[k];
        KmapRows(dp, k);
        var ok := MapRow(old(frames), old(g), d, dp, Limit(dp, k), row.virt, row.n, row.phys, row.perm);
        if !ok {
          return 0;
        }
        k := k + 1;
      }
      KernelGranted(frames, g.own, d, dp);
    }

    /** Unbinds user page (i, j) of d and frees its frame. The two writes are to different frames; the entry's comes
        first here. */
    method DeallocPage(d: nat, i: nat, j: nat, t: nat) returns (panicked: bool, ghost f: nat)
      requires Valid() && IsDir(g.own, d) && i < USERTABLES && j < ENTRIES && Bound(frames, d, i, j).Some?
      requires At(frames, d, i).hi == t
      modifies this
      ensures Valid() && !panicked && f in old(g.own) && old(g.own)[f] == User(d, i, j)
      ensures g.own == old(g.own) - {f} && g.loose == old(g.loose) && All(g) == All(old(g))
      ensures FreeSet(g) == FreeSet(old(g)) + {f}
      ensures Unbound(old(frames), frames, old(g.own), d, Num(i, j), Num(i, j) + 1) && Kept(old(frames), frames, g.own)
      ensures forall k: nat {:trigger At(frames, d, k)} :: At(frames, d, k) == At(old(frames), d, k)
    {
      EntryCleared(frames, freelist, g, first, d, i, j);
      var pa := At(frames, t, j).hi;
      f := pa;
      frames := Set(frames, t, j, Word(0, 0));
      ghost var fr1, own1 := frames, g.own;
      g := g.(own := g.own - {f}, loose := g.loose + {f});
      assert own1[d] == Dir && own1[f] == User(d, i, j);
      if pa == 0 {
        return true, f;
      }
      panicked := Kfree(pa);
      assert g.loose == old(g.loose);
      UnboundKept(old(frames), fr1, frames, own1, f, d, Num(i, j), Num(i, j) + 1);
    }

    /** One turn of the loop of deallocuvm, at a page whose table is present. */
    method DeallocTurn(ghost fr: Frames, ghost g0: Books, d: nat, ghost lo: nat, ghost v: nat, i: nat, j: nat, t: nat)
        returns (panicked: bool)
      requires Valid() && Deallocated(fr, g0, frames, g, d, lo, v) && IsDir(g.own, d)
      requires i < USERTABLES && j < ENTRIES && v == Num(i, j) && lo <= v && Present(At(frames, d, i))
      requires At(frames, d, i).hi == t
      modifies this
      ensures Valid() && !panicked && Deallocated(fr, g0, frames, g, d, lo, v + 1) && IsDir(g.own, d)
      ensures Steady(frames, d, v + 1)
    {
      panicked := false;
      ghost var fr1, g1 := frames, g;
      if Present(At(frames, t, j)) {
        ghost var f;
        panicked, f := DeallocPage(d, i, j, t);
        DeallocMore(fr, g0, fr1, g1, frames, g, d, lo, v, i, j, f);
      } else {
        DeallocSkipOne(fr, g0, frames, g, d, lo, i, j);
      }
      SteadyNext(frames, d, i, j);
    }

    /** The body of the loop of deallocuvm at page v. */
    method DeallocStep(ghost fr: Frames, ghost g0: Books, d: nat, v: nat, ghost from: nat, ghost end: nat)
        returns (panicked: bool, next: nat)
      requires Valid() && IsDir(g.own, d) && v < end <= KERNBASE && Progress(fr, g0, frames, g, d, v, from, end)
      modifies this
      ensures Valid() && !panicked && IsDir(g.own, d) && v < next && Progress(fr, g0, frames, g, d, next, from, end)
    {
      hide Deallocated;
      var i, j := Indices(v);
      panicked := false;
      var t := Lookup(d, i);
      if t == 0 {
        HoleProgress(fr, g0, frames, g, d, i, j, from, end);
        next := v + ENTRIES;
      } else {
        HasBegun(fr, g0, frames, g, d, i, j, from, end);
        panicked := DeallocTurn(fr, g0, d, from, v, i, j, t);
        next := v + 1;
      }
    }

    /**
    Unbinds and frees the user pages from newsz, rounded up, to oldsz. It skips 4 MB whenever a page
    table is missing, so it may begin its work later than it should.
    */
    method DeallocUvm(d: nat, oldsz: nat, newsz: nat) returns (panicked: bool)
      requires Valid() && IsDir(g.own, d) && oldsz <= PGSIZE * KERNBASE
      modifies this
      ensures Valid() && !panicked && IsDir(g.own, d)
      ensures newsz < oldsz ==>
                Emptied(old(frames), old(g), frames, g, d, Begins(old(frames), d, RoundUp(newsz)), RoundUp(oldsz))
      ensures newsz >= oldsz ==> frames == old(frames) && g == old(g)
    {
      hide Sound;
      hide Deallocated;
      hide Begins;
      panicked := false;
      if newsz >= oldsz {
        return;
      }
      var v := RoundUp(newsz);
      ghost var from, end := Begins(frames, d, v), RoundUp(oldsz);
      RoundsUp(newsz, oldsz);
      ProgressStarts(frames, g, d, v, end);
      while PGSIZE * v < oldsz
        invariant Valid() && IsDir(g.own, d) && !panicked && Progress(old(frames), old(g), frames, g, d, v, from, end)
        decreases oldsz - PGSIZE * v
      {
        panicked, v := DeallocStep(old(frames), old(g), d, v, from, end);
      }
    }

    /** The last loop of freevm: every page table of d is freed, and then d. */
    method FreeTables(d: nat, ghost fr: Frames, ghost own: Owners, ghost loose: set<nat>) returns (panicked: bool)
      requires Valid() && Tabled(fr, own) && IsDir(own, d) && d !in loose && Freeing(fr, own, loose, frames, g, d, 0)
      requires forall f {:trigger own[f]} :: f in own ==> f !in loose
      modifies this
      ensures Valid() && !panicked && g.own == own - Space(own, d) && g.loose == loose && All(g) == All(old(g))
      ensures SameMap(fr, frames, g.own) && Kept(fr, frames, g.own)
    {
      panicked := false;
      assert own[d] == Dir;
      var i := 0;
      while i < ENTRIES
        invariant i <= ENTRIES && Valid() && !panicked && Freeing(fr, own, loose, frames, g, d, i)
        invariant All(g) == All(old(g))
      {
        panicked := FreeTable(d, i, fr, own, loose);
        i := i + 1;
      }
      LastOne(fr, own, loose, frames, g, d);
      ghost var fr1 := frames;
      panicked := Kfree(d);
    }

    /** Frees the page table of d at index i, if there is one. */
    method FreeTable(d: nat, i: nat, ghost fr: Frames, ghost own: Owners, ghost loose: set<nat>)
      returns (panicked: bool)
      requires Valid() && Tabled(fr, own) && IsDir(own, d) && Freeing(fr, own, loose, frames, g, d, i) && i < ENTRIES
      requires forall f {:trigger own[f]} :: f in own ==> f !in loose
      modifies this
      ensures Valid() && !panicked && Freeing(fr, own, loose, frames, g, d, i + 1) && All(g) == All(old(g))
    {
      panicked := false;
      FreeingNext(fr, own, loose, frames, g, d, i);
      var pde := At(frames, d, i);
      if Present(pde) {
        ghost var fr1, g1 := frames, g;
        assert own[pde.hi] == Table(d, i);
        panicked := Kfree(pde.hi);
        FreeingMore(fr, own, loose, fr1, g1, frames, g, d, i, pde.hi);
      }
    }

    /** freevm's call of deallocuvm, for the whole of the user's address space. */
    method EmptySpace(d: nat) returns (panicked: bool)
      requires Valid() && IsDir(g.own, d)
      modifies this
      ensures Valid() && !panicked && IsDir(g.own, d)
      ensures Deallocated(old(frames), old(g), frames, g, d, 0, Num(USERTABLES, 0))
    {
      hide Sound;
      hide Deallocated;
      panicked := DeallocUvm(d, PGSIZE * KERNBASE, 0);
      BeginsAtOnce(old(frames), d);
    }

    /** Frees every user page, every page table and the directory of d, each once, and nothing else. */
    method FreeVm(d: nat) returns (panicked: bool)
      requires Valid() && IsDir(g.own, d)
      modifies this
      ensures Valid() && !panicked
      ensures g.own == old(g.own) - Space(old(g.own), d) && g.loose == old(g.loose)
      ensures FreeSet(g) == FreeSet(old(g)) + Space(old(g.own), d) && All(g) == All(old(g))
      ensures SameMap(old(frames), frames, g.own) && Kept(old(frames), frames, g.own)
    {
      panicked := EmptySpace(d);
      ghost var fr1, g1 := frames, g;
      AllDoomed(old(frames), frames, old(g.own), g.own, d);
      Retire(frames, freelist, g, first, d);
      FreeingStarts(frames, g, d);
      g := g.(own := g.own - Space(g.own, d), loose := g.loose + Space(g.own, d));
      panicked := FreeTables(d, fr1, g1.own, g1.loose);
      FreeByAccount(old(g), g, first, Space(old(g.own), d));
      TornDown(old(frames), fr1, frames, old(g.own), g1.own, g.own, d, 0, Num(USERTABLES, 0));
    }

    /** A fresh frame with the contents of frame `from`. */
    method CopyFrameOf(from: nat) returns (mem: nat)
      requires Valid() && from < NFRAMES
      modifies this
      ensures Valid() && Grew(old(g), g) && g.own == old(g.own) && SameMap(old(frames), frames, g.own)
      ensures Kept(old(frames), frames, g.own)
      ensures mem == 0 ==> old(g.free) == []
      ensures mem != 0 ==>
                && mem < NFRAMES && mem in FreeSet(old(g)) && mem !in g.own && g.loose == old(g.loose) + {mem}
                && frames[mem] == old(frames)[from]
      ensures mem != 0 ==> mem !in old(g.loose)
    {
      mem := Kalloc();
      if mem != 0 {
        LooseWrite(frames, freelist, g, first, mem, CopyFrame(frames, from, mem));
        frames := CopyFrame(frames, from, mem);
      }
    }

    /** The body of the loop of copyuvm, for page v. */
    method CopyPage(ghost fr: Frames, ghost g0: Books, p: nat, c: nat, v: nat, ghost dp: nat) returns (r: CopyResult)
      requires Valid() && IsDir(g0.own, p) && |fr| == NFRAMES && v < KERNBASE && EXTMEM < dp < NFRAMES
      requires Apart(fr, g0, frames, g, c) && g.loose == g0.loose && Copies(fr, g0, frames, p, c, v, dp)
      modifies this
      ensures Valid() && Apart(fr, g0, frames, g, c)
      ensures r.Copied? ==> r.d == c && g.loose == g0.loose && Copies(fr, g0, frames, p, c, v + 1, dp)
      ensures r.Absent? ==> r.i < ENTRIES && r.j < ENTRIES && Num(r.i, r.j) == v && Bound(fr, p, r.i, r.j) == None
    {
      var i, j := Indices(v);
      assert g0.own[p] == Dir;
      var t := Lookup(p, i);
      ghost var was := Bound(fr, p, i, j);
      assert Bound(frames, p, i, j) == was;
      if t == 0 || !Present(At(frames, t, j)) {
        return Absent(i, j);
      }
      var pte := At(frames, t, j);
      r := CopyFrom(fr, g0, p, c, v, i, j, pte, dp);
    }

    /** The page has been found: its frame is copied and the copy bound. */
    method CopyFrom(ghost fr: Frames, ghost g0: Books, ghost p: nat, c: nat, v: nat, ghost i: nat, ghost j: nat,
                    pte: Word, ghost dp: nat)
      returns (r: CopyResult)
      requires Valid() && IsDir(g0.own, p) && |fr| == NFRAMES && v == Num(i, j) && i < USERTABLES && j < ENTRIES
      requires Apart(fr, g0, frames, g, c) && g.loose == g0.loose && Copies(fr, g0, frames, p, c, v, dp)
      requires Bound(fr, p, i, j) == Some(pte)
      modifies this
      ensures Valid() && Apart(fr, g0, frames, g, c) && (r.Copied? || r.NoRoom?)
      ensures r.Copied? ==> r.d == c && g.loose == g0.loose && Copies(fr, g0, frames, p, c, v + 1, dp)
    {
      SourceFrame(fr, g0, frames, g, p, c, i, j);
      ghost var fr1, g1 := frames, g;
      var mem := CopyFrameOf(pte.hi);
      ApartLoose(fr, g0, fr1, g1, frames, g, c);
      if mem == 0 {
        return NoRoom;
      }
      CopiesKept(fr, g0, fr1, g1.own, frames, p, c, v, dp);
      r := CopyBind(fr, g0, p, c, v, i, j, mem, pte, dp);
    }

    /** The second half of it: the frame mem, already filled, is bound to page v of c. */
    method CopyBind(ghost fr: Frames, ghost g0: Books, ghost p: nat, c: nat, v: nat, ghost i: nat, ghost j: nat,
                    mem: nat,
        pte: Word, ghost dp: nat)
      returns (r: CopyResult)
      requires Valid() && Apart(fr, g0, frames, g, c) && v == Num(i, j) && i < USERTABLES && j < ENTRIES
      requires mem < NFRAMES == |fr|
      requires Copies(fr, g0, frames, p, c, v, dp) && g.loose == g0.loose + {mem} && mem !in g0.loose
      requires mem in FreeSet(g0)
      requires Bound(fr, p, i, j) == Some(pte) && pte.hi < NFRAMES && frames[mem] == fr[pte.hi]
      modifies this
      ensures Valid() && Apart(fr, g0, frames, g, c) && (r.Copied? || r.NoRoom?)
      ensures r.Copied? ==> r.d == c && g.loose == g0.loose && Copies(fr, g0, frames, p, c, v + 1, dp)
    {
      ghost var fr2, g2 := frames, g;
      CopyVacant(fr, g0, frames, p, c, v, dp);
      OneBacked(g.loose, v, mem);
      var m := MapWhole(c, v, 1, mem, pte.lo);
      ApartMore(fr, g0, fr2, g2, frames, g, c);
      if !m.Mapped? {
        return NoRoom;
      }
      assert mem in g2.loose;
      CopyMore(fr, g0, fr2, g2, frames, p, c, v, i, j, mem, dp, pte);
      return Copied(c);
    }

    /** The loop of copyuvm over the n pages of p, the copy so far being the kernel's mappings. */
    method CopyPages(ghost fr: Frames, ghost g0: Books, p: nat, c: nat, n: nat, ghost dp: nat) returns (r: CopyResult)
      requires Valid() && IsDir(g0.own, p) && |fr| == NFRAMES && n <= KERNBASE && EXTMEM < dp < NFRAMES
      requires Apart(fr, g0, frames, g, c) && g.loose == g0.loose && Copies(fr, g0, frames, p, c, 0, dp)
      modifies this
      ensures Valid() && Apart(fr, g0, frames, g, c)
      ensures r.Copied? ==> r.d == c && g.loose == g0.loose && Copies(fr, g0, frames, p, c, n, dp)
      ensures r.Absent? ==> r.i < ENTRIES && r.j < ENTRIES && Num(r.i, r.j) < n && Bound(fr, p, r.i, r.j) == None
    {
      hide *;
      var v := 0;
      while v < n
        invariant v <= n && Valid() && Apart(fr, g0, frames, g, c) && g.loose == g0.loose
        invariant Copies(fr, g0, frames, p, c, v, dp)
      {
        r := CopyPage(fr, g0, p, c, v, dp);
        if !r.Copied? {
          return;
        }
        v := v + 1;
      }
      return Copied(c);
    }

    /** A copy of the address space p of sz bytes. */
    method CopyUvm(p: nat, sz: nat, dp: nat) returns (r: CopyResult)
      requires Valid() && IsDir(g.own, p) && sz <= PGSIZE * KERNBASE && EXTMEM < dp < NFRAMES
      modifies this
      ensures Valid()
      ensures r.Copied? ==> Apart(old(frames), old(g), frames, g, r.d) && g.loose == old(g.loose)
      ensures r.Copied? ==> Copies(old(frames), old(g), frames, p, r.d, RoundUp(sz), dp)
      ensures r.Copied? ==> SameAccess(old(frames), frames, p, r.d, RoundUp(sz), dp)
      ensures r.Absent? ==>
                r.i < ENTRIES && r.j < ENTRIES && Num(r.i, r.j) < RoundUp(sz) && Bound(old(frames), p, r.i, r.j) == None
    {
      ghost var fr0, g0 := frames, g;
      var d := SetupKvm(dp);
      if d == 0 {
        return NoRoom;
      }
      CopiesStart(fr0, g0, frames, p, d, dp);
      r := CopyPages(fr0, g0, p, d, RoundUp(sz), dp);
      if r.NoRoom? {
        var panicked := FreeVm(d);
      } else if r.Copied? {
        CopiesAccess(fr0, g0, frames, g.own, p, d, RoundUp(sz), dp);
      }
    }

    /** Copying an address space and freeing the copy gives every frame back. */
    method CopyThenFree(p: nat, sz: nat, dp: nat) returns (r: CopyResult, panicked: bool)
      requires Valid() && IsDir(g.own, p) && sz <= PGSIZE * KERNBASE && EXTMEM < dp < NFRAMES
      modifies this
      ensures Valid() && !panicked
      ensures r.Copied? ==> g.own == old(g.own) && g.loose == old(g.loose) && FreeSet(g) == FreeSet(old(g))
      ensures r.Copied? ==> SameMap(old(frames), frames, g.own) && Kept(old(frames), frames, g.own)
    {
      panicked := false;
      ghost var fr0, g0 := frames, g;
      r := CopyUvm(p, sz, dp);
      if r.Copied? {
        ghost var fr1, g1 := frames, g;
        panicked := FreeVm(r.d);
        assert All(g) == All(g1);
        Undone(fr0, g0, fr1, g1, g, first, r.d);
      }
    }
  }

  lemma SameMapRefl(fr: Frames, own: Owners)
    ensures SameMap(fr, fr, own)
  {
  }

  lemma SoundGranted(fr: Frames, head: nat, g: Books, first: nat, d: nat, dp: nat)
    requires Sound(fr, head, g, first) && IsDir(g.own, d) && KernelUpTo(fr, d, dp, PAGES)
    ensures KernelAllowed(fr, d, dp)
  {
    KernelGranted(fr, g.own, d, dp);
  }

  lemma KernelKept(fr: Frames, fr': Frames, own: Owners, d: nat, dp: nat)
    requires SameMap(fr, fr', own) && IsDir(own, d) && KernelUpTo(fr, d, dp, PAGES)
    ensures KernelUpTo(fr', d, dp, PAGES)
  {
    forall i: nat, j: nat | i < ENTRIES && j < ENTRIES
      ensures Bound(fr', d, i, j) == if Num(i, j) < PAGES then KernelEntry(dp, Num(i, j)) else None
    {
      assert Bound(fr', d, i, j) == Bound(fr, d, i, j);
    }
  }

  /** What is managed is either free or owned, when nothing is handed out for other purposes. */
  lemma AllUsed(g: Books)
    requires g.loose == {}
    ensures FreeSet(g) + g.own.Keys == All(g)
  {
  }

  /**
  main's order: the memory up to 4 MB, the kernel's page table, the rest. Every frame above
  the kernel image is then free or part of that table; d is 0 when there was no memory for it.
  */
  method Boot(end: nat, memory: Frames, dp: nat) returns (k: Kernel, d: nat, panicked: bool)
    requires |memory| == NFRAMES && 0 < end && RoundUp(end) <= 0x400 && EXTMEM < dp < NFRAMES
    ensures k.Valid() && !panicked && (d == 0 ==> k.g.free == [])
    ensures d != 0 ==>
              && k.g.loose == {} && FreeSet(k.g) + k.g.own.Keys == Range(RoundUp(end), NFRAMES)
              && IsDir(k.g.own, d) && KernelUpTo(k.frames, d, dp, PAGES) && KernelAllowed(k.frames, d, dp)
  {
    hide Sound;
    k := new Kernel(RoundUp(end), memory);
    ghost var all := All(k.g);
    assert all == Range(RoundUp(end), NFRAMES) by {
      assert FreeSet(k.g) == {};
    }
    panicked := k.FreeRange(end, PGSIZE * 0x400);
    d := k.SetupKvm(dp);
    if d == 0 {
      return;
    }
    ghost var fr := k.frames;
    panicked := k.FreeRange(PGSIZE * 0x400, PGSIZE * NFRAMES);
    KernelKept(fr, k.frames, k.g.own, d, dp);
    SoundGranted(k.frames, k.freelist, k.g, k.first, d, dp);
    assert k.g.loose == {};
    AllUsed(k.g);
  }

  /** The pages that overlap the size bytes from va on, when there are any and they do not wrap. */
  lemma PagesCovered(va: nat, size: nat, v: nat)
    requires va < TWO32 && 0 < size && va + size <= TWO32 && v < PAGES
    ensures var start, n := PageOf(va), PageCount(va, size);
            n <= PAGES && (Off(start, v) < n <==> PGSIZE * v < va + size && va < PGSIZE * (v + 1))
  {
    var s, e := PageOf(va), PageOf(va + size + TWO32 - 1);
    assert (va + size - 1 + TWO32) % TWO32 == va + size - 1;
    assert PGSIZE * s <= va < PGSIZE * (s + 1) && PGSIZE * e <= va + size - 1 < PGSIZE * (e + 1);
  }

  /** How many pages mappages goes through, from the page of va to the page of va + size - 1. */
  function PageCount(va: nat, size: nat): (n: nat)
    ensures 0 < n <= PAGES
  {
    Off(PageOf(va), PageOf(va + size + TWO32 - 1)) + 1
  }

  lemma PageExact(p: nat, n: nat)
    requires p + n <= PAGES && 0 < n
    ensures PGSIZE * p < TWO32 && PageOf(PGSIZE * p) == p && PageOf(PGSIZE * p + PGSIZE * n + TWO32 - 1) == p + n - 1
      && PageCount(PGSIZE * p, PGSIZE * n) == n
  {
    var a := PGSIZE * p + PGSIZE * n + TWO32 - 1;
    assert a % TWO32 == PGSIZE * (p + n - 1) + (PGSIZE - 1);
  }

  lemma GrewTrans(g0: Books, g1: Books, g2: Books)
    requires Grew(g0, g1) && Grew(g1, g2)
    ensures Grew(g0, g2)
  {
  }

  /** PGROUNDUP, as a page number. */
  function RoundUp(sz: nat): nat
  {
    (sz + PGSIZE - 1) / PGSIZE
  }

  lemma RoundsUp(newsz: nat, oldsz: nat)
    requires newsz < oldsz <= PGSIZE * KERNBASE
    ensures RoundUp(newsz) <= RoundUp(oldsz) <= KERNBASE
    ensures forall v: nat {:trigger PGSIZE * v} :: PGSIZE * v < oldsz <==> v < RoundUp(oldsz)
  {
  }

  lemma UnboundKept(fr: Frames, fr1: Frames, fr2: Frames, own: Owners, f: nat, d: nat, lo: nat, hi: nat)
    requires Unbound(fr, fr1, own, d, lo, hi) && f in own && !own[f].Dir? && SameMap(fr1, fr2, own - {f})
    ensures Unbound(fr, fr2, own, d, lo, hi)
  {
    forall d': nat, i: nat, j: nat | IsDir(own, d') && i < ENTRIES && j < ENTRIES
      ensures Bound(fr2, d', i, j) == if d' == d && lo <= Num(i, j) < hi then None else Bound(fr, d', i, j)
    {
      assert IsDir(own - {f}, d');
      assert Bound(fr2, d', i, j) == Bound(fr1, d', i, j);
    }
  }

  lemma OneBacked(loose: set<nat>, v: nat, mem: nat)
    requires v < KERNBASE && mem in loose && mem < PAGES
    ensures Backed(loose, v, 0, 1, mem)
  {
  }

  /** The frame a page is copied from has not changed since the copying began. */
  lemma SourceFrame(fr: Frames, g0: Books, fr': Frames, g': Books, p: nat, c: nat, i: nat, j: nat)
    requires Peopled(fr', g'.own) && Tabled(fr', g'.own) && IsDir(g0.own, p) && i < USERTABLES
    requires Bound(fr, p, i, j).Some?
    requires Apart(fr, g0, fr', g', c)
    ensures var f := Bound(fr, p, i, j).pte.hi; f < |fr| && f < |fr'| && fr'[f] == fr[f]
  {
    assert g0.own[p] == Dir;
    var f := Bound(fr, p, i, j).pte.hi;
    assert Bound(fr', p, i, j) == Bound(fr, p, i, j);
    assert HoldsUser(fr', g'.own, p, i, j);
    assert g'.own[f] == User(p, i, j);
    assert f in g0.own;
    assert g0.own[f] == g'.own[f];
  }

  lemma BoundInside(fr: Frames, d: nat, i: nat, j: nat)
    requires Bound(fr, d, i, j).Some?
    ensures Present(At(fr, d, i))
  {
  }

  lemma MapTwice(fr: Frames, fr1: Frames, fr2: Frames, g: Books, g1: Books, g2: Books, d: nat, i: nat, j: nat, w: Word)
    requires SameMap(fr, fr1, g.own) && BoundAt(fr1, fr2, g1.own, d, i, j, w) && Grew(g, g1) && Grew(g1, g2)
    requires Kept(fr, fr1, g.own) && Kept(fr1, fr2, g1.own)
    ensures BoundAt(fr, fr2, g.own, d, i, j, w) && Grew(g, g2) && Kept(fr, fr2, g.own)
  {
    forall d': nat, i': nat, j': nat | IsDir(g.own, d')
      ensures Bound(fr2, d', i', j') == if d' == d && i' == i && j' == j then Some(w) else Bound(fr, d', i', j')
    {
      assert g.own[d'] == Dir;
      assert IsDir(g1.own, d');
    }
  }
}
