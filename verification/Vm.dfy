/**
Page-table management (vm.c) over the frames of kalloc.c.
*/
module Vm {
  import opened PageTables
  import opened FrameAlloc

  /** Memory, its free list and its accounting agree. */
  ghost predicate Sound(fr: Frames, head: nat, g: Books, first: nat)
  {
    && 0 < first <= NFRAMES == |fr|
    && Chain(fr, head, g.free) && Pooled(g, first) && Tabled(fr, g.own) && Peopled(fr, g.own)
  }

  /** The user frames of own hold what they held. */
  ghost predicate Kept(fr: Frames, fr': Frames, own: Owners)
  {
    |fr'| == |fr| && forall f {:trigger own[f]} :: f in own && own[f].User? && f < |fr| ==> fr'[f] == fr[f]
  }

  /** So do frames handed out for other purposes. */
  ghost predicate KeptLoose(fr: Frames, fr': Frames, loose: set<nat>)
  {
    |fr'| == |fr| && forall f {:trigger f in loose} :: f in loose && f < |fr| ==> fr'[f] == fr[f]
  }

  /** Nothing was freed and no owner changed; frames only came into use. */
  ghost predicate Grew(g: Books, g': Books)
  {
    && (forall f {:trigger g.own[f]} :: f in g.own ==> f in g'.own && g'.own[f] == g.own[f])
    && FreeSet(g') <= FreeSet(g) && All(g') == All(g)
  }

  /** Frame f is part of the address space of directory d. */
  ghost predicate Of(own: Owners, f: nat, d: nat)
    requires f in own
  {
    f == d || (!own[f].Dir? && own[f].d == d)
  }

  /** Every frame that has come into use is part of d's address space. */
  ghost predicate NewIn(g: Books, g': Books, d: nat)
  {
    forall f {:trigger g'.own[f]} :: f in g'.own && f !in g.own ==> Of(g'.own, f, d)
  }

  lemma NewInTrans(g0: Books, g1: Books, g2: Books, d: nat)
    requires NewIn(g0, g1, d) && NewIn(g1, g2, d) && Grew(g1, g2)
    ensures NewIn(g0, g2, d)
  {
    forall f | f in g2.own && f !in g0.own ensures Of(g2.own, f, d) {
      if f in g1.own {
        assert Of(g1.own, f, d);
        assert g1.own[f] == g2.own[f];
      }
    }
  }

  /** A write to a frame that is neither free nor part of any page table. */
  lemma LooseWrite(fr: Frames, head: nat, g: Books, first: nat, f: nat, fr': Frames)
    requires Sound(fr, head, g, first) && f in g.loose && |fr'| == |fr|
    requires forall x: nat, k: nat {:trigger At(fr', x, k)} :: x != f ==> At(fr', x, k) == At(fr, x, k)
    ensures Sound(fr', head, g, first) && SameMap(fr, fr', g.own)
  {
    ForeignWrite(fr, g.own, f, fr');
    PeopledKept(fr, g.own, fr', g.own);
    ChainKept(fr, head, g.free, fr');
  }

  /** A zeroed frame becomes the missing table i of directory d. */
  lemma TableAdded(fr: Frames, head: nat, g: Books, first: nat, d: nat, i: nat, f: nat)
    requires Sound(fr, head, g, first) && f in g.loose && IsDir(g.own, d) && i < ENTRIES && !Present(At(fr, d, i))
    requires forall j: nat {:trigger At(fr, f, j)} :: At(fr, f, j) == Word(0, 0)
    ensures d < |fr|
    ensures var fr', g' := Set(fr, d, i, Word(f, WithP(PTE_P + PTE_W + PTE_U))),
            g.(own := g.own[f := Table(d, i)], loose := g.loose - {f});
            Sound(fr', head, g', first) && SameMap(fr, fr', g.own) && Grew(g, g') && NewIn(g, g', d)
  {
    var fr', g' := Set(fr, d, i, Word(f, WithP(PTE_P + PTE_W + PTE_U))),
        g.(own := g.own[f := Table(d, i)], loose := g.loose - {f});
    hide HasW;
    hide HasU;
    NewTable(fr, g.own, d, i, f);
    hide Tabled;
    PeopledKept(fr, g.own, fr', g'.own);
    hide Peopled;
    assert g.own[d] == Dir;
    ChainKept(fr, head, g.free, fr');
    hide Chain;
    TablePooled(g, first, d, i, f);
  }

  lemma TablePooled(g: Books, first: nat, d: nat, i: nat, f: nat)
    requires Pooled(g, first) && f in g.loose
    ensures var g' := g.(own := g.own[f := Table(d, i)], loose := g.loose - {f});
            Pooled(g', first) && Grew(g, g') && NewIn(g, g', d)
  {
    var g' := g.(own := g.own[f := Table(d, i)], loose := g.loose - {f});
    assert All(g') == All(g);
  }

  /** The memory after a fresh frame f is zeroed and made table i of directory d. */
  function WithTable(fr: Frames, d: nat, i: nat, f: nat): Frames
    requires d < |fr| && f < |fr| && i < ENTRIES
  {
    Set(Fill(fr, f, Word(0, 0)), d, i, Word(f, WithP(PTE_P + PTE_W + PTE_U)))
  }

  lemma TableKept(fr: Frames, g: Books, d: nat, i: nat, f: nat)
    requires d < |fr| && f < |fr| && i < ENTRIES && IsDir(g.own, d) && f !in g.own && d !in g.loose
    ensures Kept(fr, WithTable(fr, d, i, f), g.own) && KeptLoose(fr, WithTable(fr, d, i, f), g.loose - {f})
  {
  }

  /** walkpgdir makes a table out of a frame just allocated. */
  lemma TableMade(fr: Frames, head: nat, g: Books, first: nat, d: nat, i: nat, f: nat)
    requires Sound(fr, head, g, first) && f in g.loose && IsDir(g.own, d) && i < ENTRIES && !Present(At(fr, d, i))
    ensures d < |fr| && f < |fr|
    ensures var fr', g' := WithTable(fr, d, i, f), g.(own := g.own[f := Table(d, i)], loose := g.loose - {f});
            Sound(fr', head, g', first) && SameMap(fr, fr', g.own) && Grew(g, g') && NewIn(g, g', d)
                && Kept(fr, fr', g.own)
            && At(fr', d, i) == Word(f, WithP(PTE_P + PTE_W + PTE_U)) && KeptLoose(fr, fr', g.loose - {f})
  {
    var fr1 := Fill(fr, f, Word(0, 0));
    assert g.own[d] == Dir && f !in g.own && d !in g.loose && d < |fr| && f < |fr|;
    hide Sound;
    hide SameMap;
    hide Grew;
    hide NewIn;
    hide Kept;
    hide KeptLoose;
    TableKept(fr, g, d, i, f);
    LooseWrite(fr, head, g, first, f, fr1);
    TableAdded(fr1, head, g, first, d, i, f);
    SameMapTrans(fr, fr1, WithTable(fr, d, i, f), g.own);
  }

  /** An entry of a present table is set, and its frame, if a user page's, gets its owner. */
  lemma EntrySet(fr: Frames, head: nat, g: Books, first: nat, d: nat, i: nat, j: nat, w: Word)
    requires Sound(fr, head, g, first) && IsDir(g.own, d) && i < ENTRIES && j < ENTRIES && Present(At(fr, d, i))
    requires Present(w) && Bound(fr, d, i, j) == None && (i < USERTABLES ==> w.hi in g.loose)
    ensures At(fr, d, i).hi < |fr|
    ensures var fr', g' := Set(fr, At(fr, d, i).hi, j, w), Owned(g, d, i, j, w.hi);
            && Sound(fr', head, g', first) && Grew(g, g') && NewIn(g, g', d) && Kept(fr, fr', g.own)
            && BoundAt(fr, fr', g.own, d, i, j, w) && KeptLoose(fr, fr', g.loose)
  {
    var t := At(fr, d, i).hi;
    TableWrite(fr, g.own, d, i, j, w);
    var fr', g' := Set(fr, t, j, w), Owned(g, d, i, j, w.hi);
    PeopledMore(fr, g.own, fr', d, i, j, w);
    ChainKept(fr, head, g.free, fr');
    TabledMore(fr', g.own, g'.own, w.hi, User(d, i, j));
    OwnedPooled(g, first, d, i, j, w.hi);
  }

  lemma OwnedPooled(g: Books, first: nat, d: nat, i: nat, j: nat, f: nat)
    requires Pooled(g, first) && (i < USERTABLES ==> f in g.loose)
    ensures Pooled(Owned(g, d, i, j, f), first) && Grew(g, Owned(g, d, i, j, f)) && NewIn(g, Owned(g, d, i, j, f), d)
  {
    assert All(Owned(g, d, i, j, f)) == All(g);
  }

  /** The books after frame f becomes page (i, j) of directory d, if that is a user page. */
  ghost function Owned(g: Books, d: nat, i: nat, j: nat, f: nat): Books
  {
    if i < USERTABLES then g.(own := g.own[f := User(d, i, j)], loose := g.loose - {f}) else g
  }

  /** The map has changed at page (i, j) of d only, which is now bound to w. */
  ghost predicate BoundAt(fr: Frames, fr': Frames, own: Owners, d: nat, i: nat, j: nat, w: Word)
  {
    forall d': nat, i': nat, j': nat {:trigger Bound(fr', d', i', j')} :: IsDir(own, d') ==>
      Bound(fr', d', i', j') == if d' == d && i' == i && j' == j then Some(w) else Bound(fr, d', i', j')
  }

  /** Owning one more user frame does not disturb the tables. */
  lemma TabledMore(fr: Frames, own: Owners, own': Owners, f: nat, u: Use)
    requires Tabled(fr, own) && (own' == own || (0 < f < |fr| && f !in own && u.User? && own' == own[f := u]))
    ensures Tabled(fr, own')
  {
    forall d: nat, i: nat | IsDir(own', d) && i < ENTRIES && Present(At(fr, d, i)) ensures HoldsTable(fr, own', d, i) {
      assert IsDir(own, d);
      assert HoldsTable(fr, own, d, i);
    }
    forall g | g in own' && own'[g].Table? ensures InDir(fr, own', g) {
      assert InDir(fr, own, g);
    }
  }

  // ---- Ranges of pages ----

  function Num(i: nat, j: nat): nat
  {
    ENTRIES * i + j
  }

  /** How far page v lies after page start, going round at the top of the address space. */
  function Off(start: nat, v: nat): int
  {
    if start <= v then v - start else v + PAGES - start
  }

  /** Page or frame number a plus k, in 32-bit addresses. */
  function Plus(a: nat, k: nat): nat
  {
    if a + k < PAGES then a + k else a + k - PAGES
  }

  /** The n pages from start on are bound to consecutive frames from pa on, and nothing else has changed. */
  ghost predicate Spread(fr: Frames, fr': Frames, own: Owners, d: nat, start: nat, n: int, pa: nat, perm: nat)
    requires 0 <= n <= PAGES && start < PAGES && pa < PAGES
  {
    forall d': nat, i': nat, j': nat {:trigger Bound(fr', d', i', j')} ::
        IsDir(own, d') && i' < ENTRIES && j' < ENTRIES ==>
      Bound(fr', d', i', j') == Target(fr, d, start, n, pa, perm, d', i', j')
  }

  ghost function Target(fr: Frames, d: nat, start: nat, n: int, pa: nat, perm: nat, d': nat, i': nat, j': nat): Entry
    requires 0 <= n <= PAGES && start < PAGES && pa < PAGES && i' < ENTRIES && j' < ENTRIES
  {
    var k := Off(start, Num(i', j'));
    if d' == d && k < n then Some(Word(Plus(pa, k), WithP(perm))) else Bound(fr, d', i', j')
  }

  /** No page of the range was bound before. */
  ghost predicate Vacant(fr: Frames, d: nat, start: nat, n: int)
    requires 0 <= n <= PAGES && start < PAGES
  {
    forall i: nat, j: nat {:trigger Bound(fr, d, i, j)} :: i < ENTRIES && j < ENTRIES && Off(start, Num(i, j)) < n ==>
      Bound(fr, d, i, j) == None
  }

  /** The user pages among those from the k-th on will be given frames nobody else has. */
  ghost predicate Backed(loose: set<nat>, start: nat, k: int, n: int, pa: nat)
    requires 0 <= k <= n <= PAGES && start < PAGES && pa < PAGES
  {
    forall v: nat {:trigger Off(start, v)} :: v < Num(USERTABLES, 0) && k <= Off(start, v) < n ==>
        Plus(pa, Off(start, v)) in loose
  }

  lemma SpreadMore(fr: Frames, fr1: Frames, fr2: Frames, own: Owners, d: nat, start: nat, k: nat, pa: nat, perm: nat,
                   i: nat, j: nat)
    requires k < PAGES && start < PAGES && pa < PAGES && i < ENTRIES && j < ENTRIES && Num(i, j) == Plus(start, k)
    requires Spread(fr, fr1, own, d, start, k, pa, perm)
    requires BoundAt(fr1, fr2, own, d, i, j, Word(Plus(pa, k), WithP(perm)))
    ensures Spread(fr, fr2, own, d, start, k + 1, pa, perm)
  {
    forall d': nat, i': nat, j': nat | IsDir(own, d') && i' < ENTRIES && j' < ENTRIES
      ensures Bound(fr2, d', i', j') == Target(fr, d, start, k + 1, pa, perm, d', i', j')
    {
      assert Bound(fr1, d', i', j') == Target(fr, d, start, k, pa, perm, d', i', j');
      assert Off(start, Num(i', j')) == k <==> (i' == i && j' == j);
    }
  }

  lemma VacantMore(fr: Frames, d: nat, start: nat, k: nat, i: nat, j: nat)
    requires k < PAGES && start < PAGES && i < ENTRIES && j < ENTRIES && Num(i, j) == Plus(start, k)
    requires Vacant(fr, d, start, k) && Bound(fr, d, i, j) == None
    ensures Vacant(fr, d, start, k + 1)
  {
    forall i': nat, j': nat | i' < ENTRIES && j' < ENTRIES && Off(start, Num(i', j')) < k + 1
      ensures Bound(fr, d, i', j') == None
    {
      assert Off(start, Num(i', j')) == k <==> (i' == i && j' == j);
    }
  }

  /** The directory and table indices of a page number. */
  method Indices(v: nat) returns (i: nat, j: nat)
    requires v < PAGES
    ensures i < ENTRIES && j < ENTRIES && Num(i, j) == v
  {
    i, j := v / ENTRIES, v % ENTRIES;
  }

  /** Frames that are no longer loose have become user pages. */
  ghost predicate LooseToUser(g: Books, g': Books)
  {
    && (forall f {:trigger f in g'.loose} :: f in g'.loose ==> f in g.loose)
    && (forall f {:trigger f in g.loose} :: f in g.loose && f !in g'.loose ==> f in g'.own && g'.own[f].User?)
  }

  /** mappages has bound the first k of n pages. */
  ghost predicate Mapping(fr: Frames, g: Books, fr': Frames, g': Books, d: nat, start: nat, k: nat, n: nat, pa: nat,
                          perm: nat)
    requires start < PAGES && pa < PAGES && k <= n <= PAGES
  {
    && Grew(g, g') && NewIn(g, g', d) && Kept(fr, fr', g.own) && Spread(fr, fr', g.own, d, start, k, pa, perm)
    && Vacant(fr, d, start, k)
    && Backed(g'.loose, start, k, n, pa) && LooseToUser(g, g') && KeptLoose(fr, fr', g.loose)
  }

  lemma MappingStarts(fr: Frames, g: Books, d: nat, start: nat, n: nat, pa: nat, perm: nat)
    requires start < PAGES && pa < PAGES && n <= PAGES && Backed(g.loose, start, 0, n, pa)
    ensures Mapping(fr, g, fr, g, d, start, 0, n, pa, perm)
  {
  }

  /** One more page bound. */
  lemma MappingMore(fr: Frames, g: Books, fr1: Frames, g1: Books, fr2: Frames, g2: Books,
                    d: nat, start: nat, k: nat, n: nat, pa: nat, perm: nat, i: nat, j: nat)
    requires start < PAGES && pa < PAGES && k < n <= PAGES && i < ENTRIES && j < ENTRIES && Num(i, j) == Plus(start, k)
    requires Mapping(fr, g, fr1, g1, d, start, k, n, pa, perm) && IsDir(g.own, d)
    requires Grew(g1, g2) && NewIn(g1, g2, d) && Kept(fr1, fr2, g1.own)
      && BoundAt(fr1, fr2, g1.own, d, i, j, Word(Plus(pa, k), WithP(perm)))
    requires Bound(fr1, d, i, j) == None && g2.loose == g1.loose - (if i < USERTABLES then {Plus(pa, k)} else {})
    requires KeptLoose(fr1, fr2, g1.loose) && (i < USERTABLES ==> Plus(pa, k) in g2.own && g2.own[Plus(pa, k)].User?)
    ensures Mapping(fr, g, fr2, g2, d, start, k + 1, n, pa, perm)
  {
    assert BoundAt(fr1, fr2, g.own, d, i, j, Word(Plus(pa, k), WithP(perm))) by {
      forall d': nat, i': nat, j': nat | IsDir(g.own, d')
        ensures Bound(fr2, d', i', j') ==
          if d' == d && i' == i && j' == j then Some(Word(Plus(pa, k), WithP(perm))) else Bound(fr1, d', i', j')
      {
        assert g.own[d'] == Dir;
        assert IsDir(g1.own, d');
      }
    }
    NewInTrans(g, g1, g2, d);
    SpreadMore(fr, fr1, fr2, g.own, d, start, k, pa, perm, i, j);
    assert Bound(fr, d, i, j) == None by {
      assert Bound(fr1, d, i, j) == Target(fr, d, start, k, pa, perm, d, i, j);
    }
    VacantMore(fr, d, start, k, i, j);
    BackedLess(g1.loose, g2.loose, start, k, n, pa, i);
    LooseStays(fr, fr1, fr2, g, g1, g2);
  }

  lemma LooseStays(fr: Frames, fr1: Frames, fr2: Frames, g: Books, g1: Books, g2: Books)
    requires KeptLoose(fr, fr1, g.loose) && KeptLoose(fr1, fr2, g1.loose) && Kept(fr1, fr2, g1.own) && Grew(g1, g2)
    requires LooseToUser(g, g1) && LooseToUser(g1, g2)
    ensures KeptLoose(fr, fr2, g.loose) && LooseToUser(g, g2)
  {
    forall f | f in g.loose
      ensures (f < |fr| ==> fr2[f] == fr[f]) && (f !in g2.loose ==> f in g2.own && g2.own[f].User?)
    {
      if f !in g1.loose {
        assert g1.own[f].User?;
      }
    }
  }

  /** With a single user page mapped, its frame is the only one that has ceased to be loose. */
  lemma LooseAfter(fr: Frames, g: Books, fr': Frames, g': Books, first: nat, d: nat, start: nat, n: nat, pa: nat,
                   perm: nat)
    requires Pooled(g, first) && Pooled(g', first) && Peopled(fr, g.own) && Peopled(fr', g'.own)
    requires start < PAGES && pa < PAGES && 0 < n <= PAGES && IsDir(g.own, d)
    requires Grew(g, g') && NewIn(g, g', d) && LooseToUser(g, g') && Spread(fr, fr', g.own, d, start, n, pa, perm)
    requires start + n <= PAGES && (KERNBASE <= start || n == 1)
    ensures g'.loose == if KERNBASE <= start then g.loose else g.loose - {pa}
  {
    forall f | f in g.loose && f !in g'.loose ensures f == pa && start < KERNBASE {
      UserFrom(fr, g, fr', g', d, start, n, pa, perm, f);
    }
    if start < KERNBASE {
      assert g.own[d] == Dir;
      MappedOwned(fr, fr', g.own, g'.own, d, start, n, pa, perm);
      assert g'.own[pa].User?;
    }
  }

  lemma MappedOwned(fr: Frames, fr': Frames, own: Owners, own': Owners, d: nat, start: nat, n: nat, pa: nat, perm: nat)
    requires start < KERNBASE && pa < PAGES && 0 < n <= PAGES && IsDir(own, d) && IsDir(own', d)
    requires Peopled(fr', own') && Spread(fr, fr', own, d, start, n, pa, perm)
    ensures pa in own' && own'[pa].User?
  {
    var i, j := start / ENTRIES, start % ENTRIES;
    assert Num(i, j) == start && i < USERTABLES;
    assert Bound(fr', d, i, j) == Target(fr, d, start, n, pa, perm, d, i, j);
    assert HoldsUser(fr', own', d, i, j);
  }

  /** A frame that has become a user page of d is one of those just mapped. */
  lemma UserFrom(fr: Frames, g: Books, fr': Frames, g': Books, d: nat, start: nat, n: nat, pa: nat, perm: nat, f: nat)
    requires Peopled(fr, g.own) && Peopled(fr', g'.own) && start < PAGES && pa < PAGES && 0 < n <= PAGES
    requires IsDir(g.own, d)
    requires NewIn(g, g', d) && Spread(fr, fr', g.own, d, start, n, pa, perm) && f !in g.own && f in g'.own
    requires g'.own[f].User? && f != d
    requires start + n <= PAGES && (KERNBASE <= start || n == 1)
    ensures f == pa && start < KERNBASE
  {
    var u := g'.own[f];
    assert Of(g'.own, f, d);
    assert InTable(fr', g'.own, f);
    assert Bound(fr', d, u.i, u.j) == Target(fr, d, start, n, pa, perm, d, u.i, u.j);
    assert Bound(fr, d, u.i, u.j).Some? ==> HoldsUser(fr, g.own, d, u.i, u.j);
  }

  lemma BackedLess(loose: set<nat>, loose': set<nat>, start: nat, k: nat, n: nat, pa: nat, i: nat)
    requires start < PAGES && pa < PAGES && k < n <= PAGES && Backed(loose, start, k, n, pa)
    requires loose' == loose - if i < USERTABLES then {Plus(pa, k)} else {}
    ensures Backed(loose', start, k + 1, n, pa)
  {
  }

  /** The next page is backed by a frame of its own if it is a user page. */
  lemma NextBacked(loose: set<nat>, start: nat, k: nat, n: nat, pa: nat, i: nat, j: nat)
    requires start < PAGES && pa < PAGES && k < n <= PAGES && Backed(loose, start, k, n, pa)
    requires i < ENTRIES && j < ENTRIES && Num(i, j) == Plus(start, k)
    ensures i < USERTABLES ==> Plus(pa, k) in loose
  {
    assert Off(start, Num(i, j)) == k;
  }

  /** The page after the first k, which are mapped now, was bound before exactly when it is bound now. */
  lemma RemapFound(fr: Frames, fr1: Frames, own: Owners, d: nat, start: nat, k: nat, pa: nat, perm: nat, i: nat, j: nat)
    requires start < PAGES && pa < PAGES && k < PAGES && i < ENTRIES && j < ENTRIES && Num(i, j) == Plus(start, k)
    requires IsDir(own, d) && Spread(fr, fr1, own, d, start, k, pa, perm) && Vacant(fr, d, start, k)
    ensures Bound(fr1, d, i, j).Some? <==> !Vacant(fr, d, start, k + 1)
  {
    assert Bound(fr1, d, i, j) == Target(fr, d, start, k, pa, perm, d, i, j);
    assert Off(start, Num(i, j)) == k;
    if Bound(fr, d, i, j) == None {
      VacantMore(fr, d, start, k, i, j);
    }
  }

  // ---- The kernel's half ----

  const KERNBASE := 0x80000  // page number of KERNBASE
  const DEVSPACE := 0xFE000  // page number of DEVSPACE
  const EXTMEM := 256        // frame number of EXTMEM

  /** The entry every address space has for page v, dp being the frame where the kernel's data begin. */
  function KernelEntry(dp: nat, v: nat): Entry
  {
    if KERNBASE <= v < KERNBASE + NFRAMES then
      Some(Word(v - KERNBASE, if EXTMEM <= v - KERNBASE < dp then PTE_P else PTE_W + PTE_P))
    else if DEVSPACE <= v < PAGES then Some(Word(v, PTE_W + PTE_P))
    else None
  }

  /** Directory d maps the kernel's pages below limit and nothing else. */
  ghost predicate KernelUpTo(fr: Frames, d: nat, dp: nat, limit: nat)
  {
    forall i: nat, j: nat {:trigger Bound(fr, d, i, j)} :: i < ENTRIES && j < ENTRIES ==>
      Bound(fr, d, i, j) == if Num(i, j) < limit then KernelEntry(dp, Num(i, j)) else None
  }

  /** One row of kmap: it maps what it should, and nothing of it was mapped. */
  ghost predicate KmapRow(dp: nat, lo: nat, start: nat, n: nat, pa: nat, perm: nat)
  {
    && KERNBASE <= lo <= start && start + n <= PAGES && 0 < n && pa + n <= PAGES && pa < PAGES
    && (forall v {:trigger KernelEntry(dp, v)} :: lo <= v < start ==> KernelEntry(dp, v) == None)
    && (forall v {:trigger KernelEntry(dp, v)} :: start <= v < start + n ==>
        KernelEntry(dp, v) == Some(Word(pa + v - start, WithP(perm))))
  }

  datatype Row = Row(virt: nat, n: nat, phys: nat, perm: nat)

  /** The table kmap, in pages: I/O space, kernel text, kernel data and free memory, devices. */
  function Kmap(dp: nat): (rows: seq<Row>)
    requires EXTMEM < dp < NFRAMES
    ensures |rows| == 4
  {
    [Row(KERNBASE, EXTMEM, 0, PTE_W),
     Row(KERNBASE + EXTMEM, dp - EXTMEM, EXTMEM, 0),
     Row(KERNBASE + dp, NFRAMES - dp, dp, PTE_W),
     Row(DEVSPACE, PAGES - DEVSPACE, DEVSPACE, PTE_W)]
  }

  /** Where the rows before the k-th end. */
  function Limit(dp: nat, k: nat): nat
    requires EXTMEM < dp < NFRAMES && k <= 4
  {
    if k == 0 then KERNBASE else Kmap(dp)[k - 1].virt + Kmap(dp)[k - 1].n
  }

  /** The rows are disjoint, in order, and together map exactly the kernel's pages. */
  lemma KmapRows(dp: nat, k: nat)
    requires EXTMEM < dp < NFRAMES && k < 4
    ensures var r := Kmap(dp)[k];
            KmapRow(dp, Limit(dp, k), r.virt, r.n, r.phys, r.perm) && Limit(dp, k + 1) == r.virt + r.n
    ensures Limit(dp, 4) == PAGES
  {
  }

  lemma RowVacant(fr: Frames, d: nat, dp: nat, lo: nat, start: nat, n: nat, pa: nat, perm: nat)
    requires KmapRow(dp, lo, start, n, pa, perm) && KernelUpTo(fr, d, dp, lo)
    ensures Vacant(fr, d, start, n)
  {
  }

  lemma RowMapped(fr: Frames, fr': Frames, own: Owners, d: nat, dp: nat, lo: nat, start: nat, n: nat, pa: nat,
                  perm: nat)
    requires KmapRow(dp, lo, start, n, pa, perm) && KernelUpTo(fr, d, dp, lo) && IsDir(own, d)
      && Spread(fr, fr', own, d, start, n, pa, perm)
    ensures KernelUpTo(fr', d, dp, start + n)
  {
    forall i: nat, j: nat | i < ENTRIES && j < ENTRIES
      ensures Bound(fr', d, i, j) == if Num(i, j) < start + n then KernelEntry(dp, Num(i, j)) else None
    {
      assert Bound(fr', d, i, j) == Target(fr, d, start, n, pa, perm, d, i, j);
      assert Bound(fr, d, i, j) == if Num(i, j) < lo then KernelEntry(dp, Num(i, j)) else None;
    }
  }

  lemma KernelBacked(loose: set<nat>, start: nat, n: nat, pa: nat)
    requires KERNBASE <= start && start + n <= PAGES && pa < PAGES && start < PAGES
    ensures Backed(loose, start, 0, n, pa)
  {
  }

  /** The map of every directory but d is what it was. */
  ghost predicate SameElsewhere(fr: Frames, fr': Frames, own: Owners, d: nat)
  {
    forall d': nat, i: nat, j: nat {:trigger Bound(fr', d', i, j)} :: IsDir(own, d') && d' != d ==>
      Bound(fr', d', i, j) == Bound(fr, d', i, j)
  }

  lemma SpreadElsewhere(fr: Frames, fr': Frames, own: Owners, d: nat, start: nat, n: nat, pa: nat, perm: nat)
    requires n <= PAGES && start < PAGES && pa < PAGES && Spread(fr, fr', own, d, start, n, pa, perm)
    ensures SameElsewhere(fr, fr', own, d)
  {
    forall d': nat, i: nat, j: nat | IsDir(own, d') && d' != d ensures Bound(fr', d', i, j) == Bound(fr, d', i, j) {
      if i < ENTRIES && j < ENTRIES {
        assert Bound(fr', d', i, j) == Target(fr, d, start, n, pa, perm, d', i, j);
      }
    }
  }

  /** A zeroed frame becomes a directory with an empty map. */
  lemma DirAdded(fr: Frames, head: nat, g: Books, first: nat, f: nat, dp: nat)
    requires Sound(fr, head, g, first) && f in g.loose
    requires forall j: nat {:trigger At(fr, f, j)} :: At(fr, f, j) == Word(0, 0)
    ensures var g' := g.(own := g.own[f := Dir], loose := g.loose - {f});
            Sound(fr, head, g', first) && Grew(g, g') && NewIn(g, g', f) && KernelUpTo(fr, f, dp, KERNBASE)
  {
    var g' := g.(own := g.own[f := Dir], loose := g.loose - {f});
    assert f !in g.own;
    assert Tabled(fr, g'.own) by {
      forall d: nat, i: nat | IsDir(g'.own, d) && i < ENTRIES && Present(At(fr, d, i))
        ensures HoldsTable(fr, g'.own, d, i)
      {
        assert d != f;
        assert IsDir(g.own, d);
        assert HoldsTable(fr, g.own, d, i);
      }
      forall x | x in g'.own && g'.own[x].Table? ensures InDir(fr, g'.own, x) {
        assert InDir(fr, g.own, x);
      }
    }
    DirPeopled(fr, g.own, f);
    assert All(g') == All(g);
  }

  lemma DirPeopled(fr: Frames, own: Owners, f: nat)
    requires Peopled(fr, own) && f !in own && forall j: nat {:trigger At(fr, f, j)} :: At(fr, f, j) == Word(0, 0)
    ensures Peopled(fr, own[f := Dir])
  {
    var own' := own[f := Dir];
    forall d: nat, i: nat, j: nat | IsDir(own', d) && i < USERTABLES && Bound(fr, d, i, j).Some?
      ensures HoldsUser(fr, own', d, i, j)
    {
      assert IsDir(own, d);
      assert HoldsUser(fr, own, d, i, j);
    }
    forall x | x in own' && own'[x].User? ensures InTable(fr, own', x) {
      assert InTable(fr, own, x);
    }
  }

  /** An address space d made since (fr, g), which nothing of before has noticed. */
  ghost predicate Apart(fr: Frames, g: Books, fr': Frames, g': Books, d: nat)
  {
    && Grew(g, g') && NewIn(g, g', d) && SameMap(fr, fr', g.own) && Kept(fr, fr', g.own)
    && d !in g.own && d in FreeSet(g) && IsDir(g'.own, d)
  }

  lemma ApartMore(fr: Frames, g: Books, fr1: Frames, g1: Books, fr2: Frames, g2: Books, d: nat)
    requires Apart(fr, g, fr1, g1, d) && Grew(g1, g2) && NewIn(g1, g2, d) && Kept(fr1, fr2, g1.own)
    requires SameElsewhere(fr1, fr2, g1.own, d)
    ensures Apart(fr, g, fr2, g2, d)
  {
    forall d': nat, i: nat, j: nat | IsDir(g.own, d') ensures Bound(fr2, d', i, j) == Bound(fr, d', i, j) {
      assert g.own[d'] == Dir;
      assert IsDir(g1.own, d');
    }
    assert g1.own[d] == Dir;
    NewInTrans(g, g1, g2, d);
  }

  /** Handing a frame out, and filling it, goes unnoticed too. */
  lemma ApartLoose(fr: Frames, g: Books, fr1: Frames, g1: Books, fr2: Frames, g2: Books, d: nat)
    requires Apart(fr, g, fr1, g1, d) && Grew(g1, g2) && g2.own == g1.own && SameMap(fr1, fr2, g1.own)
    requires Kept(fr1, fr2, g1.own)
    ensures Apart(fr, g, fr2, g2, d)
  {
    forall d': nat, i: nat, j: nat | IsDir(g.own, d') ensures Bound(fr2, d', i, j) == Bound(fr, d', i, j) {
      assert g.own[d'] == Dir;
      assert IsDir(g1.own, d');
    }
  }

  // ---- Copies ----

  /** Page (i, j) of directory c has the flags and the bytes of the same page of p, in a frame that was free in g. */
  ghost predicate PageCopied(fr: Frames, g: Books, fr': Frames, p: nat, c: nat, i: nat, j: nat)
  {
    && Bound(fr, p, i, j).Some? && Bound(fr', c, i, j).Some?
    && var theirs, ours := Bound(fr, p, i, j).pte, Bound(fr', c, i, j).pte;
       ours.lo == theirs.lo && ours.hi in FreeSet(g) && ours.hi < |fr'| && theirs.hi < |fr|
           && fr'[ours.hi] == fr[theirs.hi]
  }

  /** The pages of p below v have been copied to c, which otherwise maps the kernel only. */
  ghost predicate Copies(fr: Frames, g: Books, fr': Frames, p: nat, c: nat, v: nat, dp: nat)
  {
    forall i: nat, j: nat {:trigger CopyAt(fr, g, fr', p, c, v, dp, i, j)} :: i < ENTRIES && j < ENTRIES ==>
      CopyAt(fr, g, fr', p, c, v, dp, i, j)
  }

  ghost predicate CopyAt(fr: Frames, g: Books, fr': Frames, p: nat, c: nat, v: nat, dp: nat, i: nat, j: nat)
  {
    if Num(i, j) < v then PageCopied(fr, g, fr', p, c, i, j) else Bound(fr', c, i, j) == KernelEntry(dp, Num(i, j))
  }

  lemma CopiesStart(fr: Frames, g: Books, fr': Frames, p: nat, c: nat, dp: nat)
    requires KernelUpTo(fr', c, dp, PAGES)
    ensures Copies(fr, g, fr', p, c, 0, dp)
  {
    forall i: nat, j: nat | i < ENTRIES && j < ENTRIES ensures CopyAt(fr, g, fr', p, c, 0, dp, i, j) {
      assert Bound(fr', c, i, j) == if Num(i, j) < PAGES then KernelEntry(dp, Num(i, j)) else None;
    }
  }

  /** The next page is vacant in the copy. */
  lemma CopyVacant(fr: Frames, g: Books, fr': Frames, p: nat, c: nat, v: nat, dp: nat)
    requires Copies(fr, g, fr', p, c, v, dp) && v < KERNBASE
    ensures Vacant(fr', c, v, 1)
  {
    forall i: nat, j: nat {:trigger Bound(fr', c, i, j)} | i < ENTRIES && j < ENTRIES && Off(v, Num(i, j)) < 1
      ensures Bound(fr', c, i, j) == None
    {
      assert CopyAt(fr, g, fr', p, c, v, dp, i, j);
    }
  }

  /** A page already copied stays so while its frame and its entry do. */
  lemma CopyStays(fr: Frames, g: Books, fr1: Frames, own: Owners, fr2: Frames, p: nat, c: nat, i: nat, j: nat)
    requires PageCopied(fr, g, fr1, p, c, i, j) && Peopled(fr1, own) && IsDir(own, c) && i < USERTABLES
    requires Kept(fr1, fr2, own) && Bound(fr2, c, i, j) == Bound(fr1, c, i, j)
    ensures PageCopied(fr, g, fr2, p, c, i, j)
  {
    assert HoldsUser(fr1, own, c, i, j);
    assert own[Bound(fr1, c, i, j).pte.hi].User?;
  }

  lemma CopiesKept(fr: Frames, g: Books, fr1: Frames, own: Owners, fr2: Frames, p: nat, c: nat, v: nat, dp: nat)
    requires Copies(fr, g, fr1, p, c, v, dp) && v <= KERNBASE && Peopled(fr1, own) && IsDir(own, c)
    requires SameMap(fr1, fr2, own)
      && Kept(fr1, fr2, own)
    ensures Copies(fr, g, fr2, p, c, v, dp)
  {
    forall i: nat, j: nat | i < ENTRIES && j < ENTRIES ensures CopyAt(fr, g, fr2, p, c, v, dp, i, j) {
      assert CopyAt(fr, g, fr1, p, c, v, dp, i, j);
      assert Bound(fr2, c, i, j) == Bound(fr1, c, i, j);
      if Num(i, j) < v {
        assert PageCopied(fr, g, fr1, p, c, i, j);
        CopyStays(fr, g, fr1, own, fr2, p, c, i, j);
      }
    }
  }

  /** One more page copied. */
  lemma CopyMore(fr: Frames, g: Books, fr1: Frames, g1: Books, fr2: Frames, p: nat, c: nat, v: nat, i: nat, j: nat,
                 mem: nat,
      dp: nat, w: Word)
    requires Copies(fr, g, fr1, p, c, v, dp) && v == Num(i, j) && i < USERTABLES && j < ENTRIES && Peopled(fr1, g1.own)
    requires IsDir(g1.own, c)
    requires Kept(fr1, fr2, g1.own) && mem < NFRAMES && Spread(fr1, fr2, g1.own, c, v, 1, mem, w.lo) && Present(w)
    requires Bound(fr, p, i, j) == Some(w) && w.hi < |fr| && mem in FreeSet(g) && mem < |fr2| && fr2[mem] == fr[w.hi]
    ensures Copies(fr, g, fr2, p, c, v + 1, dp)
  {
    var next := v + 1;
    forall i': nat, j': nat | i' < ENTRIES && j' < ENTRIES ensures CopyAt(fr, g, fr2, p, c, next, dp, i', j') {
      assert CopyAt(fr, g, fr1, p, c, v, dp, i', j');
      assert Bound(fr2, c, i', j') == Target(fr1, c, v, 1, mem, w.lo, c, i', j');
      if Num(i', j') < v {
        assert PageCopied(fr, g, fr1, p, c, i', j');
        CopyStays(fr, g, fr1, g1.own, fr2, p, c, i', j');
      } else if Num(i', j') == v {
        assert i' == i && j' == j;
      }
    }
  }

  // ---- Rights ----

  /** The n pages from start on are in consecutive frames from pa on, with the rights of perm. */
  ghost predicate Granted(fr: Frames, d: nat, start: nat, n: int, pa: nat, perm: nat)
    requires 0 <= n <= PAGES && start < PAGES && pa < PAGES
  {
    forall i: nat, j: nat {:trigger Allows(fr, d, i, j)} :: i < ENTRIES && j < ENTRIES && Off(start, Num(i, j)) < n ==>
      Allows(fr, d, i, j) == Access(Plus(pa, Off(start, Num(i, j))), HasU(perm), HasW(perm))
  }

  lemma SpreadGranted(fr: Frames, fr': Frames, own: Owners, own': Owners, d: nat, start: nat, n: int, pa: nat,
                      perm: nat)
    requires 0 <= n <= PAGES && start < PAGES && pa < PAGES && Spread(fr, fr', own, d, start, n, pa, perm)
    requires Tabled(fr', own') && IsDir(own, d) && IsDir(own', d)
    ensures Granted(fr', d, start, n, pa, perm)
  {
    OtherFlags(perm);
    forall i: nat, j: nat {:trigger Allows(fr', d, i, j)} | i < ENTRIES && j < ENTRIES && Off(start, Num(i, j)) < n
      ensures Allows(fr', d, i, j) == Access(Plus(pa, Off(start, Num(i, j))), HasU(perm), HasW(perm))
    {
      AllowsRights(fr', own', d, i, j);
      assert Bound(fr', d, i, j) == Target(fr, d, start, n, pa, perm, d, i, j);
    }
  }

  /** What every address space allows at page v from KERNBASE on: only the kernel, and no writing to its text. */
  function KernelAccess(dp: nat, v: nat): Access
  {
    if KERNBASE <= v < KERNBASE + NFRAMES then Access(v - KERNBASE, false, !(EXTMEM <= v - KERNBASE < dp))
    else if DEVSPACE <= v < PAGES then Access(v, false, true)
    else NoAccess
  }

  ghost predicate KernelAllowed(fr: Frames, d: nat, dp: nat)
  {
    forall i: nat, j: nat {:trigger Allows(fr, d, i, j)} :: i < ENTRIES && j < ENTRIES ==>
      Allows(fr, d, i, j) == KernelAccess(dp, Num(i, j))
  }

  lemma KernelGranted(fr: Frames, own: Owners, d: nat, dp: nat)
    requires KernelUpTo(fr, d, dp, PAGES) && Tabled(fr, own) && IsDir(own, d)
    ensures KernelAllowed(fr, d, dp)
  {
    forall i: nat, j: nat {:trigger Allows(fr, d, i, j)} | i < ENTRIES && j < ENTRIES
      ensures Allows(fr, d, i, j) == KernelAccess(dp, Num(i, j))
    {
      AllowsRights(fr, own, d, i, j);
      assert Bound(fr, d, i, j) == if Num(i, j) < PAGES then KernelEntry(dp, Num(i, j)) else None;
    }
  }

  /** At every page below v the copy c allows what p allowed, in a frame of its own; above, what the kernel may. */
  ghost predicate SameAccess(fr: Frames, fr': Frames, p: nat, c: nat, v: nat, dp: nat)
  {
    forall i: nat, j: nat {:trigger Allows(fr', c, i, j)} :: i < ENTRIES && j < ENTRIES ==>
      if Num(i, j) < v then AccessCopied(Allows(fr, p, i, j), Allows(fr', c, i, j))
      else Allows(fr', c, i, j) == KernelAccess(dp, Num(i, j))
  }

  predicate AccessCopied(a: Access, b: Access)
  {
    a.Access? && b.Access? && b.user == a.user && b.write == a.write && b.frame != a.frame
  }

  lemma CopiesAccess(fr: Frames, g: Books, fr': Frames, own': Owners, p: nat, c: nat, v: nat, dp: nat)
    requires Copies(fr, g, fr', p, c, v, dp) && v <= KERNBASE && Tabled(fr, g.own) && Tabled(fr', own')
    requires IsDir(g.own, p) && IsDir(own', c) && Peopled(fr, g.own)
    requires forall f {:trigger g.own[f]} :: f in g.own ==> f !in FreeSet(g)
    ensures SameAccess(fr, fr', p, c, v, dp)
  {
    forall i: nat, j: nat {:trigger Allows(fr', c, i, j)} | i < ENTRIES && j < ENTRIES
      ensures if Num(i, j) < v then AccessCopied(Allows(fr, p, i, j), Allows(fr', c, i, j))
              else Allows(fr', c, i, j) == KernelAccess(dp, Num(i, j))
    {
      AllowsRights(fr, g.own, p, i, j);
      AllowsRights(fr', own', c, i, j);
      assert CopyAt(fr, g, fr', p, c, v, dp, i, j);
      if Num(i, j) < v {
        assert PageCopied(fr, g, fr', p, c, i, j);
        assert HoldsUser(fr, g.own, p, i, j);
      }
    }
  }
}
