/**
Taking address spaces down (vm.c: deallocuvm, freevm), as changes of memory and its accounting.
*/
module Teardown {
  import opened PageTables
  import opened FrameAlloc
  import opened Vm

  /** Frame f was a user page of d between page lo and page hi. */
  ghost predicate Doomed(own: Owners, d: nat, lo: nat, hi: nat, f: nat)
  {
    f in own && own[f].User? && own[f].d == d && lo <= Num(own[f].i, own[f].j) < hi
  }

  /** The map after the user pages of d from lo up to hi are unbound. */
  ghost predicate Unbound(fr: Frames, fr': Frames, own: Owners, d: nat, lo: nat, hi: nat)
  {
    forall d': nat, i: nat, j: nat {:trigger Bound(fr', d', i, j)} :: IsDir(own, d') && i < ENTRIES && j < ENTRIES ==>
      Bound(fr', d', i, j) == if d' == d && lo <= Num(i, j) < hi then None else Bound(fr, d', i, j)
  }

  /** The owners after that: only frames of those pages have been given up. */
  ghost predicate Released(own: Owners, own': Owners, d: nat, lo: nat, hi: nat)
  {
    && (forall f {:trigger own'[f]} :: f in own' ==> f in own && own'[f] == own[f])
    && (forall f {:trigger own[f]} :: f in own && f !in own' ==> Doomed(own, d, lo, hi, f))
  }

  /** No frame is lost; those given up are free, since nothing else is loose. */
  ghost predicate Returned(g: Books, g': Books)
  {
    g'.loose == g.loose && All(g') == All(g)
  }

  /** deallocuvm has dealt with the pages of d from lo up to v. */
  ghost predicate Deallocated(fr: Frames, g: Books, fr': Frames, g': Books, d: nat, lo: nat, v: nat)
  {
    Unbound(fr, fr', g.own, d, lo, v) && Released(g.own, g'.own, d, lo, v) && Returned(g, g') && Kept(fr, fr', g'.own)
  }

  lemma DeallocStarts(fr: Frames, g: Books, d: nat, lo: nat)
    ensures Deallocated(fr, g, fr, g, d, lo, lo)
  {
  }

  /** The entry of a user page is cleared and its frame handed back to the kernel. */
  lemma EntryCleared(fr: Frames, head: nat, g: Books, first: nat, d: nat, i: nat, j: nat)
    requires Sound(fr, head, g, first) && IsDir(g.own, d) && i < USERTABLES && j < ENTRIES && Bound(fr, d, i, j).Some?
    ensures Present(At(fr, d, i)) && At(fr, d, i).hi < |fr| && Present(At(fr, At(fr, d, i).hi, j))
    ensures var f, fr' := Bound(fr, d, i, j).pte.hi, Set(fr, At(fr, d, i).hi, j, Word(0, 0));
            && f in g.own && g.own[f] == User(d, i, j)
            && var g' := g.(own := g.own - {f}, loose := g.loose + {f});
               Sound(fr', head, g', first) && All(g') == All(g) && Kept(fr, fr', g.own)
               && Unbound(fr, fr', g.own, d, Num(i, j), Num(i, j) + 1)
  {
    var t := At(fr, d, i).hi;
    TableWrite(fr, g.own, d, i, j, Word(0, 0));
    var f, fr' := Bound(fr, d, i, j).pte.hi, Set(fr, t, j, Word(0, 0));
    PeopledLess(fr, g.own, fr', d, i, j);
    var g' := g.(own := g.own - {f}, loose := g.loose + {f});
    TabledLess(fr', g.own, f);
    ChainKept(fr, head, g.free, fr');
    LoosenPooled(g, first, f);
    UnboundOne(fr, fr', g.own, d, i, j);
  }

  lemma UnboundOne(fr: Frames, fr': Frames, own: Owners, d: nat, i: nat, j: nat)
    requires i < ENTRIES && j < ENTRIES
    requires forall d': nat, i': nat, j': nat {:trigger Bound(fr', d', i', j')} :: IsDir(own, d') ==>
               Bound(fr', d', i', j') == if d' == d && i' == i && j' == j then None else Bound(fr, d', i', j')
    ensures Unbound(fr, fr', own, d, Num(i, j), Num(i, j) + 1)
  {
  }

  lemma LoosenPooled(g: Books, first: nat, f: nat)
    requires Pooled(g, first) && f in g.own
    ensures var g' := g.(own := g.own - {f}, loose := g.loose + {f}); Pooled(g', first) && All(g') == All(g)
  {
    var g' := g.(own := g.own - {f}, loose := g.loose + {f});
    assert All(g') == All(g);
  }

  lemma TabledLess(fr: Frames, own: Owners, f: nat)
    requires Tabled(fr, own) && f in own && own[f].User?
    ensures Tabled(fr, own - {f})
  {
    var own' := own - {f};
    forall d: nat, i: nat | IsDir(own', d) && i < ENTRIES && Present(At(fr, d, i)) ensures HoldsTable(fr, own', d, i) {
      assert IsDir(own, d);
      assert HoldsTable(fr, own, d, i);
    }
    forall x | x in own' && own'[x].Table? ensures InDir(fr, own', x) {
      assert InDir(fr, own, x);
    }
  }

  /** One more page of d has been unbound and its frame freed. */
  lemma DeallocMore(fr: Frames, g: Books, fr1: Frames, g1: Books, fr2: Frames, g2: Books, d: nat, lo: nat, v: nat,
                    i: nat, j: nat, f: nat)
    requires Deallocated(fr, g, fr1, g1, d, lo, v)
    requires i < ENTRIES && j < ENTRIES && v == Num(i, j) && lo <= v && f in g1.own && g1.own[f] == User(d, i, j)
    requires Unbound(fr1, fr2, g1.own, d, v, v + 1) && g2.own == g1.own - {f} && Returned(g1, g2)
    requires Kept(fr1, fr2, g2.own)
    ensures Deallocated(fr, g, fr2, g2, d, lo, v + 1)
  {
    forall x | x in g.own && x !in g2.own ensures Doomed(g.own, d, lo, v + 1, x) {
      assert x == f || Doomed(g.own, d, lo, v, x);
    }
    forall d': nat, i': nat, j': nat | IsDir(g.own, d') && i' < ENTRIES && j' < ENTRIES
      ensures Bound(fr2, d', i', j') == if d' == d && lo <= Num(i', j') < v + 1 then None else Bound(fr, d', i', j')
    {
      assert g.own[d'] == Dir;
      assert IsDir(g1.own, d');
      assert Bound(fr1, d', i', j') == if d' == d && lo <= Num(i', j') < v then None else Bound(fr, d', i', j');
    }
  }

  /** Pages that are not bound need no work. */
  lemma DeallocSkip(fr: Frames, g: Books, fr1: Frames, g1: Books, d: nat, lo: nat, v: nat, w: nat)
    requires Deallocated(fr, g, fr1, g1, d, lo, v) && lo <= v <= w
    requires forall i: nat, j: nat {:trigger Bound(fr1, d, i, j)} ::
              i < ENTRIES && j < ENTRIES && v <= Num(i, j) < w ==>
      Bound(fr1, d, i, j) == None
    ensures Deallocated(fr, g, fr1, g1, d, lo, w)
  {
  }

  lemma DeallocSkipOne(fr: Frames, g: Books, fr1: Frames, g1: Books, d: nat, lo: nat, i: nat, j: nat)
    requires i < ENTRIES && j < ENTRIES && lo <= Num(i, j)
    requires Deallocated(fr, g, fr1, g1, d, lo, Num(i, j)) && Bound(fr1, d, i, j) == None
    ensures Deallocated(fr, g, fr1, g1, d, lo, Num(i, j) + 1)
  {
    forall i': nat, j': nat {:trigger Bound(fr1, d, i', j')} | i' < ENTRIES && j' < ENTRIES
        && Num(i, j) <= Num(i', j') < Num(i, j) + 1
      ensures Bound(fr1, d, i', j') == None
    {
      assert i' == i && j' == j;
    }
    DeallocSkip(fr, g, fr1, g1, d, lo, Num(i, j), Num(i, j) + 1);
  }

  /** A missing table lets the pages up to w, all within it, be skipped. */
  lemma DeallocSkipTable(fr: Frames, g: Books, fr1: Frames, g1: Books, d: nat, lo: nat, i: nat, w: nat)
    requires i < ENTRIES && lo <= Num(i, 0) <= w <= Num(i, 0) + ENTRIES && !Present(At(fr1, d, i))
    requires Deallocated(fr, g, fr1, g1, d, lo, Num(i, 0))
    ensures Deallocated(fr, g, fr1, g1, d, lo, w)
  {
    NoTable(fr1, d, i);
    DeallocSkip(fr, g, fr1, g1, d, lo, Num(i, 0), w);
  }

  /** Whoever starts at page v does so at the first page of a table, or where a table is present. */
  ghost predicate Steady(fr: Frames, d: nat, v: nat)
  {
    forall i: nat, j: nat {:trigger StandsAt(fr, d, i, j)} :: j < ENTRIES && Num(i, j) == v ==> StandsAt(fr, d, i, j)
  }

  ghost predicate StandsAt(fr: Frames, d: nat, i: nat, j: nat)
  {
    j == 0 || Present(At(fr, d, i))
  }

  /** After page (i, j) of a table that is present, one is still steady. */
  lemma SteadyNext(fr: Frames, d: nat, i: nat, j: nat)
    requires j < ENTRIES && Present(At(fr, d, i))
    ensures Steady(fr, d, Num(i, j) + 1)
  {
  }

  lemma SteadyTable(fr: Frames, d: nat, i: nat)
    ensures Steady(fr, d, Num(i, 0) + ENTRIES)
  {
  }

  /** The 4 MB skip: a steady walk meets a missing table at its first page. */
  lemma HoleSkipped(fr: Frames, g: Books, fr1: Frames, g1: Books, d: nat, lo: nat, v: nat, i: nat, j: nat, end: nat)
    returns (w: nat)
    requires i < ENTRIES && j < ENTRIES && v == Num(i, j) && lo <= v < end && Steady(fr1, d, v)
    requires !Present(At(fr1, d, i))
    requires Deallocated(fr, g, fr1, g1, d, lo, v)
    ensures w == (if v + ENTRIES < end then v + ENTRIES else end) && Deallocated(fr, g, fr1, g1, d, lo, w)
    ensures Steady(fr1, d, v + ENTRIES)
  {
    w := if v + ENTRIES < end then v + ENTRIES else end;
    assert StandsAt(fr1, d, i, j);
    DeallocSkipTable(fr, g, fr1, g1, d, lo, i, w);
    SteadyTable(fr1, d, i);
  }

  /**
  Where deallocuvm begins its work when it starts at page v: as long as it stands inside a table that is missing,
  it goes on by 4 MB at a time.
  */
  ghost function Begins(fr: Frames, d: nat, v: nat): (w: nat)
    ensures v <= w && (w < KERNBASE ==> Steady(fr, d, w))
    decreases KERNBASE - v
  {
    if v >= KERNBASE || Steady(fr, d, v) then v else Begins(fr, d, v + ENTRIES)
  }

  lemma BeginsAtOnce(fr: Frames, d: nat)
    ensures Begins(fr, d, 0) == 0
  {
  }

  /** deallocuvm has come to page v; its work begins at page from. */
  ghost predicate Progress(fr: Frames, g: Books, fr1: Frames, g1: Books, d: nat, v: nat, from: nat, end: nat)
  {
    if v < from || end <= from then fr1 == fr && g1 == g && (v < from ==> Begins(fr, d, v) == from)
    else Deallocated(fr, g, fr1, g1, d, from, if v < end then v else end) && (v < end ==> Steady(fr1, d, v))
  }

  lemma ProgressStarts(fr: Frames, g: Books, d: nat, v: nat, end: nat)
    requires v <= end <= KERNBASE
    ensures Progress(fr, g, fr, g, d, v, Begins(fr, d, v), end)
  {
    DeallocStarts(fr, g, d, v);
  }

  lemma UnsteadyAt(fr: Frames, d: nat, i: nat, j: nat)
    requires j < ENTRIES && !Steady(fr, d, Num(i, j))
    ensures !Present(At(fr, d, i))
  {
    var i': nat, j': nat :| j' < ENTRIES && Num(i', j') == Num(i, j) && !StandsAt(fr, d, i', j');
    assert i' == i && j' == j;
  }

  /** Where there is a table, the work has begun. */
  lemma HasBegun(fr: Frames, g: Books, fr1: Frames, g1: Books, d: nat, i: nat, j: nat, from: nat, end: nat)
    requires Progress(fr, g, fr1, g1, d, Num(i, j), from, end) && j < ENTRIES && Num(i, j) < end <= KERNBASE
    requires Present(At(fr1, d, i))
    ensures from <= Num(i, j) && Deallocated(fr, g, fr1, g1, d, from, Num(i, j))
  {
    if Num(i, j) < from {
      UnsteadyAt(fr, d, i, j);
      assert false;
    }
  }

  lemma HoleProgress(fr: Frames, g: Books, fr1: Frames, g1: Books, d: nat, i: nat, j: nat, from: nat, end: nat)
    requires Progress(fr, g, fr1, g1, d, Num(i, j), from, end) && i < ENTRIES && j < ENTRIES
    requires Num(i, j) < end <= KERNBASE
    requires !Present(At(fr1, d, i))
    ensures Progress(fr, g, fr1, g1, d, Num(i, j) + ENTRIES, from, end)
  {
    hide Deallocated;
    if Num(i, j) < from {
      DeallocStarts(fr, g, d, from);
    } else {
      var w := HoleSkipped(fr, g, fr1, g1, d, from, Num(i, j), i, j, end);
    }
  }

  ghost predicate NoneBound(fr: Frames, d: nat, lo: nat, hi: nat)
  {
    forall i: nat, j: nat {:trigger Bound(fr, d, i, j)} :: i < ENTRIES && j < ENTRIES && lo <= Num(i, j) < hi ==>
        Bound(fr, d, i, j) == None
  }

  /** What deallocuvm has done when it is through. */
  ghost predicate Emptied(fr: Frames, g: Books, fr': Frames, g': Books, d: nat, from: nat, end: nat)
  {
    if from < end then Deallocated(fr, g, fr', g', d, from, end) else fr' == fr && g' == g
  }

  /** The skips lose nothing exactly when no page before the place where the work begins was bound. */
  lemma CompleteIff(fr: Frames, g: Books, fr': Frames, g': Books, d: nat, lo: nat, end: nat)
    requires IsDir(g.own, d) && lo <= end && Emptied(fr, g, fr', g', d, Begins(fr, d, lo), end)
    ensures var from := Begins(fr, d, lo);
            Deallocated(fr, g, fr', g', d, lo, end) <==> NoneBound(fr, d, lo, if from < end then from else end)
  {
    var from := Begins(fr, d, lo);
    var w := if from < end then from else end;
    if Deallocated(fr, g, fr', g', d, lo, end) {
      forall i: nat, j: nat | i < ENTRIES && j < ENTRIES && lo <= Num(i, j) < w ensures Bound(fr, d, i, j) == None {
        assert Bound(fr', d, i, j) == None;
      }
    }
    if NoneBound(fr, d, lo, w) {
      if from < end {
        DeallocWider(fr, g, fr', g', d, lo, from, end);
      } else {
        DeallocStarts(fr, g, d, lo);
        DeallocSkip(fr, g, fr, g, d, lo, lo, end);
      }
    }
  }

  lemma DeallocWider(fr: Frames, g: Books, fr': Frames, g': Books, d: nat, lo: nat, from: nat, end: nat)
    requires Deallocated(fr, g, fr', g', d, from, end) && lo <= from && NoneBound(fr, d, lo, from)
    ensures Deallocated(fr, g, fr', g', d, lo, end)
  {
    forall d': nat, i: nat, j: nat | IsDir(g.own, d') && i < ENTRIES && j < ENTRIES
      ensures Bound(fr', d', i, j) == if d' == d && lo <= Num(i, j) < end then None else Bound(fr, d', i, j)
    {
      assert Bound(fr', d', i, j) == if d' == d && from <= Num(i, j) < end then None else Bound(fr, d', i, j);
    }
    forall f | f in g.own && f !in g'.own ensures Doomed(g.own, d, lo, end, f) {
      assert Doomed(g.own, d, from, end, f);
    }
  }

  /** Without a page table, none of its pages is bound. */
  lemma NoTable(fr: Frames, d: nat, i: nat)
    requires !Present(At(fr, d, i))
    ensures forall i': nat, j: nat {:trigger Bound(fr, d, i', j)} ::
              j < ENTRIES && Num(i, 0) <= Num(i', j) < Num(i, 0) + ENTRIES ==>
      Bound(fr, d, i', j) == None
  {
  }

  // ---- Retiring a directory ----

  /** The frames of d's address space. */
  ghost function Space(own: Owners, d: nat): set<nat>
  {
    set f | f in own && Of(own, f, d)
  }

  /** Once d has no user pages, its directory and tables can be given up together. */
  lemma Retire(fr: Frames, head: nat, g: Books, first: nat, d: nat)
    requires Sound(fr, head, g, first) && IsDir(g.own, d)
    requires forall f {:trigger g.own[f]} :: f in g.own && g.own[f].User? ==>
      g.own[f].d != d
    ensures var g' := g.(own := g.own - Space(g.own, d), loose := g.loose + Space(g.own, d));
            Sound(fr, head, g', first) && All(g') == All(g)
  {
    var sp := Space(g.own, d);
    var own' := g.own - sp;
    var g' := g.(own := own', loose := g.loose + sp);
    assert All(g') == All(g);
    assert Tabled(fr, own') by {
      forall d': nat, i: nat | IsDir(own', d') && i < ENTRIES && Present(At(fr, d', i))
        ensures HoldsTable(fr, own', d', i)
      {
        assert IsDir(g.own, d');
        assert HoldsTable(fr, g.own, d', i);
      }
      forall x | x in own' && own'[x].Table? ensures InDir(fr, own', x) {
        assert InDir(fr, g.own, x);
      }
    }
    assert Peopled(fr, own') by {
      forall d': nat, i: nat, j: nat | IsDir(own', d') && i < USERTABLES && Bound(fr, d', i, j).Some?
        ensures HoldsUser(fr, own', d', i, j)
      {
        assert IsDir(g.own, d');
        assert HoldsUser(fr, g.own, d', i, j);
      }
      forall x | x in own' && own'[x].User? ensures InTable(fr, own', x) {
        assert InTable(fr, g.own, x);
      }
    }
  }

  /** Unbinding all user pages leaves d without user frames, and then the rest of its space is what remains. */
  lemma AllDoomed(fr: Frames, fr': Frames, own: Owners, own': Owners, d: nat)
    requires Peopled(fr', own') && IsDir(own, d) && Released(own, own', d, 0, Num(USERTABLES, 0))
      && Unbound(fr, fr', own, d, 0, Num(USERTABLES, 0))
    ensures IsDir(own', d) && own' - Space(own', d) == own - Space(own, d)
    ensures forall f {:trigger own'[f]} :: f in own' && own'[f].User? ==> own'[f].d != d
  {
    assert own[d] == Dir;
    forall f | f in own' && own'[f].User? ensures own'[f].d != d {
      assert InTable(fr', own', f);
    }
    forall f ensures f in own' - Space(own', d) <==> f in own - Space(own, d) {
      if f in own {
        assert own[f] == own[f];
        assert f in own' ==> own'[f] == own[f];
      }
    }
  }

  /** Freed frames are those that left the owners, when nothing else moved. */
  lemma FreeByAccount(g: Books, g': Books, first: nat, s: set<nat>)
    requires Pooled(g, first) && Pooled(g', first) && All(g') == All(g) && g'.loose == g.loose && s <= g.own.Keys
    requires g'.own == g.own - s
    ensures FreeSet(g') == FreeSet(g) + s
  {
    forall x ensures x in FreeSet(g') <==> x in FreeSet(g) + s {
      FreeExclusive(g, first, x);
      FreeExclusive(g', first, x);
      assert x in All(g) <==> x in All(g');
    }
  }

  lemma FreeExclusive(g: Books, first: nat, x: nat)
    requires Pooled(g, first)
    ensures x in FreeSet(g) ==> x !in g.own && x !in g.loose
    ensures x in g.own ==> x !in g.loose
  {
    if x in g.own {
      assert g.own[x] == g.own[x];
    }
  }

  /** A page table of d not yet freed when the tables below i have been, or d itself. */
  ghost predicate LeftOver(own: Owners, d: nat, i: nat, f: nat)
  {
    f in own && (f == d || (own[f].Table? && own[f].d == d && own[f].i >= i))
  }

  /** freevm has freed the tables of d below index i; own and loose are from before it started. */
  ghost predicate Freeing(fr: Frames, own: Owners, loose: set<nat>, fr': Frames, g': Books, d: nat, i: nat)
  {
    && g'.own == own - Space(own, d)
    && (forall f {:trigger f in g'.loose} :: f in g'.loose <==> f in loose || LeftOver(own, d, i, f))
    && (forall k: nat {:trigger At(fr', d, k)} :: At(fr', d, k) == At(fr, d, k))
    && SameMap(fr, fr', g'.own) && Kept(fr, fr', g'.own)
  }

  lemma FreeingStarts(fr: Frames, g: Books, d: nat)
    requires IsDir(g.own, d) && forall f {:trigger g.own[f]} :: f in g.own && g.own[f].User? ==> g.own[f].d != d
    ensures Freeing(fr, g.own, g.loose, fr, g.(own := g.own - Space(g.own, d), loose := g.loose + Space(g.own, d)), d,
                    0)
  {
  }

  /** The table at index i, if there is one, is among those left. */
  lemma FreeingNext(fr: Frames, own: Owners, loose: set<nat>, fr': Frames, g': Books, d: nat, i: nat)
    requires Tabled(fr, own) && IsDir(own, d) && Freeing(fr, own, loose, fr', g', d, i) && i < ENTRIES
    ensures Present(At(fr', d, i)) ==>
              var t := At(fr', d, i).hi; t in g'.loose && t != d && t in own && own[t] == Table(d, i)
    ensures forall f {:trigger LeftOver(own, d, i + 1, f)} ::
              LeftOver(own, d, i, f) <==>
              LeftOver(own, d, i + 1, f) || (Present(At(fr', d, i)) && f == At(fr', d, i).hi)
  {
    assert At(fr', d, i) == At(fr, d, i);
    if Present(At(fr, d, i)) {
      assert HoldsTable(fr, own, d, i);
      assert LeftOver(own, d, i, At(fr, d, i).hi);
    }
    forall f
      ensures LeftOver(own, d, i, f) <==>
              LeftOver(own, d, i + 1, f) || (Present(At(fr', d, i)) && f == At(fr', d, i).hi)
    {
      if f in own && own[f].Table? {
        assert InDir(fr, own, f);
      }
    }
  }

  lemma FreeingMore(fr: Frames, own: Owners, loose: set<nat>, fr1: Frames, g1: Books, fr2: Frames, g2: Books, d: nat,
                    i: nat, t: nat)
    requires Freeing(fr, own, loose, fr1, g1, d, i) && t in g1.loose && t != d && t in own && own[t] == Table(d, i)
    requires t !in loose
    requires g2.own == g1.own && g2.loose == g1.loose - {t} && SameMap(fr1, fr2, g2.own) && Kept(fr1, fr2, g2.own)
    requires forall x: nat, k: nat {:trigger At(fr2, x, k)} :: x != t ==> At(fr2, x, k) == At(fr1, x, k)
    requires forall f {:trigger LeftOver(own, d, i + 1, f)} ::
              LeftOver(own, d, i, f) <==> LeftOver(own, d, i + 1, f) || f == t
    ensures Freeing(fr, own, loose, fr2, g2, d, i + 1)
  {
    assert !LeftOver(own, d, i + 1, t);
    forall f ensures f in g2.loose <==> f in loose || LeftOver(own, d, i + 1, f) {
      assert f in g1.loose <==> f in loose || LeftOver(own, d, i, f);
    }
  }

  /** When all tables are freed, only d itself is left. */
  lemma LastOne(fr: Frames, own: Owners, loose: set<nat>, fr': Frames, g': Books, d: nat)
    requires Tabled(fr, own) && IsDir(own, d) && d !in loose && Freeing(fr, own, loose, fr', g', d, ENTRIES)
    ensures d in g'.loose && g'.loose - {d} == loose
  {
    forall f ensures f in g'.loose <==> f in loose || f == d {
      assert f in g'.loose <==> f in loose || LeftOver(own, d, ENTRIES, f);
      if f in own && own[f].Table? {
        assert InDir(fr, own, f);
      }
    }
  }

  /** What deallocuvm and the freeing of tables leave, taken together. */
  lemma TornDown(fr: Frames, fr1: Frames, fr2: Frames, own: Owners, own1: Owners, own2: Owners, d: nat, lo: nat,
                 hi: nat)
    requires Unbound(fr, fr1, own, d, lo, hi) && Kept(fr, fr1, own1) && SameMap(fr1, fr2, own2) && Kept(fr1, fr2, own2)
    requires own2 == own - Space(own, d) && own2 == own1 - Space(own1, d)
    ensures SameMap(fr, fr2, own2) && Kept(fr, fr2, own2)
  {
    forall d': nat, i: nat, j: nat | IsDir(own2, d') ensures Bound(fr2, d', i, j) == Bound(fr, d', i, j) {
      assert IsDir(own, d') && d' != d;
      if i < ENTRIES && j < ENTRIES {
        assert Bound(fr1, d', i, j) == Bound(fr, d', i, j);
      }
    }
    forall f | f in own2 && own2[f].User? && f < |fr| ensures fr2[f] == fr[f] {
      assert own1[f] == own2[f];
    }
  }

  /** An address space made and taken down again leaves the accounting as it was. */
  lemma Undone(fr: Frames, g: Books, fr1: Frames, g1: Books, g2: Books, first: nat, d: nat)
    requires Pooled(g, first) && Tabled(fr, g.own) && Peopled(fr, g.own) && Apart(fr, g, fr1, g1, d)
    requires Pooled(g2, first) && g2.own == g1.own - Space(g1.own, d) && g2.loose == g.loose && All(g2) == All(g)
    ensures g2.own == g.own && FreeSet(g2) == FreeSet(g)
  {
    forall f ensures f in g2.own <==> f in g.own {
      if f in g.own {
        assert g1.own[f] == g.own[f];
        NotOf(fr, g.own, f, d);
      } else if f in g1.own {
        assert Of(g1.own, f, d);
      }
    }
    forall f | f in g2.own ensures g2.own[f] == g.own[f] {
      assert g1.own[f] == g.own[f];
    }
    assert g2.own == g.own;
    FreeByAccount(g, g2, first, {});
  }

  lemma NotOf(fr: Frames, own: Owners, f: nat, d: nat)
    requires Tabled(fr, own) && Peopled(fr, own) && f in own && d !in own
    ensures !Of(own, f, d)
  {
    if own[f].Table? {
      assert InDir(fr, own, f);
    } else if own[f].User? {
      assert InTable(fr, own, f);
    }
  }
}
