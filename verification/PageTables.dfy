/**
Physical memory as page frames of 32-bit words, and two-level page tables in it, read as a map
from virtual pages to page-table entries (32-bit paging: section 4.3 of the Intel SDM, volume 3A).
*/
module PageTables {

  const NFRAMES := 0xE000     // PHYSTOP / PGSIZE
  const ENTRIES := 1024       // words in a page; entries in a directory or table
  const PAGES := 0x10_0000    // pages in a 32-bit address space
  const USERTABLES := 512     // directory entries below KERNBASE

  const PTE_P := 1
  const PTE_W := 2
  const PTE_U := 4

  /** A 32-bit word as its upper 20 and lower 12 bits: the page number and flags of an entry. */
  datatype Word = Word(hi: nat, lo: nat)

  type Page = p: seq<Word> | |p| == ENTRIES witness seq(ENTRIES, _ => Word(0, 0))

  type Frames = seq<Page>

  predicate Present(w: Word)
  {
    w.lo % 2 == 1
  }

  /** `flags & PTE_W` is nonzero. */
  predicate HasW(flags: nat)
  {
    flags / PTE_W % 2 == 1
  }

  /** `flags & PTE_U` is nonzero. */
  predicate HasU(flags: nat)
  {
    flags / PTE_U % 2 == 1
  }

  /** `flags | PTE_P` */
  function WithP(flags: nat): (r: nat)
    ensures r % 2 == 1 && (flags % 2 == 1 ==> r == flags)
  {
    if flags % 2 == 1 then flags else flags + 1
  }

  /** walkpgdir's flags for a directory entry. */
  lemma AllFlags()
    ensures WithP(PTE_P + PTE_W + PTE_U) == PTE_P + PTE_W + PTE_U
    ensures HasW(PTE_P + PTE_W + PTE_U) && HasU(PTE_P + PTE_W + PTE_U)
  {
  }

  lemma OtherFlags(flags: nat)
    ensures HasW(WithP(flags)) == HasW(flags) && HasU(WithP(flags)) == HasU(flags)
  {
    var half, r := flags / 2, WithP(flags);
    assert r / 2 == half;
    assert flags / 4 == half / 2 && r / 4 == half / 2;
  }

  /** Word j of frame f; zero outside memory. */
  function At(fr: Frames, f: nat, j: nat): Word
  {
    if f < |fr| && j < ENTRIES then fr[f][j] else Word(0, 0)
  }

  function Set(fr: Frames, f: nat, j: nat, w: Word): (r: Frames)
    requires f < |fr| && j < ENTRIES
    ensures |r| == |fr|
    ensures forall g: nat, k: nat {:trigger At(r, g, k)} :: At(r, g, k) == if g == f && k == j then w else At(fr, g, k)
  {
    fr[f := fr[f][j := w]]
  }

  function Fill(fr: Frames, f: nat, w: Word): (r: Frames)
    requires f < |fr|
    ensures |r| == |fr|
    ensures forall g: nat, k: nat {:trigger At(r, g, k)} ::
              At(r, g, k) == if g == f && k < ENTRIES then w else At(fr, g, k)
  {
    fr[f := seq(ENTRIES, _ => w)]
  }

  function CopyFrame(fr: Frames, from: nat, to: nat): (r: Frames)
    requires from < |fr| && to < |fr|
    ensures |r| == |fr|
    ensures forall g: nat, k: nat {:trigger At(r, g, k)} :: At(r, g, k) == At(fr, if g == to then from else g, k)
  {
    fr[to := fr[from]]
  }

  /** What an allocated frame is used for: a directory, table i of directory d, or the user page (i, j) of d. */
  datatype Use = Dir | Table(d: nat, i: nat) | User(d: nat, i: nat, j: nat)

  type Owners = map<nat, Use>

  datatype Entry = None | Some(pte: Word)

  /** The entry for virtual page (i, j) under directory d: what a walk of the two levels finds. */
  function Bound(fr: Frames, d: nat, i: nat, j: nat): Entry
  {
    var pde := At(fr, d, i);
    if !Present(pde) then None
    else
      var pte := At(fr, pde.hi, j);
      if Present(pte) then Some(pte) else None
  }

  predicate IsDir(own: Owners, d: nat)
  {
    d in own && own[d] == Dir
  }

  /** Directory entries, which all allow everything, and page-table frames correspond one to one. */
  ghost predicate Tabled(fr: Frames, own: Owners)
  {
    && (forall f {:trigger own[f]} :: f in own ==> 0 < f < |fr|)
    && (forall d: nat, i: nat {:trigger IsDir(own, d), At(fr, d, i)} ::
        IsDir(own, d) && i < ENTRIES && Present(At(fr, d, i)) ==>
      HoldsTable(fr, own, d, i))
    && (forall f {:trigger own[f]} :: f in own && own[f].Table? ==> InDir(fr, own, f))
  }

  ghost predicate HoldsTable(fr: Frames, own: Owners, d: nat, i: nat)
  {
    var pde := At(fr, d, i);
    pde.hi in own && own[pde.hi] == Table(d, i) && HasW(pde.lo) && HasU(pde.lo)
  }

  ghost predicate InDir(fr: Frames, own: Owners, f: nat)
    requires f in own && own[f].Table?
  {
    var u := own[f];
    IsDir(own, u.d) && u.i < ENTRIES && Present(At(fr, u.d, u.i)) && At(fr, u.d, u.i).hi == f
  }

  // ---- What a write does to the map ----

  /** Writing to a frame that is neither a directory nor a table changes no entry. */
  lemma ForeignWrite(fr: Frames, own: Owners, f: nat, fr': Frames)
    requires Tabled(fr, own) && |fr'| == |fr| && (f in own ==> own[f].User?)
    requires forall g: nat, k: nat {:trigger At(fr', g, k)} :: g != f ==> At(fr', g, k) == At(fr, g, k)
    ensures Tabled(fr', own)
    ensures forall d: nat, i: nat, j: nat {:trigger Bound(fr', d, i, j)} ::
              IsDir(own, d) ==> Bound(fr', d, i, j) == Bound(fr, d, i, j)
  {
    forall d: nat, i: nat, j: nat | IsDir(own, d) ensures Bound(fr', d, i, j) == Bound(fr, d, i, j) {
      assert At(fr', d, i) == At(fr, d, i);
      if Present(At(fr, d, i)) {
        PresentInside(fr, d, i);
        assert HoldsTable(fr, own, d, i);
      }
    }
    forall d: nat, i: nat | IsDir(own, d) && i < ENTRIES && Present(At(fr', d, i)) ensures HoldsTable(fr', own, d, i) {
      assert HoldsTable(fr, own, d, i);
    }
    forall g | g in own && own[g].Table? ensures InDir(fr', own, g) {
      assert InDir(fr, own, g);
    }
  }

  lemma PresentInside(fr: Frames, f: nat, j: nat)
    requires Present(At(fr, f, j))
    ensures j < ENTRIES && f < |fr|
  {
  }

  /** Writing an entry of table i of d changes the map at that page only. */
  lemma TableWrite(fr: Frames, own: Owners, d: nat, i: nat, j: nat, w: Word)
    requires Tabled(fr, own) && IsDir(own, d) && i < ENTRIES && j < ENTRIES && Present(At(fr, d, i))
    ensures var t := At(fr, d, i).hi;
            && t < |fr| && t in own && own[t] == Table(d, i)
            && var fr' := Set(fr, t, j, w);
               && Tabled(fr', own)
               && forall d': nat, i': nat, j': nat {:trigger Bound(fr', d', i', j')} :: IsDir(own, d') ==>
                    Bound(fr', d', i', j') ==
                      if d' == d && i' == i && j' == j then (if Present(w) then Some(w) else None)
                          else Bound(fr, d', i', j')
  {
    assert HoldsTable(fr, own, d, i);
    var t := At(fr, d, i).hi;
    var fr' := Set(fr, t, j, w);
    forall d': nat, i': nat, j': nat | IsDir(own, d')
      ensures Bound(fr', d', i', j') ==
        if d' == d && i' == i && j' == j then (if Present(w) then Some(w) else None) else Bound(fr, d', i', j')
    {
      assert At(fr', d', i') == At(fr, d', i');
      if Present(At(fr, d', i')) {
        PresentInside(fr, d', i');
        assert HoldsTable(fr, own, d', i');
      }
    }
    forall d': nat, i': nat | IsDir(own, d') && i' < ENTRIES && Present(At(fr', d', i'))
      ensures HoldsTable(fr', own, d', i')
    {
      assert HoldsTable(fr, own, d', i');
    }
    forall g | g in own && own[g].Table? ensures InDir(fr', own, g) {
      assert InDir(fr, own, g);
    }
  }

  /** Installing a zeroed frame as a missing table changes no entry. */
  lemma NewTable(fr: Frames, own: Owners, d: nat, i: nat, f: nat)
    requires Tabled(fr, own) && IsDir(own, d) && i < ENTRIES && !Present(At(fr, d, i)) && 0 < f < |fr| && f !in own
    requires forall j: nat {:trigger At(fr, f, j)} :: At(fr, f, j) == Word(0, 0)
    ensures var fr' := Set(fr, d, i, Word(f, WithP(PTE_P + PTE_W + PTE_U)));
            && Tabled(fr', own[f := Table(d, i)])
            && forall d': nat, i': nat, j': nat {:trigger Bound(fr', d', i', j')} :: IsDir(own, d') ==>
              Bound(fr', d', i', j') == Bound(fr, d', i', j')
  {
    var fr', own' := Set(fr, d, i, Word(f, WithP(PTE_P + PTE_W + PTE_U))), own[f := Table(d, i)];
    AllFlags();
    hide HasW;
    hide HasU;
    forall d': nat, i': nat, j': nat | IsDir(own, d') ensures Bound(fr', d', i', j') == Bound(fr, d', i', j') {
      if d' == d && i' == i {
        assert At(fr', f, j') == Word(0, 0);
      } else if Present(At(fr, d', i')) {
        PresentInside(fr, d', i');
        assert HoldsTable(fr, own, d', i');
      }
    }
    forall d': nat, i': nat | IsDir(own', d') && i' < ENTRIES && Present(At(fr', d', i'))
      ensures HoldsTable(fr', own', d', i')
    {
      assert IsDir(own, d');
      assert (d' == d && i' == i) || HoldsTable(fr, own, d', i');
    }
    forall g | g in own' && own'[g].Table? ensures InDir(fr', own', g) {
      assert g == f || InDir(fr, own, g);
    }
  }

  // ---- What the processor allows ----

  /** The frame a page is in, and whether user programs may use it and whether it may be written. */
  datatype Access = NoAccess | Access(frame: nat, user: bool, write: bool)

  /** Both levels have their say: a right must be given by the directory entry and by the table entry. */
  function Allows(fr: Frames, d: nat, i: nat, j: nat): Access
  {
    var pde := At(fr, d, i);
    var pte := At(fr, pde.hi, j);
    if !Present(pde) || !Present(pte) then NoAccess
    else
      Access(pte.hi, HasU(pde.lo) && HasU(pte.lo), HasW(pde.lo) && HasW(pte.lo))
  }

  /** What a table entry by itself gives. */
  function Rights(e: Entry): Access
  {
    match e
    case None => NoAccess
    case Some(w) => Access(w.hi, HasU(w.lo), HasW(w.lo))
  }

  /** The directories restrict nothing. */
  lemma AllowsRights(fr: Frames, own: Owners, d: nat, i: nat, j: nat)
    requires Tabled(fr, own) && IsDir(own, d)
    ensures Allows(fr, d, i, j) == Rights(Bound(fr, d, i, j))
  {
    if Present(At(fr, d, i)) {
      PresentInside(fr, d, i);
      assert HoldsTable(fr, own, d, i);
    }
  }

  // ---- User pages ----

  /** User frames and present entries below KERNBASE correspond one to one. */
  ghost predicate Peopled(fr: Frames, own: Owners)
  {
    && (forall d: nat, i: nat, j: nat {:trigger Bound(fr, d, i, j)} ::
          IsDir(own, d) && i < USERTABLES && Bound(fr, d, i, j).Some? ==> HoldsUser(fr, own, d, i, j))
    && (forall f {:trigger own[f]} :: f in own && own[f].User? ==> InTable(fr, own, f))
  }

  ghost predicate HoldsUser(fr: Frames, own: Owners, d: nat, i: nat, j: nat)
    requires Bound(fr, d, i, j).Some?
  {
    var f := Bound(fr, d, i, j).pte.hi;
    f in own && own[f] == User(d, i, j)
  }

  ghost predicate InTable(fr: Frames, own: Owners, f: nat)
    requires f in own && own[f].User?
  {
    var u := own[f];
    IsDir(own, u.d) && u.i < USERTABLES && u.j < ENTRIES && Bound(fr, u.d, u.i, u.j).Some?
        && Bound(fr, u.d, u.i, u.j).pte.hi == f
  }

  /** The same map under every directory. */
  ghost predicate SameMap(fr: Frames, fr': Frames, own: Owners)
  {
    forall d: nat, i: nat, j: nat {:trigger Bound(fr', d, i, j)} {:trigger Bound(fr, d, i, j)} :: IsDir(own, d) ==>
      Bound(fr', d, i, j) == Bound(fr, d, i, j)
  }

  lemma SameMapTrans(fr0: Frames, fr1: Frames, fr2: Frames, own: Owners)
    requires SameMap(fr0, fr1, own) && SameMap(fr1, fr2, own)
    ensures SameMap(fr0, fr2, own)
  {
    forall d: nat, i: nat, j: nat | IsDir(own, d) ensures Bound(fr2, d, i, j) == Bound(fr0, d, i, j) {
      assert Bound(fr1, d, i, j) == Bound(fr0, d, i, j);
    }
  }

  /** The owners before, plus frames that are neither directories nor user pages. */
  lemma PeopledKept(fr: Frames, own: Owners, fr': Frames, own': Owners)
    requires Peopled(fr, own) && SameMap(fr, fr', own)
    requires forall f {:trigger own[f]} :: f in own ==> f in own' && own'[f] == own[f]
    requires forall f {:trigger own'[f]} :: f in own' && f !in own ==> own'[f].Table?
    ensures Peopled(fr', own')
  {
    forall d: nat, i: nat, j: nat | IsDir(own', d) && i < USERTABLES && Bound(fr', d, i, j).Some?
      ensures HoldsUser(fr', own', d, i, j)
    {
      assert IsDir(own, d);
      assert HoldsUser(fr, own, d, i, j);
    }
    forall f | f in own' && own'[f].User? ensures InTable(fr', own', f) {
      assert InTable(fr, own, f);
    }
  }

  /** Binding a user page to a frame nobody owns makes it that page's frame. */
  lemma PeopledMore(fr: Frames, own: Owners, fr': Frames, d: nat, i: nat, j: nat, w: Word)
    requires Peopled(fr, own) && IsDir(own, d) && i < ENTRIES && j < ENTRIES && Present(w) && Bound(fr, d, i, j) == None
    requires i < USERTABLES ==> w.hi !in own
    requires forall d': nat, i': nat, j': nat {:trigger Bound(fr', d', i', j')} :: IsDir(own, d') ==>
               Bound(fr', d', i', j') == if d' == d && i' == i && j' == j then Some(w) else Bound(fr, d', i', j')
    ensures Peopled(fr', if i < USERTABLES then own[w.hi := User(d, i, j)] else own)
  {
    var own' := if i < USERTABLES then own[w.hi := User(d, i, j)] else own;
    forall d': nat, i': nat, j': nat | IsDir(own', d') && i' < USERTABLES && Bound(fr', d', i', j').Some?
      ensures HoldsUser(fr', own', d', i', j')
    {
      assert IsDir(own, d');
      assert (d' == d && i' == i && j' == j) || HoldsUser(fr, own, d', i', j');
    }
    forall f | f in own' && own'[f].User? ensures InTable(fr', own', f) {
      assert (f == w.hi && i < USERTABLES) || InTable(fr, own, f);
    }
  }

  /** Clearing a user page's entry lets its frame go. */
  lemma PeopledLess(fr: Frames, own: Owners, fr': Frames, d: nat, i: nat, j: nat)
    requires Peopled(fr, own) && IsDir(own, d) && i < USERTABLES && j < ENTRIES && Bound(fr, d, i, j).Some?
    requires forall d': nat, i': nat, j': nat {:trigger Bound(fr', d', i', j')} :: IsDir(own, d') ==>
               Bound(fr', d', i', j') == if d' == d && i' == i && j' == j then None else Bound(fr, d', i', j')
    ensures HoldsUser(fr, own, d, i, j) && Peopled(fr', own - {Bound(fr, d, i, j).pte.hi})
  {
    var f := Bound(fr, d, i, j).pte.hi;
    assert HoldsUser(fr, own, d, i, j);
    var own' := own - {f};
    forall d': nat, i': nat, j': nat | IsDir(own', d') && i' < USERTABLES && Bound(fr', d', i', j').Some?
      ensures HoldsUser(fr', own', d', i', j')
    {
      assert IsDir(own, d');
      assert HoldsUser(fr, own, d', i', j');
    }
    forall g | g in own' && own'[g].User? ensures InTable(fr', own', g) {
      assert InTable(fr, own, g);
    }
  }
}
