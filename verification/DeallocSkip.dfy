/**
A page that deallocuvm leaves bound: it starts inside a missing page table, steps 4 MB from there, and so enters the
next table after its first page.
*/
module DeallocSkips {
  import opened PageTables
  import opened FrameAlloc
  import opened Vm
  import opened Teardown
  import opened KernelVm

  const FLAGS := PTE_P + PTE_W + PTE_U

  function Zeroed(): (fr: Frames)
    ensures |fr| == NFRAMES && forall f: nat, k: nat {:trigger At(fr, f, k)} :: At(fr, f, k) == Word(0, 0)
  {
    seq(NFRAMES, _ => seq(ENTRIES, _ => Word(0, 0)))
  }

  /** Directory 1 has no table 0; its table 1, in frame 2, binds its first page to frame 3. */
  function Sparse(): (fr: Frames)
    ensures |fr| == NFRAMES
    ensures forall f: nat, k: nat {:trigger At(fr, f, k)} ::
              At(fr, f, k) == if f == 1 && k == 1 then Word(2, FLAGS) else if f == 2 && k == 0 then Word(3, FLAGS)
                  else Word(0, 0)
  {
    Set(Set(Zeroed(), 1, 1, Word(2, FLAGS)), 2, 0, Word(3, FLAGS))
  }

  ghost function SparseBooks(): Books
  {
    Books([], map[1 := Dir, 2 := Table(1, 1), 3 := User(1, 1, 0)], {})
  }

  lemma SparseSound()
    ensures Sound(Sparse(), 0, SparseBooks(), 1)
  {
    var fr, own := Sparse(), SparseBooks().own;
    hide Sparse;
    assert Tabled(fr, own) by {
      forall d: nat, i: nat | IsDir(own, d) && i < ENTRIES && Present(At(fr, d, i)) ensures HoldsTable(fr, own, d, i) {
        assert d == 1 && i == 1;
      }
    }
    assert Peopled(fr, own) by {
      forall d: nat, i: nat, j: nat | IsDir(own, d) && i < USERTABLES && Bound(fr, d, i, j).Some?
        ensures HoldsUser(fr, own, d, i, j)
      {
        assert d == 1 && i == 1 && j == 0;
      }
      assert Bound(fr, 1, 1, 0) == Some(Word(3, FLAGS));
    }
  }

  /** From page 1 the work begins at page 1025. */
  lemma SparseBegins()
    ensures Begins(Sparse(), 1, 1) == ENTRIES + 1
  {
    var fr := Sparse();
    hide Sparse;
    assert !StandsAt(fr, 1, 0, 1) && Num(0, 1) == 1;
    assert !Steady(fr, 1, 1);
    assert Steady(fr, 1, ENTRIES + 1) by {
      forall i: nat, j: nat | j < ENTRIES && Num(i, j) == ENTRIES + 1 ensures StandsAt(fr, 1, i, j) {
        assert i == 1;
      }
    }
  }

  lemma SparseLeft(fr: Frames, g: Books)
    requires Emptied(Sparse(), SparseBooks(), fr, g, 1, ENTRIES + 1, 2 * ENTRIES)
    ensures Bound(fr, 1, 1, 0) == Some(Word(3, FLAGS))
  {
    var fr0 := Sparse();
    hide Sparse;
    hide Kept;
    hide Returned;
    hide Released;
    assert Bound(fr0, 1, 1, 0) == Some(Word(3, FLAGS));
    assert IsDir(SparseBooks().own, 1) && Num(1, 0) == ENTRIES;
  }

  /** Shrinking the process from 8 MB to one page leaves page 1024 bound. */
  method Skipped() returns (k: Kernel, panicked: bool)
    ensures k.Valid() && !panicked && IsDir(k.g.own, 1)
    ensures Bound(k.frames, 1, 1, 0) == Some(Word(3, FLAGS)) && PGSIZE <= PGSIZE * Num(1, 0) < 2 * PGSIZE * ENTRIES
  {
    hide Sound;
    hide Sparse;
    hide Emptied;
    hide Begins;
    hide Bound;
    SparseSound();
    SparseBegins();
    k := new Kernel.Holding(1, Sparse(), 0, SparseBooks());
    assert RoundUp(PGSIZE) == 1 && RoundUp(2 * PGSIZE * ENTRIES) == 2 * ENTRIES;
    panicked := k.DeallocUvm(1, 2 * PGSIZE * ENTRIES, PGSIZE);
    SparseLeft(k.frames, k.g);
  }
}
