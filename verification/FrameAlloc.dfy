/**
The kernel's page allocator (kalloc.c): free frames linked through their first word, and the
accounting of every frame it ever managed.
*/
module FrameAlloc {
  import opened PageTables

  /** A free-list link: the kernel address of a frame, or null. */
  function Link(f: nat): Word
  {
    if f == 0 then Word(0, 0) else Word(0x80000 + f, 0)
  }

  function Linked(w: Word): nat
  {
    if w.hi < 0x80000 then 0 else w.hi - 0x80000
  }

  const JUNK := Word(0x1010, 0x101)  // four bytes of 1

  function Head(free: seq<nat>): nat
  {
    if free == [] then 0 else free[0]
  }

  /** The list from head runs through exactly the frames of free. */
  ghost predicate Chain(fr: Frames, head: nat, free: seq<nat>)
  {
    && head == Head(free)
    && (forall k :: 0 <= k < |free| ==> 0 < free[k] < |fr|)
    && forall k {:trigger free[k]} :: 0 <= k < |free| ==> LinkOk(fr, free, k)
  }

  ghost predicate LinkOk(fr: Frames, free: seq<nat>, k: nat)
    requires k < |free|
  {
    At(fr, free[k], 0) == Link(if k + 1 < |free| then free[k + 1] else 0)
  }

  ghost predicate Differ(free: seq<nat>, i: nat, j: nat)
    requires i < |free| && j < |free|
  {
    free[i] != free[j]
  }

  /** What each frame is doing: free, in use by an address space, or handed out for something else. */
  datatype Books = Books(free: seq<nat>, own: Owners, loose: set<nat>)

  /** Every managed frame is doing exactly one of them. */
  ghost predicate Pooled(g: Books, first: nat)
  {
    && (forall i: nat, j: nat {:trigger Differ(g.free, i, j)} :: i < j < |g.free| ==> Differ(g.free, i, j))
    && (forall k {:trigger g.free[k]} :: 0 <= k < |g.free| ==>
        first <= g.free[k] < NFRAMES && g.free[k] !in g.own && g.free[k] !in g.loose)
    && (forall f {:trigger g.own[f]} :: f in g.own ==> first <= f < NFRAMES && f !in g.loose)
    && (forall f {:trigger f in g.loose} :: f in g.loose ==> first <= f < NFRAMES)
  }

  ghost function FreeSet(g: Books): set<nat>
  {
    set f | f in g.free
  }

  ghost function All(g: Books): set<nat>
  {
    FreeSet(g) + g.own.Keys + g.loose
  }

  lemma TakeChain(fr: Frames, head: nat, free: seq<nat>)
    requires Chain(fr, head, free) && free != []
    ensures Chain(fr, Linked(At(fr, head, 0)), free[1..]) && 0 < head < |fr|
  {
    assert LinkOk(fr, free, 0);
    forall k | 0 <= k < |free[1..]| ensures LinkOk(fr, free[1..], k) {
      assert LinkOk(fr, free, k + 1);
    }
  }

  lemma SplitFree(free: seq<nat>)
    requires free != []
    ensures (set f | f in free) == (set f | f in free[1..]) + {free[0]}
  {
    assert free == [free[0]] + free[1..];
  }

  /** The first frame is taken off the list. */
  lemma TakeFrame(fr: Frames, head: nat, g: Books, first: nat)
    requires Chain(fr, head, g.free) && Pooled(g, first) && g.free != []
    ensures var g' := g.(free := g.free[1..], loose := g.loose + {head});
            && Chain(fr, Linked(At(fr, head, 0)), g'.free) && Pooled(g', first) && All(g') == All(g)
            && head in FreeSet(g) && head !in g.own && head !in g.loose && 0 < head < |fr|
            && FreeSet(g') == FreeSet(g) - {head}
  {
    var rest := g.free[1..];
    TakeChain(fr, head, g.free);
    SplitFree(g.free);
    forall k | 0 <= k < |rest| ensures rest[k] != head && rest[k] == g.free[k + 1] {
      assert Differ(g.free, 0, k + 1);
    }
    forall i: nat, j: nat | i < j < |rest| ensures Differ(rest, i, j) {
      assert Differ(g.free, i + 1, j + 1);
    }
  }

  lemma GiveChain(fr: Frames, head: nat, free: seq<nat>, f: nat, fr': Frames)
    requires Chain(fr, head, free) && |fr'| == |fr| && 0 < f < |fr| && f !in free
    requires forall x: nat {:trigger At(fr', x, 0)} :: x != f ==> At(fr', x, 0) == At(fr, x, 0)
    requires At(fr', f, 0) == Link(head)
    ensures Chain(fr', f, [f] + free)
  {
    var free' := [f] + free;
    forall k | 0 <= k < |free'| ensures LinkOk(fr', free', k) {
      if k > 0 {
        assert LinkOk(fr, free, k - 1);
      }
    }
  }

  lemma GivePooled(g: Books, first: nat, f: nat)
    requires Pooled(g, first) && f in g.loose
    ensures Pooled(g.(free := [f] + g.free, loose := g.loose - {f}), first)
  {
    var free' := [f] + g.free;
    forall k {:trigger free'[k]} | 0 <= k < |free'| ensures free'[k] == if k == 0 then f else g.free[k - 1] {
    }
    forall i: nat, j: nat | i < j < |free'| ensures Differ(free', i, j) {
      if i > 0 {
        assert Differ(g.free, i - 1, j - 1);
      }
    }
  }

  lemma GiveSets(g: Books, f: nat)
    requires f in g.loose
    ensures var g' := g.(free := [f] + g.free, loose := g.loose - {f});
            All(g') == All(g) && FreeSet(g') == FreeSet(g) + {f}
  {
    assert ([f] + g.free)[1..] == g.free;
    SplitFree([f] + g.free);
  }

  /** A handed-out frame goes back on the list. */
  lemma GiveFrame(fr: Frames, head: nat, g: Books, first: nat, f: nat, fr': Frames)
    requires Chain(fr, head, g.free) && Pooled(g, first) && f in g.loose && 0 < first && |fr'| == |fr| == NFRAMES
    requires forall x: nat {:trigger At(fr', x, 0)} :: x != f ==> At(fr', x, 0) == At(fr, x, 0)
    requires At(fr', f, 0) == Link(head)
    ensures var g' := g.(free := [f] + g.free, loose := g.loose - {f});
            && Chain(fr', f, g'.free) && Pooled(g', first) && All(g') == All(g) && FreeSet(g') == FreeSet(g) + {f}
  {
    GiveChain(fr, head, g.free, f, fr');
    GivePooled(g, first, f);
    GiveSets(g, f);
  }

  /** Writing to a frame that is not free leaves the list as it is. */
  lemma ChainKept(fr: Frames, head: nat, free: seq<nat>, fr': Frames)
    requires Chain(fr, head, free) && |fr'| == |fr|
    requires forall k {:trigger free[k]} :: 0 <= k < |free| ==> At(fr', free[k], 0) == At(fr, free[k], 0)
    ensures Chain(fr', head, free)
  {
    forall k | 0 <= k < |free| ensures LinkOk(fr', free, k) {
      assert LinkOk(fr, free, k);
    }
  }
}
