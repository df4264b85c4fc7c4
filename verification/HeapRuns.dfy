/**
The free list is determined by the blocks still handed out, so freeing undoes malloc.
*/
module HeapRuns {
  import opened Basics
  import opened FreeList
  import opened Coalescing
  import opened Umalloc

  /** A heap as its headers, its free blocks and the homes of its units. */
  datatype View = View(mem: Memory, fl: seq<nat>, home: map<nat, nat>)

  ghost predicate Fine(live: set<nat>, a: View)
  {
    InOrder(a.mem, live, a.fl, a.home)
  }

  /** Two heaps over the same units with the same blocks handed out. */
  ghost predicate Alike(live: set<nat>, a: View, b: View)
  {
    && Fine(live, a) && Fine(live, b) && a.home.Keys == b.home.Keys
    && forall x {:trigger x in live} | x in live :: a.mem[x].size == b.mem[x].size
  }

  /** Unit u belongs to a free block. */
  ghost predicate Unused(live: set<nat>, a: View, u: nat)
  {
    u in a.home && a.home[u] !in live
  }

  lemma SameUnused(live: set<nat>, a: View, b: View, u: nat)
    requires Alike(live, a, b) && Unused(live, a, u)
    ensures Unused(live, b, u)
  {
    if b.home[u] in live {
      var x := b.home[u];
      assert IsBlock(live, b.fl, x) && Within(b.mem, x, u);
      assert IsBlock(live, a.fl, x) && Within(a.mem, x, u);
      assert false;
    }
  }

  /** A block that reaches the unit before another block ends there. */
  lemma EndsAt(mem: Memory, live: set<nat>, fl: seq<nat>, home: map<nat, nat>, c: nat, x: nat)
    requires Tiled(mem, live, fl, home) && IsBlock(live, fl, c) && IsBlock(live, fl, x) && x > 0 && mem[x].size > 0
    requires Within(mem, c, x - 1)
    ensures c + mem[c].size == x
  {
    assert Within(mem, x, x);
    assert !Within(mem, c, x);
  }

  /** A free unit just before a free block would have been merged with it, so there is none. */
  lemma NotBefore(live: set<nat>, a: View, x: nat)
    requires Fine(live, a) && x in a.fl && BASE < x
    ensures !Unused(live, a, x - 1)
  {
    if Unused(live, a, x - 1) {
      var c := a.home[x - 1];
      assert IsBlock(live, a.fl, c) && Within(a.mem, c, x - 1);
      FreeSize(a.mem, a.fl, x);
      assert IsBlock(live, a.fl, x);
      EndsAt(a.mem, live, a.fl, a.home, c, x);
      assert false;
    }
  }

  /** Nor is there one just after. */
  lemma NotAfter(live: set<nat>, a: View, x: nat)
    requires Fine(live, a) && x in a.fl && BASE < x && x < |a.mem|
    ensures !Unused(live, a, x + a.mem[x].size)
  {
    var e := x + a.mem[x].size;
    if Unused(live, a, e) {
      var c := a.home[e];
      assert IsBlock(live, a.fl, c) && Within(a.mem, c, e);
      FreeSize(a.mem, a.fl, x);
      assert IsBlock(live, a.fl, x) && Within(a.mem, x, e - 1);
      assert c < e ==> Within(a.mem, c, e - 1);
      assert false;
    }
  }

  /** Every unit of a free block is unused. */
  lemma InsideUnused(live: set<nat>, a: View, x: nat, u: nat)
    requires Fine(live, a) && x in a.fl && BASE < x && x < |a.mem| && Within(a.mem, x, u)
    ensures Unused(live, a, u) && a.home[u] == x
  {
    assert IsBlock(live, a.fl, x);
    if x in live {
      assert false;
    }
  }

  lemma HeadShared(live: set<nat>, a: View, b: View, x: nat)
    requires Alike(live, a, b) && x in a.fl && BASE < x
    ensures x in b.fl
  {
    FreeSize(a.mem, a.fl, x);
    InsideUnused(live, a, x, x);
    SameUnused(live, a, b, x);
    var c := b.home[x];
    assert IsBlock(live, b.fl, c) && Within(b.mem, c, x);
    if c < x {
      FreeSize(b.mem, b.fl, c);
      InsideUnused(live, b, c, x - 1);
      SameUnused(live, b, a, x - 1);
      NotBefore(live, a, x);
      assert false;
    }
  }

  lemma SizeShared(live: set<nat>, a: View, b: View, x: nat)
    requires Alike(live, a, b) && x in a.fl && x in b.fl && BASE < x
    ensures x < |a.mem| && x < |b.mem| && b.mem[x].size <= a.mem[x].size
  {
    FreeSize(a.mem, a.fl, x);
    FreeSize(b.mem, b.fl, x);
    var e := x + a.mem[x].size;
    if e < x + b.mem[x].size {
      InsideUnused(live, b, x, e);
      SameUnused(live, b, a, e);
      NotAfter(live, a, x);
      assert false;
    }
  }

  /** Two ascending sequences with the same members are the same sequence. */
  lemma {:induction false} AscendingUnique(s: seq<nat>, t: seq<nat>)
    requires Ascending(s) && Ascending(t) && forall x: nat :: x in s <==> x in t
    ensures s == t
  {
    assert s != [] ==> s[0] in s;
    assert t != [] ==> t[0] in t;
    if s != [] && t != [] {
      FirstLeast(t, s[0]);
      FirstLeast(s, t[0]);
      assert s[0] == t[0];
      forall x: nat ensures x in s[1..] <==> x in t[1..] {
        RestMembers(s, x);
        RestMembers(t, x);
      }
      RestAscending(s);
      RestAscending(t);
      AscendingUnique(s[1..], t[1..]);
      assert s == [s[0]] + s[1..] && t == [t[0]] + t[1..];
    }
  }

  lemma FirstLeast(s: seq<nat>, x: nat)
    requires Ascending(s) && x in s
    ensures s[0] <= x
  {
    var i :| 0 <= i < |s| && s[i] == x;
    OrderedAt(s, 0, i);
  }

  lemma RestMembers(s: seq<nat>, x: nat)
    requires Ascending(s) && |s| > 0
    ensures x in s[1..] <==> x in s && x != s[0]
  {
    assert s == [s[0]] + s[1..];
    if x in s[1..] {
      var i :| 0 <= i < |s| - 1 && s[1..][i] == x;
      DifferentAt(s, 0, i + 1);
    }
  }

  lemma RestAscending(s: seq<nat>)
    requires Ascending(s) && |s| > 0
    ensures Ascending(s[1..])
  {
    forall i: nat, j: nat | i < j < |s[1..]| ensures Below(s[1..], i, j) {
      assert Below(s, i + 1, j + 1);
    }
  }

  /**
  The blocks handed out determine the free list: its blocks and their sizes. So whatever the order
  of the calls, freeing what was allocated leaves the list as it was.
  */
  lemma FreeListDetermined(live: set<nat>, a: View, b: View)
    requires Alike(live, a, b)
    ensures a.fl == b.fl && forall k {:trigger a.fl[k]} | 0 <= k < |a.fl| :: a.mem[a.fl[k]].size == b.mem[b.fl[k]].size
  {
    forall x: nat ensures x in a.fl <==> x in b.fl {
      BaseIn(a.mem, a.fl, x);
      BaseIn(b.mem, b.fl, x);
      if x in a.fl && x != BASE {
        HeadShared(live, a, b, x);
      }
      if x in b.fl && x != BASE {
        HeadShared(live, b, a, x);
      }
    }
    AscendingUnique(a.fl, b.fl);
    forall k {:trigger a.fl[k]} | 0 <= k < |a.fl| ensures a.mem[a.fl[k]].size == b.mem[b.fl[k]].size {
      EntryOfListed(a.mem, a.fl, k);
      EntryOfListed(b.mem, b.fl, k);
      if k > 0 {
        AboveBase(a.fl, k);
        SizeShared(live, a, b, a.fl[k]);
        SizeShared(live, b, a, a.fl[k]);
      }
    }
  }

  lemma BaseIn(mem: Memory, fl: seq<nat>, x: nat)
    requires Listed(mem, fl)
    ensures BASE in fl && (x in fl && x != BASE ==> x > BASE)
  {
    assert fl[0] in fl;
    if x in fl && x != BASE {
      FreeSize(mem, fl, x);
    }
  }

  /** Freeing what malloc just returned restores the free list, unless malloc had to ask sbrk. */
  method FreeUndoesMalloc(heap: Heap, nbytes: nat)
    requires heap.Valid() && heap.freep != NULL && nbytes < TWO32 && Fits(heap.mem, heap.fl, Nunits(nbytes))
    modifies heap
    ensures heap.Valid() && heap.live == old(heap.live) && heap.fl == old(heap.fl)
    ensures forall k {:trigger heap.fl[k]} | 0 <= k < |heap.fl| ::
              heap.mem[heap.fl[k]].size == old(heap.mem)[heap.fl[k]].size
  {
    ghost var live := heap.live;
    ghost var before := View(heap.mem, heap.fl, heap.home);
    var r := heap.Malloc(nbytes, Refused);
    ghost var m, h := heap.mem, heap.home;
    heap.Free(r);
    assert heap.live == live;
    UntouchedTrans(before.mem, before.home, m, h, heap.mem, heap.home, live);
    ghost var after := View(heap.mem, heap.fl, heap.home);
    LiveSizes(live, before, after);
    FreeListDetermined(live, after, before);
  }

  lemma LiveSizes(live: set<nat>, a: View, b: View)
    requires Fine(live, a) && Fine(live, b) && a.home.Keys == b.home.Keys
    requires Untouched(a.mem, a.home, b.mem, b.home, live)
    ensures Alike(live, b, a)
  {
    forall x | x in live ensures b.mem[x].size == a.mem[x].size {
      assert IsBlock(live, a.fl, x) && Within(a.mem, x, x);
      assert a.home[x] == x;
    }
  }
}
