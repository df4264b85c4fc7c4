/**
What one call of free does to the heap, as a value: the released block is linked in
address order and merged with whatever free neighbours it touches.
*/
module Coalescing {
  import opened FreeList
  import opened Tiling

  /** No free block outside s ends where another begins. */
  ghost predicate CoalescedBut(mem: Memory, fl: seq<nat>, s: set<nat>)
  {
    forall b {:trigger mem[b]} | b in fl && b != BASE && b < |mem| && b !in s :: b + mem[b].size !in fl
  }

  /** The units of the live blocks, headers included, and their homes are as they were. */
  ghost predicate Untouched(mem: Memory, home: map<nat, nat>, m: Memory, h: map<nat, nat>, live: set<nat>)
  {
    forall u {:trigger home[u]} | u in home && home[u] in live && u < |mem| ::
        u in h && h[u] == home[u] && u < |m| && m[u] == mem[u]
  }

  lemma UntouchedTrans(m0: Memory, h0: map<nat, nat>, m1: Memory, h1: map<nat, nat>, m2: Memory, h2: map<nat, nat>,
                       live: set<nat>)
    requires Untouched(m0, h0, m1, h1, live) && Untouched(m1, h1, m2, h2, live)
    ensures Untouched(m0, h0, m2, h2, live)
  {
  }

  /** The position after which block b belongs: the last free block below it. */
  ghost predicate Belongs(fl: seq<nat>, j: nat, b: nat)
  {
    j < |fl| && fl[j] < b && (j + 1 < |fl| ==> b < fl[j + 1])
  }

  ghost function Linked(mem: Memory, p: nat, b: nat): Memory
    requires p < |mem| && b < |mem|
  {
    mem[b := Header(mem[p].ptr, mem[b].size)][p := Header(b, mem[p].size)]
  }

  /** Block b can touch only its successor, and only its predecessor can touch it. */
  lemma Touching(mem: Memory, live: set<nat>, fl: seq<nat>, home: map<nat, nat>, j: nat, b: nat, x: nat)
    requires Listed(mem, fl) && Tiled(mem, live, fl, home) && Belongs(fl, j, b) && b in live && x in fl && x != BASE
    ensures x + mem[x].size == b ==> x == fl[j]
    ensures b + mem[b].size == x ==> j + 1 < |fl| && x == fl[j + 1]
  {
    assert IsBlock(live, fl, b) && IsBlock(live, fl, x);
    FreeSize(mem, fl, x);
    if x < b {
      BelowPred(fl, j, b, x);
      if x < fl[j] {
        FreeSize(mem, fl, fl[j]);
        Disjoint(mem, live, fl, home, x, fl[j]);
      }
    } else if x > b {
      AbovePred(fl, j, b, x);
      if x > fl[j + 1] {
        AboveBase(fl, j + 1);
        FreeSize(mem, fl, fl[j + 1]);
        Disjoint(mem, live, fl, home, b, fl[j + 1]);
      }
    }
  }

  lemma FreeSize(mem: Memory, fl: seq<nat>, x: nat)
    requires Listed(mem, fl) && x in fl && x != BASE
    ensures x < |mem| && mem[x].size > 0 && x > BASE
  {
    var i :| 0 <= i < |fl| && fl[i] == x;
    assert mem[fl[i]].size > 0;
    DifferentAt(fl, 0, i);
    OrderedAt(fl, 0, i);
  }

  lemma AboveBase(fl: seq<nat>, k: nat)
    requires Ascending(fl) && 0 < k < |fl| && fl[0] == BASE
    ensures BASE < fl[k] && fl[k] in fl
  {
    OrderedAt(fl, 0, k);
    DifferentAt(fl, 0, k);
  }

  /** Once b is linked in, only it and its predecessor can touch another free block. */
  lemma LinkCoalesced(mem: Memory, fl: seq<nat>, p: nat, b: nat, r: seq<nat>)
    requires Coalesced(mem, fl) && p < |mem| && b < |mem|
    requires forall x: nat :: x in r <==> x in fl || x == b
    requires forall x: nat {:trigger mem[x]} :: x in fl && x != BASE && x < |mem| && x + mem[x].size == b ==> x == p
    ensures CoalescedBut(Linked(mem, p, b), r, {p, b})
  {
    var m := Linked(mem, p, b);
    forall x | x in r && x != BASE && x < |m| && x !in {p, b} ensures x + m[x].size !in r {
      assert m[x] == mem[x];
    }
  }

  lemma BelowPred(fl: seq<nat>, j: nat, b: nat, x: nat)
    requires Ascending(fl) && Belongs(fl, j, b) && x in fl && x < b
    ensures x <= fl[j]
  {
    var i :| 0 <= i < |fl| && fl[i] == x;
    if j + 1 < |fl| {
      OrderedAt(fl, j + 1, i);
    }
    OrderedAt(fl, i, j);
  }

  lemma AbovePred(fl: seq<nat>, j: nat, b: nat, y: nat)
    requires Ascending(fl) && Belongs(fl, j, b) && y in fl && y > b
    ensures j + 1 < |fl| && fl[j + 1] <= y
  {
    var i :| 0 <= i < |fl| && fl[i] == y;
    OrderedAt(fl, i, j);
    if j + 1 < |fl| {
      OrderedAt(fl, j + 1, i);
    }
  }

  lemma MergeCoalesced(mem: Memory, fl: seq<nat>, k: nat, s: set<nat>)
    requires Listed(mem, fl) && 0 < k && k + 1 < |fl| && CoalescedBut(mem, fl, s) && fl[k + 1] !in s
    requires fl[k] + mem[fl[k]].size == fl[k + 1]
    ensures CoalescedBut(Merged(mem, fl, k), Without(fl, k + 1), s - {fl[k]})
  {
    DifferentAt(fl, 0, k + 1);
    forall x: nat ensures x in Without(fl, k + 1) ==> x in fl {
      WithoutMembers(fl, k + 1, x);
    }
    MergeEnds(mem, fl, fl[k], fl[k + 1], Merged(mem, fl, k), Without(fl, k + 1), s);
  }

  lemma MergeEnds(mem: Memory, fl: seq<nat>, a: nat, c: nat, m: Memory, r: seq<nat>, s: set<nat>)
    requires CoalescedBut(mem, fl, s) && c in fl && c != BASE && c !in s && a < |mem| && c < |mem|
    requires m == mem[a := Header(mem[c].ptr, mem[a].size + mem[c].size)] && a + mem[a].size == c
    requires forall x: nat :: x in r ==> x in fl
    ensures CoalescedBut(m, r, s - {a})
  {
    forall b | b in r && b != BASE && b < |m| && b !in s - {a} ensures b + m[b].size !in r {
      assert b + m[b].size == if b == a then c + mem[c].size else b + mem[b].size;
    }
  }

  /** A merge rewrites only the header of block k, which is free. */
  lemma MergeUntouched(mem: Memory, live: set<nat>, fl: seq<nat>, home: map<nat, nat>, k: nat)
    requires Listed(mem, fl) && Tiled(mem, live, fl, home) && 0 < k && k + 1 < |fl|
    ensures Untouched(mem, home, Merged(mem, fl, k), Joined(home, fl[k], fl[k + 1]), live)
  {
    assert fl[k] in fl && fl[k + 1] in fl;
    DifferentAt(fl, 0, k);
    FreeHeader(mem, live, fl, home, k);
  }

  lemma FreeHeader(mem: Memory, live: set<nat>, fl: seq<nat>, home: map<nat, nat>, k: nat)
    requires Listed(mem, fl) && Tiled(mem, live, fl, home) && k < |fl|
    ensures fl[k] in home ==> home[fl[k]] !in live
  {
    var p := fl[k];
    if p in home && home[p] in live {
      assert Within(mem, home[p], p);
      if k > 0 {
        DifferentAt(fl, 0, k);
        assert Within(mem, p, p) && IsBlock(live, fl, p);
      }
      assert false;
    }
  }

  /** The heap is in order, except that the blocks in s may touch a free block after them. */
  ghost predicate Partly(mem: Memory, live: set<nat>, fl: seq<nat>, home: map<nat, nat>, s: set<nat>)
  {
    Listed(mem, fl) && CoalescedBut(mem, fl, s) && Tiled(mem, live, fl, home)
  }

  /** The free list is one address-ordered cycle of merged blocks, and free and live blocks tile the heap. */
  ghost predicate InOrder(mem: Memory, live: set<nat>, fl: seq<nat>, home: map<nat, nat>)
  {
    Listed(mem, fl) && Coalesced(mem, fl) && Tiled(mem, live, fl, home)
  }

  lemma LinkStep(mem: Memory, live: set<nat>, fl: seq<nat>, home: map<nat, nat>, j: nat, b: nat)
    requires InOrder(mem, live, fl, home) && Belongs(fl, j, b) && b in live
    ensures var p, r, m := fl[j], Inserted(fl, j, b), Linked(mem, fl[j], b);
            && Partly(m, live - {b}, r, home, {p, b})
            && Untouched(mem, home, m, home, live - {b})
            && (b + mem[b].size in r ==> j + 1 < |fl| && b + mem[b].size == fl[j + 1])
            && (p != BASE ==> p + mem[p].size in r ==> p + mem[p].size == b)
  {
    var p, r, m := fl[j], Inserted(fl, j, b), Linked(mem, fl[j], b);
    InsertListed(mem, fl, j, b);
    InsertTiled(mem, live, fl, home, m, j, b);
    forall x: nat ensures x in r <==> x in fl || x == b {
      InsertMembers(fl, j, b, x);
    }
    forall x: nat {:trigger mem[x]} | x in fl && x != BASE && x < |mem| && x + mem[x].size == b ensures x == p {
      Touching(mem, live, fl, home, j, b, x);
    }
    LinkCoalesced(mem, fl, p, b, r);
    LinkUntouched(mem, live, fl, home, j, b);
    LinkEnds(mem, live, fl, home, j, b, r);
  }

  lemma LinkUntouched(mem: Memory, live: set<nat>, fl: seq<nat>, home: map<nat, nat>, j: nat, b: nat)
    requires InOrder(mem, live, fl, home) && j < |fl| && b in live
    ensures Untouched(mem, home, Linked(mem, fl[j], b), home, live - {b})
  {
    FreeHeader(mem, live, fl, home, j);
    assert IsBlock(live, fl, b) && Within(mem, b, b);
  }

  lemma LinkEnds(mem: Memory, live: set<nat>, fl: seq<nat>, home: map<nat, nat>, j: nat, b: nat, r: seq<nat>)
    requires InOrder(mem, live, fl, home) && Belongs(fl, j, b) && b in live
    requires forall x: nat :: x in r <==> x in fl || x == b
    ensures b + mem[b].size in r ==> j + 1 < |fl| && b + mem[b].size == fl[j + 1]
    ensures fl[j] != BASE ==> fl[j] + mem[fl[j]].size in r ==> fl[j] + mem[fl[j]].size == b
  {
    var y := b + mem[b].size;
    if y in r {
      assert y in fl && y > b > BASE;
      Touching(mem, live, fl, home, j, b, y);
    }
    assert fl[j] in fl;
  }

  lemma MergeStep(mem: Memory, live: set<nat>, fl: seq<nat>, home: map<nat, nat>, k: nat, s: set<nat>)
    requires Partly(mem, live, fl, home, s) && 0 < k && k + 1 < |fl| && fl[k + 1] !in s
    requires fl[k] + mem[fl[k]].size == fl[k + 1]
    ensures Partly(Merged(mem, fl, k), live, Without(fl, k + 1), Joined(home, fl[k], fl[k + 1]), s - {fl[k]})
    ensures Untouched(mem, home, Merged(mem, fl, k), Joined(home, fl[k], fl[k + 1]), live)
  {
    MergeListed(mem, fl, k);
    MergeTiled(mem, live, fl, home, k);
    MergeCoalesced(mem, fl, k, s);
    MergeUntouched(mem, live, fl, home, k);
  }

  /** The memory free leaves, p being the block found by its search. */
  function Freed(mem: Memory, p: nat, b: nat): Memory
    requires p < |mem| && b < |mem| && mem[p].ptr < |mem|
  {
    var next := mem[p].ptr;
    var m := if b + mem[b].size == next
             then mem[b := Header(mem[next].ptr, mem[b].size + mem[next].size)]
             else mem[b := Header(next, mem[b].size)];
    if p + m[p].size == b
    then m[p := Header(m[b].ptr, m[p].size + m[b].size)]
    else m[p := Header(b, m[p].size)]
  }

  /** The memory between the two halves of free, with p already pointing to b. */
  ghost function Halfway(mem: Memory, p: nat, b: nat): Memory
    requires p < |mem| && b < |mem| && mem[p].ptr < |mem|
  {
    var next := mem[p].ptr;
    (if b + mem[b].size == next
     then mem[b := Header(mem[next].ptr, mem[b].size + mem[next].size)]
     else mem[b := Header(next, mem[b].size)])[p := Header(b, mem[p].size)]
  }

  lemma InsertedAt(fl: seq<nat>, j: nat, b: nat)
    requires j < |fl|
    ensures var r := Inserted(fl, j, b);
            && |r| == |fl| + 1 && r[j] == fl[j] && r[j + 1] == b
            && (j + 1 < |fl| ==> r[j + 2] == fl[j + 1])
  {
  }

  lemma HalfwayMerged(mem: Memory, p: nat, b: nat, r: seq<nat>, k: nat)
    requires p < |mem| && b < |mem| && mem[p].ptr < |mem| && p != b && p != mem[p].ptr && b + mem[b].size == mem[p].ptr
    requires b != mem[p].ptr
    requires k + 1 < |r| && r[k] == b && r[k + 1] == mem[p].ptr
    ensures Merged(Linked(mem, p, b), r, k) == Halfway(mem, p, b)
  {
  }

  /** b, just linked in at position j + 1, has been merged with the block after it if it touches that one. */
  ghost predicate HalfDone(mem: Memory, live: set<nat>, fl: seq<nat>, home: map<nat, nat>, j: nat, b: nat, r: seq<nat>,
                           h: map<nat, nat>)
    requires j < |fl| && fl[j] < |mem| && b < |mem| && mem[fl[j]].ptr < |mem|
  {
    var p, m := fl[j], Halfway(mem, fl[j], b);
    && Partly(m, live - {b}, r, h, {p}) && Untouched(mem, home, m, h, live - {b}) && h.Keys == home.Keys
    && j + 1 < |r| && r[j] == p && r[j + 1] == b
    && (p != BASE ==> p + mem[p].size in r ==> p + mem[p].size == b)
  }

  lemma SkipNext(mem: Memory, live: set<nat>, fl: seq<nat>, home: map<nat, nat>, j: nat, b: nat)
    requires InOrder(mem, live, fl, home) && Belongs(fl, j, b) && b in live && mem[fl[j]].ptr < |mem|
    requires b + mem[b].size != mem[fl[j]].ptr
    ensures HalfDone(mem, live, fl, home, j, b, Inserted(fl, j, b), home)
  {
    LinkStep(mem, live, fl, home, j, b);
    InsertedAt(fl, j, b);
    NextIs(mem, fl, j);
    DropFrom(Linked(mem, fl[j], b), Inserted(fl, j, b), fl[j], b);
  }

  lemma DropFrom(m: Memory, r: seq<nat>, p: nat, b: nat)
    requires CoalescedBut(m, r, {p, b}) && b < |m| && b + m[b].size !in r
    ensures CoalescedBut(m, r, {p})
  {
  }

  lemma NextIs(mem: Memory, fl: seq<nat>, j: nat)
    requires Listed(mem, fl) && j < |fl|
    ensures j + 1 < |fl| ==> mem[fl[j]].ptr == fl[j + 1]
  {
  }

  lemma JoinNext(mem: Memory, live: set<nat>, fl: seq<nat>, home: map<nat, nat>, j: nat, b: nat)
    requires InOrder(mem, live, fl, home) && Belongs(fl, j, b) && b in live && mem[fl[j]].ptr < |mem|
    requires b + mem[b].size == mem[fl[j]].ptr
    ensures HalfDone(mem, live, fl, home, j, b, Without(Inserted(fl, j, b), j + 2), Joined(home, b, mem[fl[j]].ptr))
  {
    var p, next, r, m := fl[j], mem[fl[j]].ptr, Inserted(fl, j, b), Linked(mem, fl[j], b);
    LinkStep(mem, live, fl, home, j, b);
    InsertedAt(fl, j, b);
    NextTouches(mem, fl, j, b);
    HalfwayMerged(mem, p, b, r, j + 1);
    JoinLinked(mem, m, live - {b}, r, home, j, p, b);
  }

  lemma JoinLinked(mem: Memory, m: Memory, live: set<nat>, r: seq<nat>, home: map<nat, nat>, j: nat, p: nat, b: nat)
    requires j + 2 < |r| && r[j] == p && r[j + 1] == b && b < |m| && b + m[b].size == r[j + 2] && r[j + 2] !in {p, b}
    requires p != b
    requires Partly(m, live, r, home, {p, b}) && Untouched(mem, home, m, home, live)
    ensures var m', r', h' := Merged(m, r, j + 1), Without(r, j + 2), Joined(home, b, r[j + 2]);
            && Partly(m', live, r', h', {p}) && Untouched(mem, home, m', h', live) && h'.Keys == home.Keys
            && j + 1 < |r'| && r'[j] == p && r'[j + 1] == b
            && forall x: nat :: x in r' ==> x in r
  {
    var c := r[j + 2];
    assert {p, b} - {b} == {p};
    WithoutShrinks(r, j + 2);
    MergeStep(m, live, r, home, j + 1, {p, b});
    UntouchedTrans(mem, home, m, home, Merged(m, r, j + 1), Joined(home, b, c), live);
  }

  lemma NextTouches(mem: Memory, fl: seq<nat>, j: nat, b: nat)
    requires Listed(mem, fl) && Belongs(fl, j, b) && b < |mem| && b + mem[b].size == mem[fl[j]].ptr && mem[b].size > 0
    ensures j + 1 < |fl| && mem[fl[j]].ptr == fl[j + 1] > b
  {
    OrderedAt(fl, 0, j);
  }

  lemma WithoutShrinks(r: seq<nat>, k: nat)
    requires k < |r|
    ensures forall x: nat :: x in Without(r, k) ==> x in r
    ensures k >= 2 ==> Without(r, k)[k - 2] == r[k - 2] && Without(r, k)[k - 1] == r[k - 1]
  {
  }

  lemma FreedJoined(mem: Memory, p: nat, b: nat, r: seq<nat>, j: nat)
    requires p < |mem| && b < |mem| && mem[p].ptr < |mem| && p != b && p + mem[p].size == b
    requires j + 1 < |r| && r[j] == p && r[j + 1] == b
    ensures Freed(mem, p, b) == Merged(Halfway(mem, p, b), r, j)
  {
  }

  lemma FreedApart(mem: Memory, p: nat, b: nat)
    requires p < |mem| && b < |mem| && mem[p].ptr < |mem| && p != b && p + mem[p].size != b
    ensures Freed(mem, p, b) == Halfway(mem, p, b)
  {
  }

  /** Some free block has at least n units. */
  ghost predicate Fits(mem: Memory, fl: seq<nat>, n: nat)
  {
    exists k {:trigger mem[fl[k]]} :: 0 <= k < |fl| && fl[k] < |mem| && mem[fl[k]].size >= n
  }

  /** What free has achieved when it returns, its search having stopped at p. */
  ghost predicate Released(mem: Memory, live: set<nat>, home: map<nat, nat>, p: nat, b: nat, m: Memory, r: seq<nat>,
                           h: map<nat, nat>)
  {
    && InOrder(m, live - {b}, r, h) && Untouched(mem, home, m, h, live - {b}) && h.Keys == home.Keys && p in r
    && |m| == |mem| && b < |mem| && Fits(m, r, mem[b].size)
  }

  lemma JoinPrevious(mem: Memory, live: set<nat>, fl: seq<nat>, home: map<nat, nat>, j: nat, b: nat, r: seq<nat>,
                     h: map<nat, nat>)
    requires j < |fl| && fl[j] < |mem| && b < |mem| && mem[fl[j]].ptr < |mem|
    requires HalfDone(mem, live, fl, home, j, b, r, h)
    requires fl[j] != b && fl[j] + mem[fl[j]].size == b && j > 0
    ensures Released(mem, live, home, fl[j], b, Freed(mem, fl[j], b), Without(r, j + 1), Joined(h, fl[j], b))
  {
    var p, m := fl[j], Halfway(mem, fl[j], b);
    FreedJoined(mem, p, b, r, j);
    MergeStep(m, live - {b}, r, h, j, {p});
    UntouchedTrans(mem, home, m, h, Merged(m, r, j), Joined(h, p, b), live - {b});
    assert Without(r, j + 1)[j] == p;
    assert Freed(mem, p, b)[Without(r, j + 1)[j]].size >= mem[b].size;
  }

  lemma SkipPrevious(mem: Memory, live: set<nat>, fl: seq<nat>, home: map<nat, nat>, j: nat, b: nat, r: seq<nat>,
                     h: map<nat, nat>)
    requires j < |fl| && fl[j] < |mem| && b < |mem| && mem[fl[j]].ptr < |mem|
    requires HalfDone(mem, live, fl, home, j, b, r, h)
    requires fl[j] != b && fl[j] + mem[fl[j]].size != b
    ensures Released(mem, live, home, fl[j], b, Freed(mem, fl[j], b), r, h)
  {
    hide Listed;
    hide Tiled;
    hide Untouched;
    hide Freed;
    FreedApart(mem, fl[j], b);
    assert r[j] in r;
    assert Freed(mem, fl[j], b)[r[j + 1]].size >= mem[b].size;
  }

  /** free keeps the heap in order, whichever of its four merging cases applies. */
  lemma FreeKeeps(mem: Memory, live: set<nat>, fl: seq<nat>, home: map<nat, nat>, j: nat, b: nat)
    returns (r: seq<nat>, h: map<nat, nat>)
    requires InOrder(mem, live, fl, home) && Belongs(fl, j, b) && b in live
    ensures mem[fl[j]].ptr < |mem|
    ensures Released(mem, live, home, fl[j], b, Freed(mem, fl[j], b), r, h)
  {
    r, h := Inserted(fl, j, b), home;
    EntryOfListed(mem, fl, j);
    if b + mem[b].size == mem[fl[j]].ptr {
      JoinNext(mem, live, fl, home, j, b);
      r, h := Without(r, j + 2), Joined(home, b, mem[fl[j]].ptr);
    } else {
      SkipNext(mem, live, fl, home, j, b);
    }
    if fl[j] + mem[fl[j]].size == b {
      JoinPrevious(mem, live, fl, home, j, b, r, h);
      r, h := Without(r, j + 1), Joined(h, fl[j], b);
    } else {
      SkipPrevious(mem, live, fl, home, j, b, r, h);
    }
  }
}
