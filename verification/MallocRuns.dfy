/**
Whole runs of a program that uses the allocator: any sequence of malloc, free and stores into the blocks it holds.
Each block keeps what the program last stored in it, whatever is allocated and freed around it.
*/
module MallocRuns {
  import opened Basics
  import opened FreeList
  import opened Tiling
  import opened Coalescing
  import opened Umalloc

  /** Frees and stores through pointers the program does not hold are left out of the run. */
  datatype Call = Alloc(nbytes: nat, grant: Grant) | Release(p: nat) | Store(p: nat, off: nat, h: Header)

  /** What malloc returned, and what the block held then. */
  datatype Reply = Reply(r: nat, found: seq<Header>)

  /** The blocks a program holds: each pointer with the contents of its block, header not included. */
  type Table = map<nat, seq<Header>>

  function Next(t: Table, c: Call, a: Reply): Table
  {
    match c
    case Alloc(_, _) => if a.r == NULL then t else t[a.r := a.found]
    case Release(p) => t - {p}
    case Store(p, off, h) => if p in t && off < |t[p]| then t[p := t[p][off := h]] else t
  }

  /** A new block is not one of those held, and has the size asked for. */
  predicate Proper(t: Table, c: Call, a: Reply)
  {
    c.Alloc? && a.r != NULL ==> a.r !in t && |a.found| + 1 == Nunits(c.nbytes)
  }

  function After(calls: seq<Call>, replies: seq<Reply>): Table
    requires |calls| == |replies|
  {
    if calls == [] then map[]
    else var n := |calls| - 1; Next(After(calls[..n], replies[..n]), calls[n], replies[n])
  }

  /** The block at p is handed out and holds blk. */
  ghost predicate Intact(mem: Memory, live: set<nat>, p: nat, blk: seq<Header>)
  {
    && 0 < p && p - 1 in live && p + |blk| <= |mem| && mem[p - 1].size == |blk| + 1
    && forall k {:trigger blk[k]} :: 0 <= k < |blk| ==> mem[p + k] == blk[k]
  }

  /** The table is what is in memory, and lists every block handed out. */
  ghost predicate Holding(mem: Memory, live: set<nat>, t: Table)
  {
    (forall p | p in t :: Intact(mem, live, p, t[p])) && forall b | b in live :: b + 1 in t
  }

  /** Two blocks held do not overlap, headers included. */
  lemma BlocksApart(heap: Heap, t: Table, p: nat, q: nat)
    requires heap.Valid() && Holding(heap.mem, heap.live, t) && p in t && q in t && p < q
    ensures p + |t[p]| < q
  {
    assert Intact(heap.mem, heap.live, p, t[p]) && Intact(heap.mem, heap.live, q, t[q]);
    Disjoint(heap.mem, heap.live, heap.fl, heap.home, p - 1, q - 1);
  }

  /** What a call leaves alone stays in the block. */
  lemma IntactKept(mem: Memory, live: set<nat>, fl: seq<nat>, home: map<nat, nat>, m: Memory, h: map<nat, nat>,
                   kept: set<nat>,
      live': set<nat>,
                   p: nat, blk: seq<Header>)
    requires Tiled(mem, live, fl, home) && Untouched(mem, home, m, h, kept)
    requires Intact(mem, live, p, blk) && p - 1 in kept && p - 1 in live'
    ensures Intact(m, live', p, blk)
  {
    assert IsBlock(live, fl, p - 1);
    forall u | p - 1 <= u < p + |blk| ensures u < |m| && m[u] == mem[u] {
      assert Within(mem, p - 1, u);
      assert home[u] == p - 1;
    }
    var last := p + |blk| - 1;
    assert Within(mem, p - 1, last) && home[last] == p - 1;
  }

  lemma HoldingKept(mem: Memory, live: set<nat>, fl: seq<nat>, home: map<nat, nat>, m: Memory, h: map<nat, nat>,
                    kept: set<nat>,
      live': set<nat>, t: Table)
    requires Tiled(mem, live, fl, home) && Untouched(mem, home, m, h, kept) && kept <= live'
    requires forall p | p in t :: p - 1 in kept && Intact(mem, live, p, t[p])
    ensures forall p | p in t :: Intact(m, live', p, t[p])
  {
    hide Tiled;
    hide Untouched;
    forall p | p in t ensures Intact(m, live', p, t[p]) {
      IntactKept(mem, live, fl, home, m, h, kept, live', p, t[p]);
    }
  }

  lemma TiledOf(heap: Heap)
    requires heap.Valid()
    ensures Tiled(heap.mem, heap.live, heap.fl, heap.home)
  {
  }

  lemma Entered(mem: Memory, live: set<nat>, fl: seq<nat>, home: map<nat, nat>, m: Memory, h: map<nat, nat>, t: Table,
                r: nat,
      blk: seq<Header>)
    requires Tiled(mem, live, fl, home) && Untouched(mem, home, m, h, live) && Holding(mem, live, t)
    requires 0 < r && r - 1 !in live && Intact(m, live + {r - 1}, r, blk)
    ensures r !in t && Holding(m, live + {r - 1}, t[r := blk])
  {
    hide Tiled;
    hide Untouched;
    assert r in t ==> Intact(mem, live, r, t[r]);
    HoldingKept(mem, live, fl, home, m, h, live, live + {r - 1}, t);
  }

  /** malloc; an answer that sbrk could not have given counts as a refusal. */
  method DoAlloc(heap: Heap, t: Table, nbytes: nat, grant: Grant) returns (a: Reply)
    requires heap.Valid() && Holding(heap.mem, heap.live, t) && nbytes < TWO32
    modifies heap
    ensures heap.Valid() && Proper(t, Alloc(nbytes, grant), a)
    ensures Holding(heap.mem, heap.live, Next(t, Alloc(nbytes, grant), a))
  {
    TiledOf(heap);
    ghost var mem, live, fl, home := heap.mem, heap.live, heap.fl, heap.home;
    var r := heap.Malloc(nbytes, if Grantable(|heap.mem|, Nunits(nbytes), grant) then grant else Refused);
    hide Untouched;
    hide Tiled;
    hide Holding;
    if r == NULL {
      HoldingSame(mem, live, fl, home, heap.mem, heap.home, t);
      return Reply(NULL, []);
    }
    TiledOf(heap);
    InsideMemory(heap.mem, heap.live, heap.fl, heap.home, r - 1);
    a := Reply(r, heap.mem[r..r + Nunits(nbytes) - 1]);
    Entered(mem, live, fl, home, heap.mem, heap.home, t, r, a.found);
  }

  lemma HoldingSame(mem: Memory, live: set<nat>, fl: seq<nat>, home: map<nat, nat>, m: Memory, h: map<nat, nat>,
                    t: Table)
    requires Tiled(mem, live, fl, home) && Untouched(mem, home, m, h, live) && Holding(mem, live, t)
    ensures Holding(m, live, t)
  {
    hide Tiled;
    hide Untouched;
    assert forall p | p in t :: Intact(mem, live, p, t[p]);
    HoldingKept(mem, live, fl, home, m, h, live, live, t);
  }

  lemma InsideMemory(mem: Memory, live: set<nat>, fl: seq<nat>, home: map<nat, nat>, b: nat)
    requires Tiled(mem, live, fl, home) && b in live
    ensures b < |mem| && 0 < mem[b].size && b + mem[b].size <= |mem|
  {
    assert IsBlock(live, fl, b);
    BlockInside(mem, live, fl, home, b);
  }

  lemma Removed(mem: Memory, live: set<nat>, fl: seq<nat>, home: map<nat, nat>, m: Memory, h: map<nat, nat>, t: Table,
                p: nat)
    requires Tiled(mem, live, fl, home) && Holding(mem, live, t) && 0 < p && Untouched(mem, home, m, h, live - {p - 1})
    ensures Holding(m, live - {p - 1}, t - {p})
  {
    hide Tiled;
    hide Untouched;
    assert forall q | q in t :: Intact(mem, live, q, t[q]);
    HoldingKept(mem, live, fl, home, m, h, live - {p - 1}, live - {p - 1}, t - {p});
  }

  method DoRelease(heap: Heap, t: Table, p: nat)
    requires heap.Valid() && Holding(heap.mem, heap.live, t)
    modifies heap
    ensures heap.Valid() && Holding(heap.mem, heap.live, t - {p})
  {
    if p in t {
      assert Intact(heap.mem, heap.live, p, t[p]);
      TiledOf(heap);
      ghost var mem, live, fl, home := heap.mem, heap.live, heap.fl, heap.home;
      heap.Free(p);
      hide *;
      Removed(mem, live, fl, home, heap.mem, heap.home, t, p);
    } else {
      assert t - {p} == t;
    }
  }

  /** A store into one block leaves the others as they are. */
  lemma Stored(mem: Memory, live: set<nat>, fl: seq<nat>, home: map<nat, nat>, t: Table, p: nat, off: nat, h: Header)
    requires Tiled(mem, live, fl, home) && Holding(mem, live, t) && p in t && off < |t[p]| && p + off < |mem|
    ensures Holding(mem[p + off := h], live, t[p := t[p][off := h]])
  {
    var m, t' := mem[p + off := h], t[p := t[p][off := h]];
    assert Intact(mem, live, p, t[p]);
    hide Tiled;
    forall q | q in t' ensures Intact(m, live, q, t'[q]) {
      assert Intact(mem, live, q, t[q]);
      if q < p {
        Disjoint(mem, live, fl, home, q - 1, p - 1);
        StoredBeside(mem, live, q, t[q], p + off, h);
      } else if p < q {
        Disjoint(mem, live, fl, home, p - 1, q - 1);
        StoredBeside(mem, live, q, t[q], p + off, h);
      } else {
        StoredInside(mem, live, p, t[p], off, h);
      }
    }
    hide Intact;
  }

  lemma StoredBeside(mem: Memory, live: set<nat>, q: nat, blk: seq<Header>, at: nat, h: Header)
    requires Intact(mem, live, q, blk) && at < |mem| && (at < q - 1 || q + |blk| <= at)
    ensures Intact(mem[at := h], live, q, blk)
  {
  }

  lemma StoredInside(mem: Memory, live: set<nat>, p: nat, blk: seq<Header>, off: nat, h: Header)
    requires Intact(mem, live, p, blk) && off < |blk|
    ensures Intact(mem[p + off := h], live, p, blk[off := h])
  {
  }

  lemma Placed(mem: Memory, live: set<nat>, t: Table, p: nat)
    requires Holding(mem, live, t) && p in t
    ensures 0 < p && p - 1 in live && p + |t[p]| <= |mem| && mem[p - 1].size == |t[p]| + 1
  {
    assert Intact(mem, live, p, t[p]);
  }

  method DoStore(heap: Heap, t: Table, p: nat, off: nat, h: Header)
    requires heap.Valid() && Holding(heap.mem, heap.live, t) && p in t && off < |t[p]|
    modifies heap
    ensures heap.Valid() && Holding(heap.mem, heap.live, t[p := t[p][off := h]])
  {
    hide *;
    Placed(heap.mem, heap.live, t, p);
    TiledOf(heap);
    Stored(heap.mem, heap.live, heap.fl, heap.home, t, p, off, h);
    heap.Store(p - 1, p + off, h);
  }

  method Do(heap: Heap, t: Table, c: Call) returns (a: Reply)
    requires heap.Valid() && Holding(heap.mem, heap.live, t) && (c.Alloc? ==> c.nbytes < TWO32)
    modifies heap
    ensures heap.Valid() && Proper(t, c, a) && Holding(heap.mem, heap.live, Next(t, c, a))
  {
    a := Reply(NULL, []);
    match c {
      case Alloc(nbytes, grant) => a := DoAlloc(heap, t, nbytes, grant);
      case Release(p) => DoRelease(heap, t, p);
      case Store(p, off, h) =>
        if p in t && off < |t[p]| {
          DoStore(heap, t, p, off, h);
        }
    }
  }

  lemma OneMore(calls: seq<Call>, replies: seq<Reply>, n: nat, a: Reply)
    requires |replies| == n < |calls|
    ensures After(calls[..n + 1], replies + [a]) == Next(After(calls[..n], replies), calls[n], a)
  {
    assert calls[..n + 1][..n] == calls[..n] && (replies + [a])[..n] == replies;
  }

  /** From the program's start, any calls: the blocks it holds are those of the table, with the contents the table
      gives. */
  method Run(image: Memory, calls: seq<Call>) returns (heap: Heap, replies: seq<Reply>)
    requires BASE < |image| <= UNITS && forall k :: 0 <= k < |calls| && calls[k].Alloc? ==> calls[k].nbytes < TWO32
    ensures heap.Valid() && |replies| == |calls| && Holding(heap.mem, heap.live, After(calls, replies))
    ensures forall k {:trigger replies[k]} ::
              0 <= k < |calls| ==> Proper(After(calls[..k], replies[..k]), calls[k], replies[k])
  {
    heap := new Heap(image);
    replies := [];
    var n, t: Table := 0, map[];
    while n < |calls|
      invariant n == |replies| <= |calls| && heap.Valid() && t == After(calls[..n], replies)
      invariant Holding(heap.mem, heap.live, t)
      invariant fresh(heap)
      invariant forall k {:trigger replies[k]} ::
                0 <= k < n ==> Proper(After(calls[..k], replies[..k]), calls[k], replies[k])
    {
      hide Holding;
      hide After;
      hide Proper;
      hide Next;
      var a := Do(heap, t, calls[n]);
      OneMore(calls, replies, n, a);
      t := Next(t, calls[n], a);
      assert replies[..n] == replies;
      Appended(calls, replies, a);
      replies := replies + [a];
      n := n + 1;
    }
    assert calls[..n] == calls;
  }

  lemma Appended(calls: seq<Call>, replies: seq<Reply>, a: Reply)
    ensures forall k :: 0 <= k <= |replies| ==> (replies + [a])[..k] == replies[..k]
  {
  }
}
