/**
The user-level memory allocator (umalloc.c): malloc, morecore and free over memory counted
in header-sized units of 8 bytes.
*/
module Umalloc {
  import opened Basics
  import opened FreeList
  import opened Tiling
  import opened Coalescing

  const HEADER := 8               // sizeof(Header)
  const MORECORE := 4096          // least number of units asked of sbrk
  const UNITS := 0x2000_0000      // units in the 32-bit address space

  /** The number of units malloc asks for, in 32-bit arithmetic. */
  function Nunits(nbytes: nat): (n: nat)
    ensures n > 0
  {
    (nbytes + HEADER - 1) % TWO32 / HEADER + 1
  }

  /** A block of Nunits units has room for nbytes exactly when the sum does not wrap. */
  lemma RoomIff(nbytes: nat)
    requires nbytes < TWO32
    ensures nbytes <= HEADER * (Nunits(nbytes) - 1) <==> nbytes + HEADER - 1 < TWO32
    ensures nbytes + HEADER - 1 < TWO32 ==> HEADER * (Nunits(nbytes) - 1) < nbytes + HEADER
  {
    var s := nbytes + HEADER - 1;
    if s >= TWO32 {
      assert s % TWO32 == s - TWO32;
    }
  }

  lemma TakeExact(mem: Memory, live: set<nat>, fl: seq<nat>, home: map<nat, nat>, k: nat)
    requires InOrder(mem, live, fl, home) && 0 < k < |fl|
    ensures InOrder(Unlinked(mem, fl, k), live + {fl[k]}, Without(fl, k), home)
    ensures Untouched(mem, home, Unlinked(mem, fl, k), home, live)
    ensures fl[k] !in live && fl[k - 1] in Without(fl, k) && fl[k - 1] != NULL
  {
    OrderedAt(fl, 0, k - 1);
    var m, r := Unlinked(mem, fl, k), Without(fl, k);
    RemoveListed(mem, fl, k);
    TakeTiled(mem, live, fl, home, m, k);
    WithoutShrinks(fl, k);
    assert r[k - 1] == fl[k - 1];
    FreeHeader(mem, live, fl, home, k - 1);
    assert fl[k] in fl;
    SameCoalesced(mem, fl, m, r);
  }

  lemma SameCoalesced(mem: Memory, fl: seq<nat>, m: Memory, r: seq<nat>)
    requires Coalesced(mem, fl) && SameSizes(mem, m) && forall x: nat :: x in r ==> x in fl
    ensures Coalesced(m, r)
  {
  }

  /** The memory and homes after the last n units of block p become a live block. */
  ghost predicate TailTaken(mem: Memory, live: set<nat>, fl: seq<nat>, home: map<nat, nat>, p: nat, n: nat)
    requires p < |mem| && 0 < n < mem[p].size && p + mem[p].size <= |mem|
  {
    var q, m := p + mem[p].size - n, Split(mem, p, n);
    && q !in fl && q !in live
    && Tiled(m, live + {q}, fl, Cut(home, p, q))
    && Untouched(mem, home, m, Cut(home, p, q), live) && Cut(home, p, q).Keys == home.Keys
  }

  lemma TailTiled(mem: Memory, live: set<nat>, fl: seq<nat>, home: map<nat, nat>, p: nat, n: nat)
    requires Tiled(mem, live, fl, home) && p in fl && BASE < p && 0 < n < mem[p].size
    requires forall b | b in fl && b != BASE :: mem[b].size > 0
    ensures p + mem[p].size <= |mem| && TailTaken(mem, live, fl, home, p, n)
  {
    var q := p + mem[p].size - n;
    assert IsBlock(live, fl, p);
    BlockInside(mem, live, fl, home, p);
    SplitTiled(mem, live, fl, home, p, n);
    assert Within(mem, p, p);
    SplitUntouched(mem, live, home, p, n, q);
  }

  lemma TakeTail(mem: Memory, live: set<nat>, fl: seq<nat>, home: map<nat, nat>, k: nat, n: nat)
    requires InOrder(mem, live, fl, home) && 0 < k < |fl| && 0 < n < mem[fl[k]].size
    ensures fl[k] + mem[fl[k]].size <= |mem| && TailTaken(mem, live, fl, home, fl[k], n)
    ensures Listed(Split(mem, fl[k], n), fl) && Coalesced(Split(mem, fl[k], n), fl) && fl[k - 1] != NULL
  {
    OrderedAt(fl, 0, k - 1);
    AboveBase(fl, k);
    forall b | b in fl && b != BASE ensures mem[b].size > 0 {
      FreeSize(mem, fl, b);
    }
    TailTiled(mem, live, fl, home, fl[k], n);
    SplitListed(mem, fl, k, n);
    SplitCoalesced(mem, fl, fl[k], n);
  }

  /** All that changes when n units are cut off the end of a free block. */
  lemma PartTaken(mem: Memory, live: set<nat>, fl: seq<nat>, home: map<nat, nat>, k: nat, n: nat)
    requires InOrder(mem, live, fl, home) && 0 < k < |fl| && 0 < n < mem[fl[k]].size
    ensures fl[k] + mem[fl[k]].size <= |mem| && fl[k - 1] != NULL && |Split(mem, fl[k], n)| == |mem|
    ensures var q, m := fl[k] + mem[fl[k]].size - n, Split(mem, fl[k], n);
            && InOrder(m, live + {q}, fl, Cut(home, fl[k], q)) && Handed(m, n, live, q + 1)
            && Untouched(mem, home, m, Cut(home, fl[k], q), live) && Cut(home, fl[k], q).Keys == home.Keys
  {
    TakeTail(mem, live, fl, home, k, n);
    hide Listed;
    hide Coalesced;
    hide Tiled;
    hide Untouched;
    hide Cut;
  }

  lemma SplitUntouched(mem: Memory, live: set<nat>, home: map<nat, nat>, p: nat, n: nat, q: nat)
    requires p < |mem| && 0 < n < mem[p].size && p + mem[p].size <= |mem| && q == p + mem[p].size - n
    requires p !in live && p in home && home[p] == p && q in home && home[q] == p
    ensures Untouched(mem, home, Split(mem, p, n), Cut(home, p, q), live) && Cut(home, p, q).Keys == home.Keys
  {
  }

  lemma SplitEntry(mem: Memory, fl: seq<nat>, p: nat, n: nat, i: nat)
    requires i < |fl| && EntryOk(mem, fl, i) && p < |mem| && 0 < n < mem[p].size && p + mem[p].size <= |mem|
    requires fl[i] != p + mem[p].size - n && (fl[i] == p ==> i > 0)
    ensures EntryOk(Split(mem, p, n), fl, i)
  {
  }

  lemma SplitListed(mem: Memory, fl: seq<nat>, k: nat, n: nat)
    requires Listed(mem, fl) && 0 < k < |fl| && 0 < n < mem[fl[k]].size
    requires fl[k] + mem[fl[k]].size <= |mem| && fl[k] + mem[fl[k]].size - n !in fl
    ensures Listed(Split(mem, fl[k], n), fl)
  {
    var p, m := fl[k], Split(mem, fl[k], n);
    DifferentAt(fl, 0, k);
    forall i | 0 <= i < |fl| ensures EntryOk(m, fl, i) {
      EntryOfListed(mem, fl, i);
      assert fl[i] in fl;
      SplitEntry(mem, fl, p, n, i);
    }
    ListedByEntries(m, fl);
  }

  lemma SplitCoalesced(mem: Memory, fl: seq<nat>, p: nat, n: nat)
    requires Coalesced(mem, fl) && p < |mem| && 0 < n < mem[p].size && p + mem[p].size <= |mem|
    requires p + mem[p].size - n !in fl
    ensures Coalesced(Split(mem, p, n), fl)
  {
    var m := Split(mem, p, n);
    forall b | b in fl && b != BASE && b < |m| ensures b + m[b].size !in fl {
      assert b != p ==> m[b] == mem[b];
    }
  }

  lemma ListedOf(mem: Memory, live: set<nat>, fl: seq<nat>, home: map<nat, nat>)
    requires InOrder(mem, live, fl, home)
    ensures Listed(mem, fl)
  {
  }

  // ---- The search of free ----

  /** Stopping test of free's search at block p. */
  predicate Stops(mem: Memory, p: nat, b: nat)
    requires p < |mem|
  {
    (b > p && b < mem[p].ptr) || (p >= mem[p].ptr && (b > p || b < mem[p].ptr))
  }

  /** How far position j lies ahead of position i on a cycle of n. */
  ghost function Ahead(i: nat, j: nat, n: nat): nat
    requires i < n && j < n
  {
    if i <= j then j - i else j + n - i
  }

  lemma FindPlace(fl: seq<nat>, b: nat) returns (j: nat)
    requires Ascending(fl) && |fl| > 0 && fl[0] < b && b !in fl
    ensures Belongs(fl, j, b)
  {
    j := 0;
    while j + 1 < |fl| && fl[j + 1] < b
      invariant j < |fl| && fl[j] < b
    {
      j := j + 1;
    }
  }

  lemma LastBelow(fl: seq<nat>, j: nat, b: nat)
    requires Ascending(fl) && Belongs(fl, j, b)
    ensures forall x | x in fl :: x <= fl[j] || b < x
  {
    forall x | x in fl ensures x <= fl[j] || b < x {
      var i :| 0 <= i < |fl| && fl[i] == x;
      OrderedAt(fl, i, j);
      if i > j {
        OrderedAt(fl, j + 1, i);
      }
    }
  }

  /** The search stops at the block b belongs after, and nowhere else. */
  lemma StopsIff(mem: Memory, fl: seq<nat>, i: nat, j: nat, b: nat)
    requires Listed(mem, fl) && Belongs(fl, j, b) && b !in fl && i < |fl|
    ensures Stops(mem, fl[i], b) <==> i == j
    ensures mem[fl[i]].ptr == fl[Succ(i, |fl|)] < |mem|
    ensures i != j ==> Ahead(Succ(i, |fl|), j, |fl|) < Ahead(i, j, |fl|)
  {
    EntryOfListed(mem, fl, i);
    OrderedAt(fl, 0, i);
    OrderedAt(fl, 0, j);
    if i + 1 < |fl| {
      OrderedAt(fl, i + 1, j);
      assert Below(fl, i, i + 1);
    }
    if j + 1 < |fl| {
      OrderedAt(fl, j + 1, i);
    }
  }

  /** free's walk along the list from freep: it ends at the block after which bp belongs. */
  method Search(mem: Memory, freep: nat, bp: nat, ghost fl: seq<nat>) returns (p: nat, ghost j: nat)
    requires Listed(mem, fl) && freep in fl && BASE < bp && bp !in fl
    ensures Belongs(fl, j, bp) && p == fl[j] != NULL
    ensures p in fl && p < bp && forall x | x in fl :: x <= p || bp < x
  {
    p := freep;
    j := FindPlace(fl, bp);
    ghost var i: nat :| i < |fl| && fl[i] == freep;
    while !(bp > p && bp < mem[p].ptr)
      invariant i < |fl| && fl[i] == p < |mem|
      decreases Ahead(i, j, |fl|)
    {
      StopsIff(mem, fl, i, j, bp);
      if p >= mem[p].ptr && (bp > p || bp < mem[p].ptr) {
        break;
      }
      p := mem[p].ptr;
      i := Succ(i, |fl|);
    }
    StopsIff(mem, fl, i, j, bp);
    OrderedAt(fl, 0, j);
    LastBelow(fl, j, bp);
  }

  // ---- The search of malloc ----

  /** Position d steps after f on a cycle of n. */
  ghost function Around(f: nat, d: nat, n: nat): (k: nat)
    requires f < n && d <= n
    ensures k < n
  {
    if f + d < n then f + d else f + d - n
  }

  /** The next d blocks after position f are too small. */
  ghost predicate TooSmall(mem: Memory, fl: seq<nat>, f: nat, d: nat, n: nat)
  {
    && f < |fl| && d <= |fl|
    && forall e {:trigger Around(f, e, |fl|)} | 1 <= e <= d ::
       var k := Around(f, e, |fl|); fl[k] < |mem| && mem[fl[k]].size < n
  }

  lemma NoneFits(mem: Memory, fl: seq<nat>, f: nat, n: nat)
    requires TooSmall(mem, fl, f, |fl|, n)
    ensures !Fits(mem, fl, n)
  {
    forall k | 0 <= k < |fl| ensures fl[k] < |mem| && mem[fl[k]].size < n {
      assert k == Around(f, if k > f then k - f else k + |fl| - f, |fl|);
    }
  }

  lemma Advance(mem: Memory, fl: seq<nat>, f: nat, d: nat)
    requires Listed(mem, fl) && f < |fl| && d < |fl|
    ensures mem[fl[Around(f, d, |fl|)]].ptr == fl[Around(f, d + 1, |fl|)] < |mem|
    ensures fl[Around(f, d + 1, |fl|)] == fl[f] <==> d + 1 == |fl|
  {
    EntryOfListed(mem, fl, Around(f, d, |fl|));
    DifferentAt(fl, Around(f, d + 1, |fl|), f);
  }

  /** The walk from position f has seen s blocks, all too small, and is about to look at p. */
  ghost predicate Touring(mem: Memory, fl: seq<nat>, f: nat, s: nat, prevp: nat, p: nat, n: nat)
  {
    && f < |fl| && s < |fl|
    && prevp == fl[Around(f, s, |fl|)] && p == fl[Around(f, s + 1, |fl|)] && p < |mem|
    && (p == fl[f] <==> s + 1 == |fl|)
    && TooSmall(mem, fl, f, s, n)
  }

  lemma TourStarts(mem: Memory, fl: seq<nat>, f: nat, n: nat)
    requires Listed(mem, fl) && f < |fl|
    ensures Touring(mem, fl, f, 0, fl[f], mem[fl[f]].ptr, n)
  {
    Advance(mem, fl, f, 0);
  }

  lemma TourGoesOn(mem: Memory, fl: seq<nat>, f: nat, s: nat, prevp: nat, p: nat, n: nat)
    requires Listed(mem, fl) && Touring(mem, fl, f, s, prevp, p, n) && mem[p].size < n && p != fl[f]
    ensures Touring(mem, fl, f, s + 1, p, mem[p].ptr, n)
  {
    Advance(mem, fl, f, s + 1);
    assert TooSmall(mem, fl, f, s + 1, n);
  }

  lemma TourEnds(mem: Memory, fl: seq<nat>, f: nat, s: nat, prevp: nat, p: nat, n: nat) returns (k: nat)
    requires Listed(mem, fl) && Touring(mem, fl, f, s, prevp, p, n) && n > 0 && (mem[p].size >= n || p == fl[f])
    ensures Fits(mem, fl, n) <==> mem[p].size >= n
    ensures mem[p].size >= n ==> 0 < k < |fl| && prevp == fl[k - 1] && p == fl[k]
  {
    k := Around(f, s + 1, |fl|);
    EntryOfListed(mem, fl, k);
    if mem[p].size < n {
      assert TooSmall(mem, fl, f, s + 1, n);
      NoneFits(mem, fl, f, n);
    } else {
      assert mem[fl[k]].size >= n;
    }
  }

  /** malloc's walk around the list from freep: it ends at the first block of at least n units, if there is one. */
  method Tour(mem: Memory, freep: nat, n: nat, ghost fl: seq<nat>)
    returns (found: bool, prevp: nat, p: nat, ghost k: nat)
    requires Listed(mem, fl) && freep in fl && n > 0
    ensures found == Fits(mem, fl, n)
    ensures found ==> 0 < k < |fl| && prevp == fl[k - 1] && p == fl[k] && p < |mem| && n <= mem[p].size
  {
    ghost var f: nat :| f < |fl| && fl[f] == freep;
    ghost var s := 0;
    TourStarts(mem, fl, f, n);
    prevp, p := freep, mem[freep].ptr;
    while mem[p].size < n && p != freep
      invariant Touring(mem, fl, f, s, prevp, p, n)
      decreases |fl| - s
    {
      TourGoesOn(mem, fl, f, s, prevp, p, n);
      prevp, p, s := p, mem[p].ptr, s + 1;
    }
    found := mem[p].size >= n;
    k := TourEnds(mem, fl, f, s, prevp, p, n);
  }

  /** r is what malloc returns for a new block of n units: the unit after its header. */
  ghost predicate Handed(mem: Memory, n: nat, live: set<nat>, r: nat)
  {
    r > 0 && r - 1 !in live && r - 1 < |mem| && mem[r - 1].size == n
  }

  lemma StartInOrder(mem: Memory)
    requires BASE < |mem| && mem[BASE] == Header(BASE, 0)
    ensures InOrder(mem, {}, [BASE], map[])
  {
    forall b: nat ensures !IsBlock({}, [BASE], b) {
    }
  }

  // ---- The allocator ----

  /** What sbrk answers: a refusal, or the contents of the memory now above the old break, whose end is the region
      asked for. */
  datatype Grant = Refused | Granted(more: Memory)

  function Asked(nu: nat): nat
  {
    if nu < MORECORE then MORECORE else nu
  }

  /** What morecore passes to sbrk for nu units: `nu * sizeof(Header)` as a C int. */
  function Request(nu: nat): int
  {
    var w := HEADER * Asked(nu) % TWO32;
    if w < 0x8000_0000 then w else w - TWO32
  }

  /**
  malloc's request is positive, and the number of bytes meant, exactly for these sizes. sbrk takes the others too:
  it shrinks the process, or leaves it alone, and answers with the old break as if it had granted them.
  */
  lemma RequestIff(nbytes: nat)
    requires nbytes < TWO32
    ensures Request(Nunits(nbytes)) > 0 <==> nbytes <= 0x7FFF_FFF0 || nbytes + HEADER - 1 >= TWO32
    ensures Request(Nunits(nbytes)) > 0 ==> Request(Nunits(nbytes)) == HEADER * Asked(Nunits(nbytes))
  {
    var s := nbytes + HEADER - 1;
    if s >= TWO32 {
      assert s % TWO32 == s - TWO32;
    }
  }

  /** The assumption made of sbrk: what it grants was a positive request, and the memory it adds fits the address
      space. */
  predicate Grantable(top: nat, nu: nat, grant: Grant)
  {
    grant.Granted? ==>
      Request(nu) > 0 && HEADER * Asked(nu) < TWO32 && Asked(nu) <= |grant.more| && top + |grant.more| <= UNITS
  }

  /** The units a granted request adds. */
  ghost function Region(top: nat, nu: nat, grant: Grant): (r: set<nat>)
    requires Grantable(top, nu, grant)
    ensures grant.Refused? ==> r == {}
  {
    if grant.Refused? then {}
    else var b := top + |grant.more| - Asked(nu); set u: nat | b <= u < b + Asked(nu) && Spans(b, Asked(nu), u)
  }

  /** Memory with a fresh block of nu units at its end, treated as handed out until it is freed. */
  lemma GrowInOrder(mem: Memory, live: set<nat>, fl: seq<nat>, home: map<nat, nat>, m: Memory, b: nat, n: nat)
    requires InOrder(mem, live, fl, home) && |mem| <= b && n > 0 && b + n <= |m| && m[..|mem|] == mem && m[b].size == n
    ensures InOrder(m, live + {b}, fl, Added(home, b, n)) && b !in live
    ensures Untouched(mem, home, m, Added(home, b, n), live)
  {
    forall x | 0 <= x < |mem| ensures m[x] == mem[x] {
      assert m[..|mem|][x] == mem[x];
    }
    forall k | 0 <= k < |fl| ensures EntryOk(m, fl, k) {
      EntryOfListed(mem, fl, k);
    }
    assert |mem| > BASE;
    ListedByEntries(m, fl);
    forall x: nat | IsBlock(live, fl, x) ensures mem[x].size > 0 {
      if x in fl {
        FreeSize(mem, fl, x);
      }
    }
    GrowTiled(mem, live, fl, home, m, b, n);
    GrowUntouched(mem, live, fl, home, m, b, n);
  }

  lemma GrowUntouched(mem: Memory, live: set<nat>, fl: seq<nat>, home: map<nat, nat>, m: Memory, b: nat, n: nat)
    requires Tiled(mem, live, fl, home) && |mem| <= b && |mem| <= |m| && forall x :: 0 <= x < |mem| ==> m[x] == mem[x]
    ensures Untouched(mem, home, m, Added(home, b, n), live)
  {
  }

  lemma AddedKeys(home: map<nat, nat>, top: nat, nu: nat, grant: Grant)
    requires Grantable(top, nu, grant) && grant.Granted?
    ensures Added(home, top + |grant.more| - Asked(nu), Asked(nu)).Keys == home.Keys + Region(top, nu, grant)
  {
  }

  lemma UntouchedRefl(mem: Memory, home: map<nat, nat>, live: set<nat>)
    ensures Untouched(mem, home, mem, home, live)
  {
  }

  lemma FitsLess(mem: Memory, fl: seq<nat>, n: nat, m: nat)
    requires Fits(mem, fl, n) && m <= n
    ensures Fits(mem, fl, m)
  {
  }

  /** A unit inside a live block, past its header, is no block's header. */
  lemma NoHeader(mem: Memory, live: set<nat>, fl: seq<nat>, home: map<nat, nat>, b: nat, u: nat)
    requires InOrder(mem, live, fl, home) && b in live && b < u && Within(mem, b, u)
    ensures BASE < u < |mem| && !IsBlock(live, fl, u) && u !in fl
  {
    assert IsBlock(live, fl, b);
    assert home[u] == b;
    assert mem[u].size > 0 ==> Within(mem, u, u);
    if u in fl && u != BASE {
      FreeSize(mem, fl, u);
    }
  }

  /** The program's own store into a block it holds. */
  lemma StoreInOrder(mem: Memory, live: set<nat>, fl: seq<nat>, home: map<nat, nat>, b: nat, u: nat, h: Header)
    requires InOrder(mem, live, fl, home) && b in live && b < u && Within(mem, b, u) && u < |mem|
    ensures InOrder(mem[u := h], live, fl, home)
  {
    NoHeader(mem, live, fl, home, b, u);
    var m := mem[u := h];
    forall k | 0 <= k < |fl| ensures EntryOk(m, fl, k) {
      EntryOfListed(mem, fl, k);
      assert fl[k] in fl;
    }
    ListedByEntries(m, fl);
    StoreTiled(mem, live, fl, home, u, h);
  }

  lemma StoreTiled(mem: Memory, live: set<nat>, fl: seq<nat>, home: map<nat, nat>, u: nat, h: Header)
    requires Tiled(mem, live, fl, home) && Coalesced(mem, fl) && u < |mem| && !IsBlock(live, fl, u) && u !in fl
    ensures Tiled(mem[u := h], live, fl, home) && Coalesced(mem[u := h], fl)
  {
    var m := mem[u := h];
    forall x: nat, y: nat {:trigger Within(m, x, y)} | IsBlock(live, fl, x) && x < |m| && Within(m, x, y)
      ensures y in home && home[y] == x
    {
      assert Within(mem, x, y);
    }
  }

  class Heap {
    var mem: Memory
    var freep: nat
    ghost var fl: seq<nat>         // the free blocks, in address order
    ghost var live: set<nat>       // the blocks handed out
    ghost var home: map<nat, nat>  // the units obtained from sbrk, each with its block

    ghost predicate Valid()
      reads this
    {
      && BASE < |mem| <= UNITS
      && if freep == NULL then fl == [] && live == {} && home == map[] else freep in fl && InOrder(mem, live, fl, home)
    }

    /** A program image before its first allocation. */
    constructor (image: Memory)
      requires BASE < |image| <= UNITS
      ensures Valid() && mem == image && live == {} && home == map[]
    {
      mem, freep := image, NULL;
      fl, live, home := [], {}, map[];
    }

    /** Links bp in after p, merging it with whichever neighbour it touches. */
    method Link(p: nat, bp: nat)
      requires p < |mem| && bp < |mem| && mem[p].ptr < |mem| && p != bp && mem[bp].size > 0
      modifies this`mem
      ensures mem == Freed(old(mem), p, bp)
    {
      if bp + mem[bp].size == mem[p].ptr {
        mem := mem[bp := Header(mem[mem[p].ptr].ptr, mem[bp].size + mem[mem[p].ptr].size)];
      } else {
        mem := mem[bp := Header(mem[p].ptr, mem[bp].size)];
      }
      if p + mem[p].size == bp {
        mem := mem[p := Header(mem[bp].ptr, mem[p].size + mem[bp].size)];
      } else {
        mem := mem[p := Header(bp, mem[p].size)];
      }
    }

    method Free(ap: nat)
      requires Valid() && ap > 0 && ap - 1 in live
      modifies this
      ensures Valid() && freep != NULL && |mem| == old(|mem|)
      ensures live == old(live) - {ap - 1} && home.Keys == old(home.Keys)
      ensures Untouched(old(mem), old(home), mem, home, live)
      ensures Fits(mem, fl, old(mem[ap - 1].size))
    {
      var bp := ap - 1;
      ghost var j;
      var p;
      p, j := Search(mem, freep, bp, fl);
      ghost var r, h := FreeKeeps(mem, live, fl, home, j, bp);
      Link(p, bp);
      freep := p;
      fl, live, home := r, live - {bp}, h;
    }

    /** Not a call of the allocator: the program writes to unit u of the block at b, which it holds. */
    method Store(b: nat, u: nat, h: Header)
      requires Valid() && b in live && b < |mem| && b < u < b + mem[b].size
      modifies this`mem
      ensures u < |mem| == old(|mem|) && mem == old(mem)[u := h] && Valid()
    {
      NoHeader(mem, live, fl, home, b, u);
      StoreInOrder(mem, live, fl, home, b, u, h);
      mem := mem[u := h];
    }

    /** Asks sbrk for nu units, or for 4096 if that is more, and frees them into the list. */
    method Morecore(nu: nat, grant: Grant) returns (r: nat)
      requires Valid() && freep != NULL && nu > 0 && Grantable(|mem|, nu, grant)
      modifies this
      ensures Valid() && freep != NULL && live == old(live)
      ensures home.Keys == old(home.Keys) + Region(|old(mem)|, nu, grant)
      ensures Untouched(old(mem), old(home), mem, home, live)
      ensures grant.Refused? ==>
                r == NULL && mem == old(mem) && freep == old(freep) && fl == old(fl) && home == old(home)
      ensures grant.Granted? ==> r == freep && Fits(mem, fl, nu)
    {
      hide InOrder;
      hide Untouched;
      hide Fits;
      hide Added;
      hide Region;
      var n := Asked(nu);
      UntouchedRefl(mem, home, live);
      if grant.Refused? {
        return NULL;
      }
      var hp := |mem| + |grant.more| - n;
      mem := mem + grant.more;
      mem := mem[hp := Header(mem[hp].ptr, n)];
      GrowInOrder(old(mem), live, fl, home, mem, hp, n);
      live, home := live + {hp}, Added(home, hp, n);
      AddedKeys(old(home), |old(mem)|, nu, grant);
      ghost var m, h := mem, home;
      Free(hp + 1);
      assert live == old(live);
      UntouchedTrans(old(mem), old(home), m, h, mem, home, live);
      FitsLess(mem, fl, n, nu);
      r := freep;
    }

    /** Sets up the empty list on the first call. */
    method Start(ghost n: nat)
      requires Valid() && n > 0
      modifies this
      ensures Valid() && freep != NULL && live == old(live) && home == old(home) && |mem| == old(|mem|)
      ensures Untouched(old(mem), old(home), mem, home, live)
      ensures Fits(mem, fl, n) == old(Fits(mem, fl, n))
    {
      if freep == NULL {
        freep := BASE;
        mem := mem[BASE := Header(BASE, 0)];
        fl := [BASE];
        StartInOrder(mem);
      }
    }

    /** Cuts the last n units off block p. */
    method Carve(p: nat, n: nat) returns (q: nat)
      requires p < |mem| && 0 < n < mem[p].size && p + mem[p].size <= |mem|
      modifies this`mem
      ensures mem == Split(old(mem), p, n) && q == p + old(mem[p].size) - n
    {
      mem := mem[p := Header(mem[p].ptr, mem[p].size - n)];
      q := p + mem[p].size;
      mem := mem[q := Header(mem[q].ptr, n)];
    }

    /** Unlinks block p. */
    method TakeWhole(prevp: nat, p: nat, ghost k: nat)
      requires Valid() && freep != NULL && 0 < k < |fl| && prevp == fl[k - 1] && p == fl[k]
      modifies this
      ensures Valid() && freep == prevp != NULL && home == old(home)
      ensures live == old(live) + {p} && Handed(mem, old(mem[p].size), old(live), p + 1)
      ensures Untouched(old(mem), old(home), mem, home, old(live))
    {
      TakeExact(mem, live, fl, home, k);
      mem := mem[prevp := Header(mem[p].ptr, mem[prevp].size)];
      fl, live := Without(fl, k), live + {p};
      freep := prevp;
    }

    /** Cuts n units off the end of block p. */
    method TakePart(prevp: nat, p: nat, n: nat, ghost k: nat) returns (q: nat)
      requires Valid() && freep != NULL && 0 < k < |fl| && prevp == fl[k - 1] && p == fl[k] && 0 < n < mem[p].size
      modifies this
      ensures Valid() && freep == prevp != NULL && home.Keys == old(home.Keys)
      ensures live == old(live) + {q} && Handed(mem, n, old(live), q + 1)
      ensures Untouched(old(mem), old(home), mem, home, old(live))
    {
      PartTaken(mem, live, fl, home, k, n);
      hide InOrder;
      hide Untouched;
      hide Split;
      hide Cut;
      hide Handed;
      q := Carve(p, n);
      live, home := live + {q}, Cut(home, p, q);
      freep := prevp;
    }

    /** Returns NULL only when no free block is large enough and sbrk refuses; asks sbrk at most once. */
    method Malloc(nbytes: nat, grant: Grant) returns (r: nat)
      requires Valid() && nbytes < TWO32 && Grantable(|mem|, Nunits(nbytes), grant)
      modifies this
      ensures Valid()
      ensures r == NULL <==> !old(Fits(mem, fl, Nunits(nbytes))) && grant.Refused?
      ensures r == NULL ==> live == old(live)
      ensures r != NULL ==> live == old(live) + {r - 1} && Handed(mem, Nunits(nbytes), old(live), r)
      ensures home.Keys == old(home.Keys) + if old(Fits(mem, fl, Nunits(nbytes))) then {}
              else Region(|old(mem)|, Nunits(nbytes), grant)
      ensures Untouched(old(mem), old(home), mem, home, old(live))
    {
      hide InOrder;
      hide Untouched;
      hide Fits;
      hide Region;
      hide Nunits;
      hide Listed;
      hide Handed;
      var nunits := Nunits(nbytes);
      Start(nunits);
      ghost var m0, h0, fits := mem, home, Fits(mem, fl, nunits);
      UntouchedRefl(mem, home, live);
      ghost var asked := false;
      while true
        invariant Valid() && freep != NULL && live == old(live)
        invariant Untouched(m0, h0, mem, home, live)
        invariant if asked then Fits(mem, fl, nunits) && !fits && grant.Granted?
                  else mem == m0 && home == h0 && fits == Fits(mem, fl, nunits)
        invariant home.Keys == h0.Keys + if asked then Region(|m0|, nunits, grant) else {}
        decreases !asked
      {
        var found, prevp, p;
        ghost var k;
        ListedOf(mem, live, fl, home);
        found, prevp, p, k := Tour(mem, freep, nunits, fl);
        if found {
          ghost var m1, h1 := mem, home;
          if mem[p].size == nunits {
            TakeWhole(prevp, p, k);
          } else {
            p := TakePart(prevp, p, nunits, k);
          }
          r := p + 1;
          UntouchedTrans(m0, h0, m1, h1, mem, home, old(live));
          UntouchedTrans(old(mem), old(home), m0, h0, mem, home, old(live));
          return;
        }
        p := Morecore(nunits, grant);
        if p == NULL {
          return NULL;
        }
        asked := true;
      }
    }
  }
}
