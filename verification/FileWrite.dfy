/**
filewrite: a write cut into transactions that fit the log.
*/
module FileWrites {
  import opened Basics
  import opened Blocks
  import opened BlockTree
  import opened Inodes
  import opened LogHeader
  import opened Spans
  import opened LogBooks
  import opened WriteLoads
  import opened FileSystems

  /** The most one transaction writes: 1536 bytes, hence at most four file blocks. */
  const CHUNK := (LOGSIZE - 1 - 1 - 2) / 2 * 512

  /** The index blocks that lie above file blocks lo..lo+4. */
  function IndexSlots(lo: nat): set<Slot>
  {
    var second := NDIRECT + NINDIRECT;
    if lo + 3 < NDIRECT then {}
    else if lo + 3 < second then {Ind}
    else if lo < second then {Ind, Dbl, DblMid(0)}
    else {Dbl, DblMid((lo - second) / NINDIRECT), DblMid((lo + 3 - second) / NINDIRECT)}
  }

  /** At most three index blocks, wherever the four blocks lie. */
  lemma IndexSlotsCount(lo: nat)
    ensures |IndexSlots(lo)| <= 3
  {
    var second := NDIRECT + NINDIRECT;
    if lo >= second {
      var (a, b) := (DblMid((lo - second) / NINDIRECT), DblMid((lo + 3 - second) / NINDIRECT));
      assert |{Dbl, a, b}| <= 3;
    }
  }

  /** A slot on the path to one of four neighbouring file blocks is a data slot or one of those. */
  lemma PathSlots(s: Slot, lo: nat, bn: nat)
    requires lo <= bn < lo + 4 && bn < MAXFILE && OnPath(s, DataSlot(bn))
    ensures s == DataSlot(bn) || s in IndexSlots(lo)
  {
    var second := NDIRECT + NINDIRECT;
    if bn >= second {
      var j, k := (bn - second) / NINDIRECT, (bn - second) % NINDIRECT;
      assert DataSlot(bn) == DblData(j, k);
      assert s == DblData(j, k) || OnPath(s, DblMid(j));
      assert s == DblData(j, k) || s == DblMid(j) || OnPath(s, Dbl);
      if lo >= second {
        assert j == (lo - second) / NINDIRECT || j == (lo + 3 - second) / NINDIRECT;
      } else {
        assert j == 0;
      }
    } else if bn >= NDIRECT {
      assert s == DataSlot(bn) || s == Ind;
    }
  }

  function DataSlots(bn: nat): (r: set<Slot>)
    ensures |r| <= 1
  {
    if bn < MAXFILE then {DataSlot(bn)} else {}
  }

  /** The slots of up to four neighbouring file blocks with their index blocks. */
  function SpanSlots(lo: nat): (r: set<Slot>)
    ensures |r| <= 7
  {
    IndexSlotsCount(lo);
    UnionSize(DataSlots(lo), DataSlots(lo + 1));
    UnionSize(DataSlots(lo + 2), DataSlots(lo + 3));
    UnionSize(DataSlots(lo) + DataSlots(lo + 1), DataSlots(lo + 2) + DataSlots(lo + 3));
    UnionSize(DataSlots(lo) + DataSlots(lo + 1) + (DataSlots(lo + 2) + DataSlots(lo + 3)), IndexSlots(lo));
    DataSlots(lo) + DataSlots(lo + 1) + (DataSlots(lo + 2) + DataSlots(lo + 3)) + IndexSlots(lo)
  }

  lemma PathMember(s: Slot, lo: nat, bn: nat)
    requires lo <= bn < lo + 4 && bn < MAXFILE && OnPath(s, DataSlot(bn))
    ensures s in DataSlots(bn) || s in IndexSlots(lo)
  {
    PathSlots(s, lo, bn);
  }

  lemma SpanMember(s: Slot, lo: nat, bn: nat)
    requires lo <= bn < lo + 4 && (s in DataSlots(bn) || s in IndexSlots(lo))
    ensures s in SpanSlots(lo)
  {
    hide DataSlots;
    hide IndexSlots;
    OneOfFour(s, DataSlots(lo), DataSlots(lo + 1), DataSlots(lo + 2), DataSlots(lo + 3), DataSlots(bn), IndexSlots(lo));
  }

  /** Every slot on a path to one of four neighbouring file blocks is among those seven. */
  lemma SpanHolds(s: Slot, lo: nat, hi: nat)
    requires InSpan(s, lo, hi) && hi <= lo + 4
    ensures s in SpanSlots(lo)
  {
    hide SpanSlots;
    hide OnPath;
    var bn: nat :| lo <= bn < hi && bn < MAXFILE && OnPath(s, DataSlot(bn));
    PathMember(s, lo, bn);
    SpanMember(s, lo, bn);
  }

  lemma OneOfFour<T>(s: T, a: set<T>, b: set<T>, c: set<T>, d: set<T>, e: set<T>, x: set<T>)
    requires e == a || e == b || e == c || e == d
    requires s in e || s in x
    ensures s in a + b + (c + d) + x
  {
  }

  lemma ChunkBlocks(off: nat, n: nat)
    requires n <= CHUNK
    ensures BlocksFor(off + n) <= off / BSIZE + 4
  {
  }

  /** `src` was written at `off` of inode i's file, and no other file changed. */
  ghost predicate Did(f0: Files, m0: map<nat, Meta>, f: Files, m: map<nat, Meta>, i: nat, off: nat, src: seq<Byte>)
  {
    && i in f0 && i in m0 && |f0[i]| == m0[i].size
    && off <= m0[i].size && off + |src| <= MAXFILE * BSIZE
    && m == m0[i := m0[i].(size := Max(off + |src|, m0[i].size))]
    && f == f0[i := Written(f0[i], off, src)]
  }

  lemma DidKind(f0: Files, m0: map<nat, Meta>, f: Files, m: map<nat, Meta>, i: nat, off: nat, src: seq<Byte>)
    requires Did(f0, m0, f, m, i, off, src)
    ensures i in m0 && i in m && m[i].kind == m0[i].kind
  {
  }

  lemma DidNothing(f: Files, m: map<nat, Meta>, i: nat, off: nat)
    requires i in f && i in m && |f[i]| == m[i].size && off <= m[i].size && off <= MAXFILE * BSIZE
    ensures Did(f, m, f, m, i, off, [])
  {
    assert Written(f[i], off, []) == f[i];
    assert f[i := f[i]] == f && m[i := m[i]] == m;
  }

  lemma DidMore(f0: Files, m0: map<nat, Meta>, f1: Files, m1: map<nat, Meta>, f2: Files, m2: map<nat, Meta>,
                i: nat, off: nat, a: seq<Byte>, b: seq<Byte>)
    requires Did(f0, m0, f1, m1, i, off, a) && Did(f1, m1, f2, m2, i, off + |a|, b)
    ensures Did(f0, m0, f2, m2, i, off, a + b)
  {
    WrittenMore(f0[i], off, a, b);
    assert f2 == f0[i := Written(f0[i], off, a + b)];
    assert m2 == m0[i := m2[i]];
  }

  /** Two writes in a row are one write of both pieces. */
  lemma WrittenMore(file: seq<Byte>, off: nat, a: seq<Byte>, b: seq<Byte>)
    requires off <= |file|
    ensures Written(Written(file, off, a), off + |a|, b) == Written(file, off, a + b)
  {
  }

  // ---- What becomes of one transaction ----

  /** None of the first n free blocks is in the log, which begins at block `start`. */
  ghost predicate Clear(free: seq<nat>, n: nat, start: int)
  {
    forall k :: 0 <= k < n && k < |free| ==> free[k] < start
  }

  /** The slots of inode i on the paths to file blocks lo..hi have been filled, and no others. */
  ghost predicate FilledIn(v: Disk, a: Addrs, v': Disk, a': Addrs, lo: nat, hi: nat)
  {
    forall s: Slot {:trigger At(v', a', s)} | s.Valid() ::
        At(v', a', s) == 0 <==> At(v, a, s) == 0 && !InSpan(s, lo, hi)
  }

  lemma ChunkWorking(g0: Books, g: Books, sb: Super, i: nat, off: nat, n: nat)
    requires g0 == Opened(g0.reserved, g0.own) && WriteSpan(g0, g, i, off, n) && Tracked(g, sb)
    ensures Working(g, g0.own, sb, i, off / BSIZE, BlocksFor(off + n)) && g.reserved == g0.reserved
    ensures g.others <= {InodeSector(i)}
  {
  }

  /** At the start of a transaction the pool is what is free on the disk, and what is wanted what is empty. */
  lemma AtStart(v: Disk, sb: Super, t: Trees, g0: Books, g: Books, i: nat, lo: nat, hi: nat)
    requires Wf(v, sb, t, g0.reserved, g0.own) && i in t && g.base == g0.own && g.reserved == g0.reserved
    ensures Pool(g, sb) == FreeOn(v, sb, 0) && Wanted(g0.own, i, lo, hi) == Empties(v, t[i], lo, hi)
  {
    FreeOnIs(v, sb, g0.reserved, g0.own, 0);
    WantedIs(v, sb, t, g0.reserved, g0.own, i, lo, hi);
  }

  lemma ChunkEnds(off: nat, n: nat)
    requires off + n <= MAXFILE * BSIZE
    ensures off / BSIZE <= BlocksFor(off + n) <= MAXFILE
  {
  }

  /** What the books of writei say of the disk it began with. */
  ghost predicate Begun(v: Disk, sb: Super, t: Trees, g0: Books, g: Books, i: nat, off: nat, n: nat)
  {
    && Wf(v, sb, t, g0.reserved, g0.own) && i in t && off + n <= MAXFILE * BSIZE
    && g0 == Opened(g0.reserved, g0.own) && WriteSpan(g0, g, i, off, n) && Tracked(g, sb)
  }

  /** A full log means a load of at least nine sectors; */
  lemma FullMeans(v: Disk, sb: Super, t: Trees, g0: Books, g: Books, lh: seq<nat>, i: nat, off: nat, n: nat)
    requires Begun(v, sb, t, g0, g, i, off, n) && Filed(g.own, g.blocks) && Distinct(lh) && Sorted(lh, g)
    requires g.others == {}
    ensures var lo, hi := off / BSIZE, BlocksFor(off + n);
            lo <= hi && |lh| <= Load(sb, Empties(v, t[i], lo, hi), FreeOn(v, sb, 0), hi - lo)
  {
    var lo, hi := off / BSIZE, BlocksFor(off + n);
    ChunkEnds(off, n);
    ChunkWorking(g0, g, sb, i, off, n);
    AtStart(v, sb, t, g0, g, i, lo, hi);
    AtMost(v, sb, t, g0.own, g, lh, i, lo, hi);
  }

  /** want of a block means fewer free blocks than empty slots. */
  lemma StarvedMeans(v: Disk, sb: Super, t: Trees, g0: Books, g: Books, i: nat, off: nat, n: nat)
    requires Begun(v, sb, t, g0, g, i, off, n) && Starved(g, sb, i, SpanSet(off / BSIZE, BlocksFor(off + n)))
    ensures |FreeOn(v, sb, 0)| < |Empties(v, t[i], off / BSIZE, BlocksFor(off + n))|
  {
    var lo, hi := off / BSIZE, BlocksFor(off + n);
    ChunkWorking(g0, g, sb, i, off, n);
    AtStart(v, sb, t, g0, g, i, lo, hi);
    TooFew(g, g0.own, sb, i, lo, hi);
  }

  /** The disk v' and trees t' after writei, its books g and its list lh. */
  ghost predicate Finished(v': Disk, sb: Super, t': Trees, g: Books, lh: seq<nat>, i: nat, off: nat, n: nat)
  {
    && Wf(v', sb, t', g.reserved, g.own) && i in t' && i < sb.ninodes && Filed(g.own, g.blocks) && Linked(g)
    && Posted(g)
    && WroteAll(g, i, off / BSIZE, BlocksFor(off + n)) && MapSectors(g.maps, sb) && Sorted(lh, g)
  }

  /** A write that is through has taken the first free blocks, and its load is in the list. */
  lemma FinishedMeans(v: Disk, sb: Super, t: Trees, g0: Books, v': Disk, t': Trees, g: Books, lh: seq<nat>, i: nat,
                      off: nat, n: nat)
    requires Begun(v, sb, t, g0, g, i, off, n) && Finished(v', sb, t', g, lh, i, off, n)
    ensures var lo, hi := off / BSIZE, BlocksFor(off + n);
            var E, F := Empties(v, t[i], lo, hi), FreeOn(v, sb, 0);
            && lo <= hi && |E| <= |F| && g.given == F[..|E|] && FreeOn(v', sb, 0) == F[|E|..]
            && Load(sb, E, F, hi - lo) + |g.others| <= |lh|
  {
    var lo, hi := off / BSIZE, BlocksFor(off + n);
    ChunkEnds(off, n);
    ChunkWorking(g0, g, sb, i, off, n);
    AtStart(v, sb, t, g0, g, i, lo, hi);
    FirstGiven(v', sb, t', g0.own, g, i, lo, hi);
    AtLeast(v', sb, t', g0.own, g, lh, i, lo, hi);
    FreeOnIs(v', sb, g.reserved, g.own, 0);
  }

  lemma FinishedFills(v: Disk, sb: Super, t: Trees, g0: Books, v': Disk, t': Trees, g: Books, lh: seq<nat>, i: nat,
                      off: nat, n: nat)
    requires Begun(v, sb, t, g0, g, i, off, n) && Finished(v', sb, t', g, lh, i, off, n)
    ensures FilledIn(v, t[i], v', t'[i], off / BSIZE, BlocksFor(off + n))
  {
    var lo, hi := off / BSIZE, BlocksFor(off + n);
    ChunkEnds(off, n);
    ChunkWorking(g0, g, sb, i, off, n);
    AllFilled(v', sb, t', g0.own, g, i, lo, hi);
    forall s: Slot | s.Valid() ensures At(v', t'[i], s) == 0 <==> At(v, t[i], s) == 0 && !InSpan(s, lo, hi) {
      EmptyIff(v, sb, t, g0.reserved, g0.own, i, s);
      EmptyIff(v', sb, t', g.reserved, g.own, i, s);
      ExtendsValues(g.base, g.own, Owner(i, s));
      FillsValues(g, Owner(i, s));
    }
  }

  lemma FillsValues(g: Books, o: Owner)
    requires forall b | b in g.own :: b in g.base || (b in g.given && g.own[b] in g.filled)
    requires Extends(g.base, g.own) && Linked(g)
    ensures o in g.own.Values <==> o in g.base.Values || o in g.filled
  {
    if o in g.own.Values {
      var b :| b in g.own && g.own[b] == o;
      assert b in g.base ==> g.base[b] == o;
    }
    ExtendsValues(g.base, g.own, o);
  }

  lemma {:induction false} PathFull(v: Disk, a: Addrs, s: Slot, d: Slot)
    requires d.Valid() && OnPath(s, d) && At(v, a, d) != 0
    ensures s.Valid() && At(v, a, s) != 0
    decreases d.Depth()
  {
    if s != d {
      ParentPresent(v, a, d);
      PathFull(v, a, s, d.Parent());
    }
  }

  /** A write inside a file without holes finds no slot empty. */
  lemma NoEmpties(v: Disk, a: Addrs, size: nat, off: nat, n: nat)
    requires Backed(v, a, size) && 0 < n && off + n <= size
    ensures Empties(v, a, off / BSIZE, BlocksFor(off + n)) == {}
  {
    forall s | InSpan(s, off / BSIZE, BlocksFor(off + n)) ensures s.Valid() && At(v, a, s) != 0 {
      var bn: nat :| off / BSIZE <= bn < BlocksFor(off + n) && bn < MAXFILE && OnPath(s, DataSlot(bn));
      var k := Max(off, bn * BSIZE);
      assert k / BSIZE == bn && k < size;
      assert HasByte(v, a, k);
      PathFull(v, a, s, DataSlot(bn));
    }
  }

  lemma EmptyLoad(sb: Super, free: seq<nat>, blocks: nat)
    ensures Load(sb, {}, free, blocks) == blocks
  {
    assert Parents({}) == {} && Take(free, 0) == [];
    assert MapsOf(sb, []) == {};
  }

  /** Four neighbouring file blocks never want more than seven blocks, nor touch more than three index blocks. */
  lemma ChunkFits(v: Disk, sb: Super, a: Addrs, E: set<Slot>, free: seq<nat>, lo: nat, hi: nat)
    requires lo <= hi <= lo + 4 && E <= Empties(v, a, lo, hi)
    ensures |E| <= 7 && Load(sb, E, free, hi - lo) <= 7 + |MapsOf(sb, Take(free, |E|))|
    ensures OneMap(sb, Take(free, |E|)) ==> Load(sb, E, free, hi - lo) < LOGSIZE - 1
  {
    forall s | s in E ensures s in SpanSlots(lo) {
      SpanHolds(s, lo, hi);
    }
    SubsetSize(E, SpanSlots(lo));
    forall s | s in Parents(E) ensures s in IndexSlots(lo) {
      var c :| c in E && !c.IsRoot() && c.Parent() == s;
      ParentInSpan(c, lo, hi);
    }
    SubsetSize(Parents(E), IndexSlots(lo));
    IndexSlotsCount(lo);
    if OneMap(sb, Take(free, |E|)) {
      OneMapSize(sb, Take(free, |E|));
    }
  }

  lemma ParentInSpan(c: Slot, lo: nat, hi: nat)
    requires InSpan(c, lo, hi) && !c.IsRoot() && hi <= lo + 4
    ensures c.Parent() in IndexSlots(lo)
  {
    var bn: nat :| lo <= bn < hi && bn < MAXFILE && OnPath(c, DataSlot(bn));
    ParentOnPath(c, DataSlot(bn));
    PathSlots(c.Parent(), lo, bn);
  }

  /** All of these blocks have their bits in one free-map block. */
  ghost predicate OneMap(sb: Super, bs: seq<nat>)
  {
    forall i, j :: 0 <= i < j < |bs| ==> BitmapSector(sb, bs[i]) == BitmapSector(sb, bs[j])
  }

  lemma OneMapSize(sb: Super, bs: seq<nat>)
    requires OneMap(sb, bs)
    ensures |MapsOf(sb, bs)| <= 1
  {
    if bs == [] {
      assert MapsOf(sb, bs) == {};
    } else {
      forall x | x in MapsOf(sb, bs) ensures x == BitmapSector(sb, bs[0]) {
        var b :| b in bs && BitmapSector(sb, b) == x;
        var k :| 0 <= k < |bs| && bs[k] == b;
      }
      SubsetSize(MapsOf(sb, bs), {BitmapSector(sb, bs[0])});
    }
  }

  /** Between transactions, with inode i a regular file and the log as mkfs sizes it. */
  ghost predicate Writable(fs: FileSystem, i: nat)
    reads fs
  {
    fs.Consistent() && fs.Idle() && i in fs.trees && i in fs.meta && fs.meta[i].kind != T_DEV && fs.logSize == LOGSIZE
  }

  /** A write of some bytes that writei does not refuse. */
  ghost predicate Acceptable(fs: FileSystem, i: nat, off: nat, n: nat)
    reads fs
  {
    i in fs.meta && 0 < n && off <= fs.meta[i].size && off + n <= MAXFILE * BSIZE
  }

  /** What decides the outcome of a write of n bytes at `off` is what it meets on the disk v: the empty slots
      on its paths, and the free blocks. */
  ghost predicate Decided(halt: Halt, v: Disk, sb: Super, t: Trees, i: nat, off: nat, n: nat)
  {
    var lo, hi := off / BSIZE, BlocksFor(off + n);
    && lo <= hi && i in t && Sized(v, sb)
    && var E, F := Empties(v, t[i], lo, hi), FreeOn(v, sb, 0);
    && (halt.OutOfBlocks? ==> |F| < |E|)
    && (halt.LogFull? ==> Load(sb, E, F, hi - lo) >= LOGSIZE - 1)
    && (halt.Running? ==> |E| <= |F| && Load(sb, E, F, hi - lo) < LOGSIZE - 1)
  }

  lemma FullDecided(v: Disk, sb: Super, t: Trees, g0: Books, g: Books, lh: seq<nat>, i: nat, off: nat, n: nat)
    requires Begun(v, sb, t, g0, g, i, off, n) && Filed(g.own, g.blocks) && Sorted(lh, g) && g.others == {}
    requires Listing(lh, g, sb, LOGSIZE) && |lh| >= LOGSIZE - 1
    ensures Decided(LogFull, v, sb, t, i, off, n)
  {
    SizedOf(v, sb, t, g0);
    FullMeans(v, sb, t, g0, g, lh, i, off, n);
  }

  lemma StarvedDecided(v: Disk, sb: Super, t: Trees, g0: Books, g: Books, i: nat, off: nat, n: nat)
    requires Begun(v, sb, t, g0, g, i, off, n) && Starved(g, sb, i, SpanSet(off / BSIZE, BlocksFor(off + n)))
    ensures Decided(OutOfBlocks, v, sb, t, i, off, n)
  {
    SizedOf(v, sb, t, g0);
    ChunkEnds(off, n);
    StarvedMeans(v, sb, t, g0, g, i, off, n);
  }

  /** A write that is through was light enough, since its inode block, if logged, found room. */
  lemma RunningDecided(v: Disk, sb: Super, t: Trees, g0: Books, v': Disk, t': Trees, g: Books, lh: seq<nat>,
                       size: nat, i: nat, off: nat, n: nat)
    requires Begun(v, sb, t, g0, g, i, off, n) && Finished(v', sb, t', g, lh, i, off, n) && 0 < n <= CHUNK
    requires i in t && Backed(v, t[i], size) && |lh| < LOGSIZE && (off + n > size ==> InodeSector(i) in g.others)
    ensures Decided(Running, v, sb, t, i, off, n)
  {
    SizedOf(v, sb, t, g0);
    hide Begun;
    hide Finished;
    hide Empties;
    hide FreeOn;
    hide Load;
    hide Backed;
    FinishedMeans(v, sb, t, g0, v', t', g, lh, i, off, n);
    if off + n > size {
      SubsetSize({InodeSector(i)}, g.others);
    } else {
      NoEmpties(v, t[i], size, off, n);
      EmptyLoad(sb, FreeOn(v, sb, 0), BlocksFor(off + n) - off / BSIZE);
      ChunkBlocks(off, n);
    }
  }

  lemma ListFacts(lh: seq<nat>, g: Books, sb: Super)
    requires Listing(lh, g, sb, LOGSIZE)
    ensures Distinct(lh) && |lh| < LOGSIZE && MapSectors(g.maps, sb)
  {
  }

  /** writei in a transaction of its own, before the commit: what it does is decided by the disk it finds. */
  method WriteTrans(fs: FileSystem, i: nat, off: Uint, chunk: seq<Byte>) returns (halt: Halt, r: Io)
    requires Writable(fs, i) && Acceptable(fs, i, off, |chunk|) && |chunk| <= CHUNK
    modifies fs
    ensures halt.Running? || halt.OutOfBlocks? || halt.LogFull?
    ensures halt.OutOfBlocks? ==> Sized(fs.view, fs.sb) && NoneFree(fs.view, fs.sb)
    ensures Decided(halt, old(fs.view), fs.sb, old(fs.trees), i, off, |chunk|)
    ensures halt.Running? ==>
              && r == Count(|chunk|) && fs.Consistent() && fs.g.reserved == old(fs.g).reserved
              && Begun(old(fs.view), fs.sb, old(fs.trees), old(fs.g), fs.g, i, off, |chunk|)
              && Finished(fs.view, fs.sb, fs.trees, fs.g, fs.lh, i, off, |chunk|)
              && Did(old(fs.Contents()), old(fs.meta), fs.Contents(), fs.meta, i, off, chunk)
  {
    ghost var v0, t0, g0, size := fs.view, fs.trees, fs.g, fs.meta[i].size;
    assert Backed(v0, t0[i], size);
    SizedOf(v0, fs.sb, t0, g0);
    hide Wf;
    hide Listing;
    hide Sorted;
    hide Filed;
    hide AllSynced;
    hide AllBacked;
    hide Backed;
    hide WriteSpan;
    hide NoneFree;
    hide Written;
    hide FilesOf;
    hide Tracked;
    hide Linked;
    hide Posted;
    hide Starved;
    hide SpanSet;
    hide WroteAll;
    hide Decided;
    hide BlocksFor;
    halt, r := fs.Writei(i, chunk, off);
    assert Begun(v0, fs.sb, t0, g0, fs.g, i, off, |chunk|);
    ListFacts(fs.lh, fs.g, fs.sb);
    hide Begun;
    if halt.LogFull? {
      FullDecided(v0, fs.sb, t0, g0, fs.g, fs.lh, i, off, |chunk|);
    } else if halt.OutOfBlocks? {
      StarvedDecided(v0, fs.sb, t0, g0, fs.g, i, off, |chunk|);
    } else {
      assert Finished(fs.view, fs.sb, fs.trees, fs.g, fs.lh, i, off, |chunk|);
      RunningDecided(v0, fs.sb, t0, g0, fs.view, fs.trees, fs.g, fs.lh, size, i, off, |chunk|);
    }
  }

  // ---- One transaction with its commit ----

  /** The transaction logs the log itself exactly when one of the blocks it takes is there. */
  lemma OutsideIff(v: Disk, sb: Super, t: Trees, g0: Books, v': Disk, t': Trees, g: Books, lh: seq<nat>, i: nat,
                   off: nat, n: nat)
    requires Begun(v, sb, t, g0, g, i, off, n) && Finished(v', sb, t', g, lh, i, off, n)
    requires Listing(lh, g, sb, LOGSIZE) && DataStart(sb) + LOGSIZE <= sb.size && Spilt(g0.own, [], sb.size - LOGSIZE)
    ensures Outside(lh, sb.size - LOGSIZE, LOGSIZE, sb.size)
       <==> Clear(FreeOn(v, sb, 0), |Empties(v, t[i], off / BSIZE, BlocksFor(off + n))|, sb.size - LOGSIZE)
  {
    var start := sb.size - LOGSIZE;
    FinishedMeans(v, sb, t, g0, v', t', g, lh, i, off, n);
    ChunkWorking(g0, g, sb, i, off, n);
    ReservedOutside(lh, g, sb, LOGSIZE);
    hide Wf;
    hide Tracked;
    hide WriteSpan;
    hide Empties;
    hide FreeOn;
    hide Posted;
    hide WroteAll;
    hide Outside;
    GivenListed(lh, g, sb, start);
    forall x | x in lh && start <= x ensures x in g.given {
      ListedGiven(lh, g0, g, sb, i, start, x);
    }
    ClearIff(lh, g.given, FreeOn(v, sb, 0), |Empties(v, t[i], off / BSIZE, BlocksFor(off + n))|, start);
  }

  lemma ClearIff(lh: seq<nat>, given: seq<nat>, F: seq<nat>, n: nat, start: int)
    requires n <= |F| && given == F[..n] && (forall x | x in lh && start <= x :: x in given)
    requires forall b | b in given && start <= b :: b in lh
    ensures (forall k :: 0 <= k < |lh| ==> lh[k] < start) <==> Clear(F, n, start)
  {
    if forall k :: 0 <= k < |lh| ==> lh[k] < start {
      forall k | 0 <= k < n ensures F[k] < start {
        var b := F[k];
        assert b == given[k];
        assert b in given && (start <= b ==> b in lh);
      }
    }
    if Clear(F, n, start) {
      forall k | 0 <= k < |lh| ensures lh[k] < start {
        assert lh[k] in lh;
      }
    }
  }

  lemma GivenListed(lh: seq<nat>, g: Books, sb: Super, start: int)
    requires Linked(g) && Spilt(g.own, lh, start)
    ensures forall b | b in g.given && start <= b :: b in lh
  {
  }

  lemma ListedGiven(lh: seq<nat>, g0: Books, g: Books, sb: Super, i: nat, start: int, x: nat)
    requires Sorted(lh, g) && MapSectors(g.maps, sb) && Filed(g.own, g.blocks) && Tracked(g, sb) && g.base == g0.own
    requires g.others <= {InodeSector(i)} && i < sb.ninodes && DataStart(sb) <= start && Spilt(g0.own, [], start)
    requires x in lh && start <= x
    ensures x in g.given
  {
    assert x !in g.maps && x !in g.others;
    var o :| o in g.blocks && g.blocks[o] == x;
    assert x in g.own;
  }

  /** What one transaction meets on the disk: the empty slots on its paths. */
  ghost function ChunkWants(v: Disk, a: Addrs, off: nat, n: nat): set<Slot>
  {
    Empties(v, a, off / BSIZE, BlocksFor(off + n))
  }

  /**
  What becomes of a transaction that writes `blocks` file blocks, on whose paths the slots E are empty, when F are the
  free blocks. The kernel stops when F is too short or the load too heavy; else the commit runs over the log exactly
  when one of the blocks taken is in it.
  */
  ghost predicate Verdict(halt: Halt, sb: Super, E: set<Slot>, F: seq<nat>, blocks: int)
  {
    && blocks >= 0
    && (halt.OutOfBlocks? ==> |F| < |E|)
    && (halt.LogFull? ==> Load(sb, E, F, blocks) >= LOGSIZE - 1)
    && (halt.Running? || halt.LogOverrun? ==> |E| <= |F| && Load(sb, E, F, blocks) < LOGSIZE - 1)
    && (halt.Running? ==> Clear(F, |E|, sb.size - LOGSIZE))
    && (halt.LogOverrun? ==> !Clear(F, |E|, sb.size - LOGSIZE))
  }

  ghost predicate ChunkVerdict(halt: Halt, v: Disk, sb: Super, a: Addrs, off: nat, n: nat)
  {
    Sized(v, sb) && Verdict(halt, sb, ChunkWants(v, a, off, n), FreeOn(v, sb, 0), BlocksFor(off + n) - off / BSIZE)
  }

  /** The transaction has taken the first free blocks and filled the slots on its paths with them. */
  ghost predicate Moved(v: Disk, a: Addrs, v': Disk, a': Addrs, sb: Super, off: nat, n: nat)
  {
    && Sized(v, sb) && Sized(v', sb) && |ChunkWants(v, a, off, n)| <= |FreeOn(v, sb, 0)|
    && FreeOn(v', sb, 0) == FreeOn(v, sb, 0)[|ChunkWants(v, a, off, n)|..]
    && FilledIn(v, a, v', a', off / BSIZE, BlocksFor(off + n))
  }

  lemma ChunkMoved(v: Disk, sb: Super, t: Trees, g0: Books, v': Disk, t': Trees, g: Books, lh: seq<nat>, i: nat,
                   off: nat, n: nat)
    requires Begun(v, sb, t, g0, g, i, off, n) && Finished(v', sb, t', g, lh, i, off, n)
    ensures i in t && i in t' && Moved(v, t[i], v', t'[i], sb, off, n)
  {
    FinishedMeans(v, sb, t, g0, v', t', g, lh, i, off, n);
    FinishedFills(v, sb, t, g0, v', t', g, lh, i, off, n);
  }

  /** Between transactions no tree block is in the log. */
  lemma IdleSpilt(fs: FileSystem)
    requires fs.Consistent() && fs.Idle() && fs.logSize == LOGSIZE
    ensures Spilt(fs.g.own, [], fs.sb.size - LOGSIZE) && DataStart(fs.sb) + LOGSIZE <= fs.sb.size
  {
  }

  lemma HaltedVerdict(halt: Halt, v: Disk, sb: Super, t: Trees, i: nat, off: nat, n: nat)
    requires (halt.OutOfBlocks? || halt.LogFull?) && Decided(halt, v, sb, t, i, off, n)
    ensures i in t && ChunkVerdict(halt, v, sb, t[i], off, n)
  {
  }

  lemma CommitVerdict(halt: Halt, v: Disk, sb: Super, t: Trees, g0: Books, v': Disk, t': Trees, g: Books, lh: seq<nat>,
                      i: nat, off: nat, n: nat)
    requires Begun(v, sb, t, g0, g, i, off, n) && Finished(v', sb, t', g, lh, i, off, n)
    requires Decided(Running, v, sb, t, i, off, n)
    requires Listing(lh, g, sb, LOGSIZE) && DataStart(sb) + LOGSIZE <= sb.size && Spilt(g0.own, [], sb.size - LOGSIZE)
    requires halt == if Outside(lh, sb.size - LOGSIZE, LOGSIZE, sb.size) then Running else LogOverrun
    ensures i in t && ChunkVerdict(halt, v, sb, t[i], off, n)
  {
    OutsideIff(v, sb, t, g0, v', t', g, lh, i, off, n);
  }

  /** One transaction of filewrite. What becomes of it is decided by the disk it finds. */
  method WriteChunk(fs: FileSystem, i: nat, off: Uint, chunk: seq<Byte>) returns (halt: Halt, r: Io)
    requires Writable(fs, i) && 0 < |chunk| <= CHUNK
    modifies fs
    ensures halt.Running? || halt.OutOfBlocks? || halt.LogOverrun? || halt.LogFull?
    ensures halt.OutOfBlocks? ==> NoneFree(fs.view, fs.sb)
    ensures halt.LogOverrun? ==> !LogReserved(old(fs.g).reserved, fs.LogStart(), fs.sb)
    ensures !old(Acceptable(fs, i, off, |chunk|)) ==> halt.Running? && r == Refused && unchanged(fs)
    ensures old(Acceptable(fs, i, off, |chunk|)) ==>
              ChunkVerdict(halt, old(fs.view), fs.sb, old(fs.trees)[i], off, |chunk|)
    ensures old(Acceptable(fs, i, off, |chunk|)) && halt.Running? ==>
              && r == Count(|chunk|) && Writable(fs, i) && fs.g.reserved == old(fs.g).reserved
              && Moved(old(fs.view), old(fs.trees)[i], fs.view, fs.trees[i], fs.sb, off, |chunk|)
              && Did(old(fs.Contents()), old(fs.meta), fs.Contents(), fs.meta, i, off, chunk)
  {
    hide Begun;
    hide Finished;
    hide Decided;
    hide ChunkVerdict;
    hide Moved;
    hide NoneFree;
    hide LogReserved;
    hide Outside;
    hide Headed;
    hide Did;
    hide Wf;
    hide Listing;
    hide Sorted;
    hide Filed;
    hide AllSynced;
    hide AllBacked;
    hide WriteSpan;
    hide FilesOf;
    hide Tracked;
    hide Linked;
    hide Posted;
    hide Starved;
    hide WroteAll;
    hide Spilt;
    hide BlocksFor;
    if !(off <= fs.meta[i].size && off + |chunk| <= MAXFILE * BSIZE) {
      halt, r := fs.Writei(i, chunk, off);
      return;
    }
    ghost var v0, t0, g0 := fs.view, fs.trees, fs.g;
    IdleSpilt(fs);
    halt, r := WriteTrans(fs, i, off, chunk);
    if !halt.Running? {
      HaltedVerdict(halt, v0, fs.sb, t0, i, off, |chunk|);
      return;
    }
    ghost var v1, g1, lh1 := fs.view, fs.g, fs.lh;
    halt := fs.Commit();
    CommitVerdict(halt, v0, fs.sb, t0, g0, v1, fs.trees, g1, lh1, i, off, |chunk|);
    if halt.Running? {
      FinishedAfter(v1, fs.view, fs.sb, fs.trees, g1, lh1, i, off, |chunk|);
      ChunkMoved(v0, fs.sb, t0, g0, fs.view, fs.trees, g1, lh1, i, off, |chunk|);
      DidKind(old(fs.Contents()), old(fs.meta), fs.Contents(), fs.meta, i, off, chunk);
    }
  }

  lemma FinishedAfter(v: Disk, v': Disk, sb: Super, t: Trees, g: Books, lh: seq<nat>, i: nat, off: nat, n: nat)
    requires Finished(v, sb, t, g, lh, i, off, n) && Wf(v', sb, t, g.reserved, g.own)
    ensures Finished(v', sb, t, g, lh, i, off, n)
  {
  }
}
