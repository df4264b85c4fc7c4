/**
When a whole write succeeds, decided on the disk it begins with.
*/
module WholeWrites {
  import opened Basics
  import opened Blocks
  import opened BlockTree
  import opened Inodes
  import opened LogHeader
  import opened Spans
  import opened LogBooks
  import opened WriteLoads
  import opened FileSystems
  import opened FileWrites

  // ---- What the chunks of a write find ----

  function Drop<T>(s: seq<T>, n: nat): seq<T>
  {
    if n <= |s| then s[n..] else []
  }

  /** The first file block past the first k bytes written at `off`. */
  function Upto(off: nat, k: nat): nat
  {
    if k == 0 then off / BSIZE else BlocksFor(off + k)
  }

  /** The slots on the paths of the first k bytes that are empty on the disk v: what the chunks before byte k take
      blocks for. */
  ghost function Prior(v: Disk, a: Addrs, off: nat, k: nat): set<Slot>
  {
    Empties(v, a, off / BSIZE, Upto(off, k))
  }

  /** What is left empty for the chunk of n bytes at byte k, */
  ghost function Ahead(v: Disk, a: Addrs, off: nat, k: nat, n: nat): set<Slot>
  {
    ChunkWants(v, a, off + k, n) - Prior(v, a, off, k)
  }

  /** and what becomes of it. */
  ghost predicate Foretold(halt: Halt, v: Disk, sb: Super, a: Addrs, off: nat, k: nat, n: nat)
  {
    && Sized(v, sb)
    && Verdict(halt, sb, Ahead(v, a, off, k, n), Drop(FreeOn(v, sb, 0), |Prior(v, a, off, k)|),
               BlocksFor(off + k + n) - (off + k) / BSIZE)
  }

  /** How the disk v' and the addresses a' stand to those at the beginning, v and a, when k bytes have been written. */
  ghost predicate Reached(v: Disk, a: Addrs, v': Disk, a': Addrs, sb: Super, off: nat, k: nat)
  {
    && Sized(v, sb) && Sized(v', sb) && |Prior(v, a, off, k)| <= |FreeOn(v, sb, 0)|
    && FreeOn(v', sb, 0) == FreeOn(v, sb, 0)[|Prior(v, a, off, k)|..]
    && FilledIn(v, a, v', a', off / BSIZE, Upto(off, k))
  }

  lemma ReachedFirst(v: Disk, a: Addrs, sb: Super, off: nat)
    requires Sized(v, sb)
    ensures Reached(v, a, v, a, sb, off, 0)
  {
    assert Prior(v, a, off, 0) == {};
  }

  /** The paths of the first k + n bytes are those of the first k and of the next n. */
  lemma SpanJoins(s: Slot, off: nat, k: nat, n: nat)
    requires 0 < n
    ensures InSpan(s, off / BSIZE, Upto(off, k + n)) <==>
            InSpan(s, off / BSIZE, Upto(off, k)) || InSpan(s, (off + k) / BSIZE, BlocksFor(off + k + n))
  {
    var lo, mid, at, hi := off / BSIZE, Upto(off, k), (off + k) / BSIZE, BlocksFor(off + k + n);
    assert lo <= at <= mid <= hi && Upto(off, k + n) == hi;
    if InSpan(s, lo, hi) {
      var bn: nat :| lo <= bn < hi && bn < MAXFILE && OnPath(s, DataSlot(bn));
      assert bn < mid || at <= bn;
    }
    if InSpan(s, lo, mid) {
      WiderSpan(s, lo, mid, lo, hi);
    }
    if InSpan(s, at, hi) {
      WiderSpan(s, at, hi, lo, hi);
    }
  }

  lemma PriorMore(v: Disk, a: Addrs, off: nat, k: nat, n: nat)
    requires 0 < n
    ensures Prior(v, a, off, k + n) == Prior(v, a, off, k) + Ahead(v, a, off, k, n)
    ensures |Prior(v, a, off, k + n)| == |Prior(v, a, off, k)| + |Ahead(v, a, off, k, n)|
  {
    hide InSpan;
    hide SpanSet;
    hide Upto;
    forall s ensures s in Prior(v, a, off, k + n) <==> s in Prior(v, a, off, k) + Ahead(v, a, off, k, n) {
      SpanJoins(s, off, k, n);
    }
    UnionSize(Prior(v, a, off, k), Ahead(v, a, off, k, n));
  }

  /** The chunk at byte k finds what was foretold, */
  lemma ReachedWants(v: Disk, a: Addrs, v': Disk, a': Addrs, sb: Super, off: nat, k: nat, n: nat)
    requires Reached(v, a, v', a', sb, off, k)
    ensures ChunkWants(v', a', off + k, n) == Ahead(v, a, off, k, n)
  {
    forall s ensures s in ChunkWants(v', a', off + k, n) <==> s in Ahead(v, a, off, k, n) {
    }
  }

  /** so it does what was foretold, */
  lemma ReachedVerdict(halt: Halt, v: Disk, a: Addrs, v': Disk, a': Addrs, sb: Super, off: nat, k: nat, n: nat)
    requires Reached(v, a, v', a', sb, off, k)
    ensures ChunkVerdict(halt, v', sb, a', off + k, n) <==> Foretold(halt, v, sb, a, off, k, n)
  {
    ReachedWants(v, a, v', a', sb, off, k, n);
  }

  /** and leaves what the next one finds. */
  lemma ReachedMore(v: Disk, a: Addrs, v1: Disk, a1: Addrs, v2: Disk, a2: Addrs, sb: Super, off: nat, k: nat, n: nat)
    requires Reached(v, a, v1, a1, sb, off, k) && Moved(v1, a1, v2, a2, sb, off + k, n) && 0 < n
    ensures Reached(v, a, v2, a2, sb, off, k + n)
  {
    hide FilledIn;
    hide ChunkWants;
    hide Ahead;
    hide Prior;
    hide FreeOn;
    hide Upto;
    hide BlocksFor;
    ReachedWants(v, a, v1, a1, sb, off, k, n);
    PriorMore(v, a, off, k, n);
    FilledMore(v, a, v1, a1, v2, a2, off, k, n);
    DropMore(FreeOn(v, sb, 0), |Prior(v, a, off, k)|, |Ahead(v, a, off, k, n)|);
  }

  lemma DropMore<T>(s: seq<T>, p: nat, q: nat)
    requires p <= |s| && q <= |s[p..]|
    ensures p + q <= |s| && s[p..][q..] == s[p + q..]
  {
  }

  lemma FilledMore(v: Disk, a: Addrs, v1: Disk, a1: Addrs, v2: Disk, a2: Addrs, off: nat, k: nat, n: nat)
    requires FilledIn(v, a, v1, a1, off / BSIZE, Upto(off, k)) && 0 < n
    requires FilledIn(v1, a1, v2, a2, (off + k) / BSIZE, BlocksFor(off + k + n))
    ensures FilledIn(v, a, v2, a2, off / BSIZE, Upto(off, k + n))
  {
    forall s: Slot | s.Valid()
      ensures At(v2, a2, s) == 0 <==> At(v, a, s) == 0 && !InSpan(s, off / BSIZE, Upto(off, k + n))
    {
      SpanJoins(s, off, k, n);
      assert At(v1, a1, s) == 0 <==> At(v, a, s) == 0 && !InSpan(s, off / BSIZE, Upto(off, k));
    }
  }

  /** The length of the chunk that begins at byte k of n. */
  function ChunkAt(n: nat, k: nat): nat
    requires k <= n
  {
    Min(n - k, CHUNK)
  }

  /** Every chunk before byte `done` does what it does by the disk v. */
  ghost predicate AllForetold(v: Disk, sb: Super, a: Addrs, off: nat, len: nat, done: nat)
    requires done <= len
  {
    forall k: nat | k < done && k % CHUNK == 0 :: Foretold(Running, v, sb, a, off, k, ChunkAt(len, k))
  }

  // ---- When all of them go through ----

  /** The transaction of n bytes at byte k leaves room in the log for the inode block. */
  ghost predicate Light(v: Disk, sb: Super, a: Addrs, off: nat, k: nat, n: nat)
    requires Sized(v, sb)
  {
    && (off + k) / BSIZE <= BlocksFor(off + k + n)
    && Load(sb, Ahead(v, a, off, k, n), Drop(FreeOn(v, sb, 0), |Prior(v, a, off, k)|),
            BlocksFor(off + k + n) - (off + k) / BSIZE) < LOGSIZE - 1
  }

  /** So do all the transactions that begin before byte k, of a write of len bytes. */
  ghost predicate LightUpto(v: Disk, sb: Super, a: Addrs, off: nat, len: nat, k: nat)
    requires Sized(v, sb) && k <= len
  {
    forall j: nat | j < k && j % CHUNK == 0 :: Light(v, sb, a, off, j, ChunkAt(len, j))
  }

  lemma PriorGrows(v: Disk, a: Addrs, off: nat, k: nat, len: nat)
    requires k <= len
    ensures |Prior(v, a, off, k)| <= |Prior(v, a, off, len)|
  {
    forall s | s in Prior(v, a, off, k) ensures s in Prior(v, a, off, len) {
      assert Upto(off, k) <= Upto(off, len);
      WiderSpan(s, off / BSIZE, Upto(off, k), off / BSIZE, Upto(off, len));
    }
    SubsetSize(Prior(v, a, off, k), Prior(v, a, off, len));
  }

  /** What a chunk and those before it want is part of what the whole write wants. */
  lemma AheadFits(v: Disk, a: Addrs, off: nat, k: nat, n: nat, len: nat)
    requires 0 < n && k + n <= len
    ensures |Prior(v, a, off, k)| + |Ahead(v, a, off, k, n)| == |Prior(v, a, off, k + n)| <= |Prior(v, a, off, len)|
  {
    hide Prior;
    hide Ahead;
    PriorMore(v, a, off, k, n);
    PriorGrows(v, a, off, k + n, len);
  }

  lemma ClearParts(F: seq<nat>, p: nat, q: nat, start: int)
    requires p <= |F|
    ensures Clear(F, p + q, start) <==> Clear(F, p, start) && Clear(Drop(F, p), q, start)
  {
    if Clear(F, p + q, start) {
      forall k | 0 <= k < q && k < |Drop(F, p)| ensures Drop(F, p)[k] < start {
        assert Drop(F, p)[k] == F[p + k];
      }
    }
    if Clear(F, p, start) && Clear(Drop(F, p), q, start) {
      forall k | 0 <= k < p + q && k < |F| ensures F[k] < start {
        assert k >= p ==> Drop(F, p)[k - p] == F[k];
      }
    }
  }

  /** One chunk goes through exactly when it is light, there are blocks for it, and they are before the log. */
  lemma ForetoldIff(v: Disk, sb: Super, a: Addrs, off: nat, k: nat, n: nat)
    requires Sized(v, sb) && 0 < n && Stocked(v, sb, a, off, k)
    ensures Foretold(Running, v, sb, a, off, k, n) <==> Light(v, sb, a, off, k, n) && Stocked(v, sb, a, off, k + n)
  {
    hide Load;
    hide Clear;
    hide Ahead;
    hide Prior;
    hide FreeOn;
    PriorMore(v, a, off, k, n);
    ClearParts(FreeOn(v, sb, 0), |Prior(v, a, off, k)|, |Ahead(v, a, off, k, n)|, sb.size - LOGSIZE);
  }

  /** Byte k is where a chunk begins, or the end. */
  predicate Boundary(len: nat, k: nat)
  {
    k <= len && (k < len ==> k % CHUNK == 0)
  }

  /** Where the chunk before k begins. */
  function Before(k: nat): (j: nat)
    requires 0 < k
    ensures j < k <= j + CHUNK && j % CHUNK == 0
  {
    assert CHUNK == 1536;
    (k - 1) / CHUNK * CHUNK
  }

  lemma BeforeEnds(len: nat, k: nat)
    requires 0 < k && Boundary(len, k)
    ensures Boundary(len, Before(k)) && Before(k) < k <= len && k == Before(k) + ChunkAt(len, Before(k))
  {
    if k < len {
      assert CHUNK == 1536;
    }
  }

  lemma ForetoldSplit(v: Disk, sb: Super, a: Addrs, off: nat, len: nat, k: nat)
    requires Sized(v, sb) && 0 < k <= len
    ensures var j := Before(k);
            && (AllForetold(v, sb, a, off, len, k) <==>
                AllForetold(v, sb, a, off, len, j) && Foretold(Running, v, sb, a, off, j, ChunkAt(len, j)))
            && (LightUpto(v, sb, a, off, len, k) <==>
                LightUpto(v, sb, a, off, len, j) && Light(v, sb, a, off, j, ChunkAt(len, j)))
  {
    hide Foretold;
    hide Light;
    hide ChunkAt;
    forall i: nat | i < k && i % CHUNK == 0 ensures i <= Before(k) {
      NoneBetween(i, k);
    }
  }

  lemma NoneBetween(i: nat, k: nat)
    requires i < k && i % CHUNK == 0
    ensures i <= Before(k)
  {
    assert CHUNK == 1536;
  }

  /** The chunks up to byte k go through exactly when they are light and the blocks they take are there and before the
      log. */
  lemma {:induction false} ForetoldUpto(v: Disk, sb: Super, a: Addrs, off: nat, len: nat, k: nat)
    requires Sized(v, sb) && Boundary(len, k)
    ensures AllForetold(v, sb, a, off, len, k) <==> LightUpto(v, sb, a, off, len, k) && Stocked(v, sb, a, off, k)
    decreases k
  {
    hide AllForetold;
    hide LightUpto;
    hide Foretold;
    hide Light;
    hide Stocked;
    hide Before;
    hide ChunkAt;
    hide Boundary;
    if k == 0 {
      NoneForetold(v, sb, a, off, len);
    } else {
      var j := Before(k);
      BeforeEnds(len, k);
      ForetoldUpto(v, sb, a, off, len, j);
      ForetoldSplit(v, sb, a, off, len, k);
      StockedLess(v, sb, a, off, j, k);
      if Stocked(v, sb, a, off, j) {
        ForetoldIff(v, sb, a, off, j, ChunkAt(len, j));
      }
    }
  }

  /** There is a block, before the log, for every empty slot on the paths of the first k bytes. */
  ghost predicate Stocked(v: Disk, sb: Super, a: Addrs, off: nat, k: nat)
    requires Sized(v, sb)
  {
    |Prior(v, a, off, k)| <= |FreeOn(v, sb, 0)| && Clear(FreeOn(v, sb, 0), |Prior(v, a, off, k)|, sb.size - LOGSIZE)
  }

  lemma StockedLess(v: Disk, sb: Super, a: Addrs, off: nat, j: nat, k: nat)
    requires Sized(v, sb) && j <= k
    ensures Stocked(v, sb, a, off, k) ==> Stocked(v, sb, a, off, j)
  {
    hide Prior;
    PriorGrows(v, a, off, j, k);
  }

  lemma NoneForetold(v: Disk, sb: Super, a: Addrs, off: nat, len: nat)
    requires Sized(v, sb)
    ensures AllForetold(v, sb, a, off, len, 0) && LightUpto(v, sb, a, off, len, 0) && Stocked(v, sb, a, off, 0)
  {
    hide Foretold;
    hide Light;
    hide FreeOn;
    assert Prior(v, a, off, 0) == {};
  }

  /**
  A write goes through exactly when every chunk is light, the disk has a free block for every empty slot on the
  paths of its bytes, and none of the first so many free blocks is in the log.
  */
  lemma GoesThroughIff(v: Disk, sb: Super, a: Addrs, off: nat, len: nat)
    requires Sized(v, sb)
    ensures AllForetold(v, sb, a, off, len, len) <==> LightUpto(v, sb, a, off, len, len) && Stocked(v, sb, a, off, len)
  {
    ForetoldUpto(v, sb, a, off, len, len);
  }

  /** A write that the kernel stops for want of a block had fewer free blocks than empty slots when it began. */
  lemma StarvedAtStart(v: Disk, sb: Super, a: Addrs, off: nat, k: nat, n: nat, len: nat)
    requires Foretold(OutOfBlocks, v, sb, a, off, k, n) && 0 < n && k + n <= len
    ensures |FreeOn(v, sb, 0)| < |Prior(v, a, off, len)|
  {
    hide Ahead;
    hide Prior;
    hide FreeOn;
    AheadFits(v, a, off, k, n, len);
  }

  lemma OneMapPart(sb: Super, F: seq<nat>, p: nat, q: nat, n: nat)
    requires OneMap(sb, Take(F, n)) && p + q <= n
    ensures OneMap(sb, Take(Drop(F, p), q))
  {
    var part, all := Take(Drop(F, p), q), Take(F, n);
    assert forall i :: 0 <= i < |part| ==> p + i < |all| && part[i] == all[p + i];
  }

  /** When the blocks a write takes have their bits in one free-map block every chunk is light, on any disk. */
  lemma OneMapLight(v: Disk, sb: Super, a: Addrs, off: nat, len: nat)
    requires Sized(v, sb) && OneMap(sb, Take(FreeOn(v, sb, 0), |Prior(v, a, off, len)|))
    ensures LightUpto(v, sb, a, off, len, len)
  {
    hide Light;
    hide OneMap;
    hide Prior;
    forall k: nat | k < len && k % CHUNK == 0 ensures Light(v, sb, a, off, k, ChunkAt(len, k)) {
      ChunkLight(v, sb, a, off, k, ChunkAt(len, k), len);
    }
  }

  lemma ChunkLight(v: Disk, sb: Super, a: Addrs, off: nat, k: nat, n: nat, len: nat)
    requires Sized(v, sb) && 0 < n <= CHUNK && k + n <= len
    requires OneMap(sb, Take(FreeOn(v, sb, 0), |Prior(v, a, off, len)|))
    ensures Light(v, sb, a, off, k, n)
  {
    var lo, hi := (off + k) / BSIZE, BlocksFor(off + k + n);
    var F, p, E := FreeOn(v, sb, 0), |Prior(v, a, off, k)|, Ahead(v, a, off, k, n);
    assert E <= Empties(v, a, lo, hi);
    ChunkBlocks(off + k, n);
    hide OneMap;
    hide Load;
    hide Empties;
    hide FreeOn;
    AheadFits(v, a, off, k, n, len);
    OneMapPart(sb, F, p, |E|, |Prior(v, a, off, len)|);
    ChunkFits(v, sb, a, E, Drop(F, p), lo, hi);
  }

  /** So it is on a disk whose free map is one block. */
  lemma SmallDiskLight(v: Disk, sb: Super, a: Addrs, off: nat, len: nat)
    requires Sized(v, sb) && sb.size <= BPB
    ensures LightUpto(v, sb, a, off, len, len)
  {
    var F := FreeOn(v, sb, 0);
    hide FreeOn;
    hide Prior;
    hide LightUpto;
    var first := Take(F, |Prior(v, a, off, len)|);
    forall i, j | 0 <= i < j < |first| ensures BitmapSector(sb, first[i]) == BitmapSector(sb, first[j]) {
      FreeBelow(v, sb, 0, i);
      FreeBelow(v, sb, 0, j);
    }
    OneMapLight(v, sb, a, off, len);
  }

  lemma {:induction false} FreeBelow(v: Disk, sb: Super, c: nat, i: nat)
    requires Sized(v, sb) && i < |FreeOn(v, sb, c)|
    ensures FreeOn(v, sb, c)[i] < sb.size
    decreases sb.size - c
  {
    if InUse(v, sb, c) {
      FreeBelow(v, sb, c + 1, i);
    } else if i > 0 {
      FreeBelow(v, sb, c + 1, i - 1);
    }
  }

  // ---- filewrite ----

  ghost predicate StartsInFile(m0: map<nat, Meta>, i: nat, off: nat)
  {
    i in m0 && off <= m0[i].size && off <= MAXFILE * BSIZE
  }

  /** The first k bytes of addr are in the file; nothing has changed when k is 0. */
  ghost predicate InFile(f0: Files, m0: map<nat, Meta>, f: Files, m: map<nat, Meta>, i: nat, off: nat, addr: seq<Byte>,
                         k: nat)
  {
    && k <= |addr|
    && (k > 0 ==> StartsInFile(m0, i, off) && off + k <= MAXFILE * BSIZE)
    && (k == 0 ==> f == f0 && m == m0)
    && (StartsInFile(m0, i, off) ==> Did(f0, m0, f, m, i, off, addr[..k]))
  }

  lemma InFileMore(f0: Files, m0: map<nat, Meta>, f1: Files, m1: map<nat, Meta>, f2: Files, m2: map<nat, Meta>,
                   i: nat, off: nat, addr: seq<Byte>, k: nat, n: nat)
    requires InFile(f0, m0, f1, m1, i, off, addr, k) && 0 < n && k + n <= |addr|
    requires Did(f1, m1, f2, m2, i, off + k, addr[k..k + n])
    ensures InFile(f0, m0, f2, m2, i, off, addr, k + n)
  {
    assert StartsInFile(m0, i, off);
    DidMore(f0, m0, f1, m1, f2, m2, i, off, addr[..k], addr[k..k + n]);
    SliceMore(addr, k, n);
  }

  lemma WhyRefused(f0: Files, m0: map<nat, Meta>, f: Files, m: map<nat, Meta>, i: nat, off: nat, addr: seq<Byte>,
                   k: nat, n: nat)
    requires InFile(f0, m0, f, m, i, off, addr, k) && i in m && (off + k > m[i].size || off + k + n > MAXFILE * BSIZE)
    ensures if !StartsInFile(m0, i, off) then k == 0 else off + k + n > MAXFILE * BSIZE
  {
  }

  /** One turn of filewrite's loop: the next n bytes. */
  method FileStep(fs: FileSystem, ghost f0: Files, ghost m0: map<nat, Meta>, ghost v0: Disk, ghost a0: Addrs,
                  i: nat, off: Uint, addr: seq<Byte>, k: nat, n: nat)
    returns (halt: Halt, refused: bool)
    requires Writable(fs, i) && 0 < n <= CHUNK && k + n <= |addr| && off + k < TWO32
    requires InFile(f0, m0, fs.Contents(), fs.meta, i, off, addr, k)
    requires Reached(v0, a0, fs.view, fs.trees[i], fs.sb, off, k)
    modifies fs
    ensures halt.Running? || halt.OutOfBlocks? || halt.LogOverrun? || halt.LogFull?
    ensures halt.OutOfBlocks? ==> NoneFree(fs.view, fs.sb)
    ensures halt.LogOverrun? ==> !LogReserved(old(fs.g).reserved, fs.LogStart(), fs.sb)
    ensures !halt.Running? || !refused ==> Foretold(halt, v0, fs.sb, a0, off, k, n)
    ensures halt.Running? ==>
              && Writable(fs, i) && fs.g.reserved == old(fs.g).reserved
              && InFile(f0, m0, fs.Contents(), fs.meta, i, off, addr, if refused then k else k + n)
              && Reached(v0, a0, fs.view, fs.trees[i], fs.sb, off, if refused then k else k + n)
    ensures halt.Running? && refused ==> if !StartsInFile(m0, i, off) then k == 0 else off + k + n > MAXFILE * BSIZE
  {
    hide Did;
    hide InFile;
    hide Reached;
    hide Foretold;
    hide ChunkVerdict;
    hide Moved;
    hide NoneFree;
    hide LogReserved;
    hide FileSystem.Consistent;
    hide FileSystem.Idle;
    hide FileSystem.Contents;
    ghost var f1, m1, v1, a1 := fs.Contents(), fs.meta, fs.view, fs.trees[i];
    var io;
    halt, io := WriteChunk(fs, i, off + k, addr[k..k + n]);
    refused := io.Refused?;
    ReachedVerdict(halt, v0, a0, v1, a1, fs.sb, off, k, n);
    if halt.Running? {
      if refused {
        WhyRefused(f0, m0, f1, m1, i, off, addr, k, n);
      } else {
        InFileMore(f0, m0, f1, m1, fs.Contents(), fs.meta, i, off, addr, k, n);
        ReachedMore(v0, a0, v1, a1, fs.view, fs.trees[i], fs.sb, off, k, n);
      }
    }
  }

  lemma NextChunk(k: nat, k': nat, n: nat)
    requires k % CHUNK == 0 && k < n && k' == k + Min(n - k, CHUNK)
    ensures k' < n ==> k' % CHUNK == 0
  {
  }

  lemma ForetoldMore(v: Disk, sb: Super, a: Addrs, off: nat, len: nat, k: nat)
    requires k < len && k % CHUNK == 0 && AllForetold(v, sb, a, off, len, k)
    requires Foretold(Running, v, sb, a, off, k, ChunkAt(len, k))
    ensures AllForetold(v, sb, a, off, len, k + ChunkAt(len, k))
  {
    hide Foretold;
    forall j: nat | j < k + ChunkAt(len, k) && j % CHUNK == 0
      ensures Foretold(Running, v, sb, a, off, j, ChunkAt(len, j))
    {
      if j > k {
        assert false;
      }
    }
  }

  lemma InFileFits(f0: Files, m0: map<nat, Meta>, f: Files, m: map<nat, Meta>, i: nat, off: Uint, addr: seq<Byte>,
                   k: nat)
    requires InFile(f0, m0, f, m, i, off, addr, k)
    ensures off + k < TWO32
  {
  }

  lemma Starting(fs: FileSystem, i: nat, off: nat, addr: seq<Byte>)
    requires Writable(fs, i)
    ensures InFile(fs.Contents(), fs.meta, fs.Contents(), fs.meta, i, off, addr, 0)
    ensures Reached(fs.view, fs.trees[i], fs.view, fs.trees[i], fs.sb, off, 0)
    ensures AllForetold(fs.view, fs.sb, fs.trees[i], off, |addr|, 0)
  {
    SizedOf(fs.view, fs.sb, fs.trees, fs.g);
    ReachedFirst(fs.view, fs.trees[i], fs.sb, off);
    if StartsInFile(fs.meta, i, off) {
      DidNothing(fs.Contents(), fs.meta, i, off);
    }
    assert addr[..0] == [];
  }

  /** A chunk that stops the kernel, or the commit of which runs over the log, is not light or not stocked. */
  lemma Stopped(halt: Halt, v: Disk, sb: Super, a: Addrs, off: nat, len: nat, k: nat)
    requires k < len && k % CHUNK == 0 && Foretold(halt, v, sb, a, off, k, ChunkAt(len, k))
    requires halt.OutOfBlocks? || halt.LogOverrun? || halt.LogFull?
    ensures Sized(v, sb) && !(LightUpto(v, sb, a, off, len, len) && Stocked(v, sb, a, off, len))
  {
    assert !Foretold(Running, v, sb, a, off, k, ChunkAt(len, k));
    GoesThroughIff(v, sb, a, off, len);
  }

  /**
  The whole write. It stops early, with the chunks before in place, exactly when a chunk
  starts past the end of the file or ends past the largest file. `done` is how far f->off moved.
  */
  method Filewrite(fs: FileSystem, i: nat, off: Uint, addr: seq<Byte>)
    returns (halt: Halt, r: int, done: nat)
    requires Writable(fs, i) && |addr| < 0x8000_0000
    modifies fs
    ensures halt.Running? || halt.OutOfBlocks? || halt.LogOverrun? || halt.LogFull?
    ensures halt.OutOfBlocks? ==> NoneFree(fs.view, fs.sb)
    ensures halt.LogOverrun? ==> !LogReserved(old(fs.g).reserved, fs.LogStart(), fs.sb)
    ensures done <= |addr| && AllForetold(old(fs.view), fs.sb, old(fs.trees)[i], off, |addr|, done)
    ensures !halt.Running? ==>
              && done < |addr| && done % CHUNK == 0
              && Foretold(halt, old(fs.view), fs.sb, old(fs.trees)[i], off, done, ChunkAt(|addr|, done))
    ensures halt.Running? ==>
              && Writable(fs, i) && fs.g.reserved == old(fs.g).reserved
              && InFile(old(fs.Contents()), old(fs.meta), fs.Contents(), fs.meta, i, off, addr, done)
              && Reached(old(fs.view), old(fs.trees)[i], fs.view, fs.trees[i], fs.sb, off, done)
    ensures halt.Running? ==> r == if done == |addr| then |addr| else -1
    ensures halt.Running? && done < |addr| && off <= old(fs.meta)[i].size && off <= MAXFILE * BSIZE ==>
              off + done + ChunkAt(|addr|, done) > MAXFILE * BSIZE && done % CHUNK == 0
    ensures off <= old(fs.meta)[i].size && off + |addr| <= MAXFILE * BSIZE ==>
              && Sized(old(fs.view), fs.sb)
              && (halt.Running? <==> && LightUpto(old(fs.view), fs.sb, old(fs.trees)[i], off, |addr|, |addr|)
                                     && Stocked(old(fs.view), fs.sb, old(fs.trees)[i], off, |addr|))
    ensures halt.Running? && done < |addr| && (off > old(fs.meta)[i].size || off > MAXFILE * BSIZE) ==> done == 0
  {
    hide Did;
    hide NoneFree;
    hide LogReserved;
    hide InFile;
    hide Reached;
    hide Foretold;
    hide AllForetold;
    hide LightUpto;
    hide Stocked;
    hide FileSystem.Consistent;
    hide FileSystem.Idle;
    ghost var f0, m0, v0, a0 := fs.Contents(), fs.meta, fs.view, fs.trees[i];
    Starting(fs, i, off, addr);
    halt, r, done := Running, -1, 0;
    while done < |addr|
      invariant 0 <= done <= |addr| && (done < |addr| ==> done % CHUNK == 0)
      invariant Writable(fs, i) && fs.g.reserved == old(fs.g).reserved
      invariant InFile(f0, m0, fs.Contents(), fs.meta, i, off, addr, done)
      invariant Reached(v0, a0, fs.view, fs.trees[i], fs.sb, off, done) && AllForetold(v0, fs.sb, a0, off, |addr|, done)
      invariant halt.Running?
    {
      var n := Min(|addr| - done, CHUNK);
      var refused;
      InFileFits(f0, m0, fs.Contents(), fs.meta, i, off, addr, done);
      halt, refused := FileStep(fs, f0, m0, v0, a0, i, off, addr, done, n);
      if !halt.Running? || refused {
        if !halt.Running? {
          Stopped(halt, v0, fs.sb, a0, off, |addr|, done);
        }
        return;
      }
      NextChunk(done, done + n, |addr|);
      ForetoldMore(v0, fs.sb, a0, off, |addr|, done);
      done := done + n;
    }
    r := |addr|;
    ReachedSized(v0, a0, fs.view, fs.trees[i], fs.sb, off, done);
    GoesThroughIff(v0, fs.sb, a0, off, |addr|);
  }

  lemma ReachedSized(v: Disk, a: Addrs, v': Disk, a': Addrs, sb: Super, off: nat, k: nat)
    requires Reached(v, a, v', a', sb, off, k)
    ensures Sized(v, sb)
  {
  }
}
