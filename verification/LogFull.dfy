/**
A write that the kernel does not survive: a chunk whose blocks have their bits in two free-map blocks and that starts
the doubly indirect tier logs nine sectors and then has no room for the inode block.
*/
module LogFulls {
  import opened Basics
  import opened Blocks
  import opened BlockTree
  import opened Format
  import opened LogHeader
  import opened Spans
  import opened LogBooks
  import opened WriteLoads
  import opened FileSystems
  import opened FileWrites
  import opened WholeWrites
  import opened FreshFiles

  /** The blocks in use at first, and the bytes written then: they end in file block 137, and take the blocks up to
      4094. */
  const USED := 3956
  const FIRST := 137 * BSIZE + 100
  const FILLED := 138

  /** The free blocks are those from `used` on. */
  lemma {:induction false} FreeRange(v: Disk, sb: Super, used: nat, c: nat)
    requires UsedUpto(v, sb, used) && c <= used <= sb.size
    ensures var F := FreeOn(v, sb, c); |F| == sb.size - used && forall k :: 0 <= k < |F| ==> F[k] == used + k
    decreases used - c
  {
    if c < used {
      assert InUse(v, sb, c);
      hide InUse;
      FreeRange(v, sb, used, c + 1);
    } else {
      FreeTop(v, sb, used, c);
    }
  }

  lemma {:induction false} FreeTop(v: Disk, sb: Super, used: nat, c: nat)
    requires UsedUpto(v, sb, used) && used <= c <= sb.size
    ensures var F := FreeOn(v, sb, c); |F| == sb.size - c && forall k :: 0 <= k < |F| ==> F[k] == c + k
    decreases sb.size - c
  {
    if c < sb.size {
      FreeTop(v, sb, used, c + 1);
    }
  }

  /** The first write needs its 138 data blocks and the indirect block. */
  lemma FirstSpan(s: Slot)
    ensures InSpan(s, 0, FILLED) <==> s == Ind || DataIn(s, 0, FILLED)
  {
    if InSpan(s, 0, FILLED) {
      var bn: nat :| 0 <= bn < FILLED && bn < MAXFILE && OnPath(s, DataSlot(bn));
      if bn >= NDIRECT {
        assert DataSlot(bn) == IndData(bn - NDIRECT);
        assert s == DataSlot(bn) || OnPath(s, Ind);
      }
      assert s == DataSlot(bn) || s == Ind;
    }
    if s == Ind {
      assert OnPath(Ind, DataSlot(NDIRECT));
    } else if DataIn(s, 0, FILLED) {
      SlotOfBlock(s);
      assert OnPath(s, DataSlot(FileBlock(s)));
    }
  }

  lemma FirstPrior(v: Disk)
    ensures |Prior(v, EmptyAddrs(), 0, FIRST)| == FILLED + 1
  {
    hide InSpan;
    hide SpanSet;
    hide EmptyAddrs;
    hide DataSet;
    hide Empties;
    assert Upto(0, FIRST) == FILLED;
    var P := Empties(v, EmptyAddrs(), 0, FILLED);
    assert P == Prior(v, EmptyAddrs(), 0, FIRST);
    hide BlocksFor;
    hide Upto;
    var D := DataSet(0, FILLED);
    forall s ensures s in P <==> s in D + {Ind} {
      FirstEmpty(v, s);
    }
    assert P == D + {Ind} && Ind !in D;
  }

  lemma FirstEmpty(v: Disk, s: Slot)
    ensures s in Empties(v, EmptyAddrs(), 0, FILLED) <==> s in DataSet(0, FILLED) + {Ind}
  {
    FirstSpan(s);
    if DataIn(s, 0, FILLED) {
      DataSetHas(s, 0, FILLED);
    }
    if s.Valid() {
      EmptyAt(v, s);
    }
  }

  lemma FreeBlocks(sb: Super, F: seq<nat>, used: nat, n: nat)
    requires |F| + used == sb.size && forall k :: 0 <= k < |F| ==> F[k] == used + k
    requires used + n <= BPB && used + n <= sb.size - LOGSIZE
    ensures OneMap(sb, Take(F, n)) && Clear(F, n, sb.size - LOGSIZE)
  {
  }

  /** A write to an empty file goes through when the blocks it takes end before the log and within the first free-map
      block. */
  lemma BlankGoes(v: Disk, sb: Super, used: nat, len: nat, n: nat)
    requires UsedUpto(v, sb, used) && n == |Prior(v, EmptyAddrs(), 0, len)| && used + n <= BPB
    requires used + n <= sb.size - LOGSIZE
    ensures LightUpto(v, sb, EmptyAddrs(), 0, len, len) && Stocked(v, sb, EmptyAddrs(), 0, len)
  {
    FreeRange(v, sb, used, 0);
    hide FreeOn;
    hide Prior;
    hide LightUpto;
    hide OneMap;
    hide Clear;
    hide EmptyAddrs;
    FreeBlocks(sb, FreeOn(v, sb, 0), used, n);
    OneMapLight(v, sb, EmptyAddrs(), 0, len);
  }

  /** What the second write finds empty: file blocks 138 to 140 and the index blocks of the doubly indirect tier. */
  function Missing(): set<Slot>
  {
    {IndData(127), Dbl, DblMid(0), DblData(0, 0), DblData(0, 1)}
  }

  lemma SecondSpan(s: Slot)
    ensures InSpan(s, 137, 141) && !InSpan(s, 0, FILLED) <==> s in Missing()
  {
    FirstSpan(s);
    assert DataSlot(137) == IndData(126) && DataSlot(138) == IndData(127) && DataSlot(139) == DblData(0, 0)
           && DataSlot(140) == DblData(0, 1);
    if InSpan(s, 137, 141) {
      var bn: nat :| 137 <= bn < 141 && bn < MAXFILE && OnPath(s, DataSlot(bn));
      assert bn == 137 || bn == 138 || bn == 139 || bn == 140;
    }
    if s in Missing() {
      assert OnPath(s, DataSlot(138)) || OnPath(s, DataSlot(139)) || OnPath(s, DataSlot(140));
    }
  }

  lemma MissingParents()
    ensures |Missing()| == 5 && |Parents(Missing())| == 3
  {
    assert Parents(Missing()) == {Ind, Dbl, DblMid(0)} by {
      assert IndData(127) in Missing() && DblMid(0) in Missing() && DblData(0, 0) in Missing();
    }
  }

  lemma TwoMaps(sb: Super, F: seq<nat>)
    requires |F| >= 5 && forall k :: 0 <= k < |F| ==> F[k] == 4095 + k
    ensures |MapsOf(sb, Take(F, 5))| == 2
  {
    var T := Take(F, 5);
    var m := sb.ninodes / IPB + 3;
    assert T == [4095, 4096, 4097, 4098, 4099];
    assert MapsOf(sb, T) == {m, m + 1} by {
      assert BitmapSector(sb, 4095) == m && BitmapSector(sb, 4096) == m + 1;
      assert 4095 in T && 4096 in T;
    }
  }

  lemma SecondAhead(v: Disk, v': Disk, a': Addrs)
    requires FilledIn(v, EmptyAddrs(), v', a', 0, FILLED)
    ensures Prior(v', a', FIRST, 0) == {} && Ahead(v', a', FIRST, 0, CHUNK) == Missing()
  {
    assert FIRST / BSIZE == 137 && BlocksFor(FIRST + CHUNK) == 141;
    var E := Empties(v', a', 137, 141);
    assert E == ChunkWants(v', a', FIRST, CHUNK);
    assert Prior(v', a', FIRST, 0) == {};
    assert Ahead(v', a', FIRST, 0, CHUNK) == E;
    hide InSpan;
    hide SpanSet;
    hide Missing;
    forall s ensures s in E <==> s in Missing() {
      SecondEmpty(v, v', a', s);
    }
  }

  lemma SecondEmpty(v: Disk, v': Disk, a': Addrs, s: Slot)
    requires FilledIn(v, EmptyAddrs(), v', a', 0, FILLED)
    ensures s in Empties(v', a', 137, 141) <==> s in Missing()
  {
    hide Missing;
    hide EmptyAddrs;
    SecondSpan(s);
    if InSpan(s, 137, 141) {
      SpanValid(s, 137, 141);
      EmptyAt(v, s);
      assert At(v', a', s) == 0 <==> At(v, EmptyAddrs(), s) == 0 && !InSpan(s, 0, FILLED);
    }
  }

  lemma SecondFree(v: Disk, v': Disk, a': Addrs, sb: Super)
    requires UsedUpto(v, sb, USED) && 4104 < sb.size && Reached(v, EmptyAddrs(), v', a', sb, 0, FIRST)
    ensures var F := FreeOn(v', sb, 0); |F| >= 5 && |MapsOf(sb, Take(F, 5))| == 2
  {
    FreeRange(v, sb, USED, 0);
    FirstPrior(v);
    hide FreeOn;
    hide Prior;
    hide FilledIn;
    var F0, F := FreeOn(v, sb, 0), FreeOn(v', sb, 0);
    assert forall k :: 0 <= k < |F| ==> F[k] == F0[139 + k];
    TwoMaps(sb, F);
  }

  /** The second write fills the log: four file blocks, three index blocks, two free-map blocks. */
  lemma SecondLoad(sb: Super, F: seq<nat>)
    requires |F| >= 5 && |MapsOf(sb, Take(F, 5))| == 2
    ensures Load(sb, Missing(), F, 4) == LOGSIZE - 1
  {
    hide Missing;
    hide MapsOf;
    MissingParents();
  }

  lemma HeavyVerdict(halt: Halt, sb: Super, E: set<Slot>, F: seq<nat>, blocks: nat)
    requires |E| <= |F| && Load(sb, E, F, blocks) >= LOGSIZE - 1 && Verdict(halt, sb, E, F, blocks)
    ensures !halt.Running? && !halt.OutOfBlocks? && !halt.LogOverrun?
  {
  }

  lemma SecondForetold(halt: Halt, v: Disk, a: Addrs, sb: Super)
    requires Foretold(halt, v, sb, a, FIRST, 0, CHUNK) && Prior(v, a, FIRST, 0) == {}
    requires Ahead(v, a, FIRST, 0, CHUNK) == Missing()
    ensures Verdict(halt, sb, Missing(), FreeOn(v, sb, 0), 4)
  {
    hide FreeOn;
    hide Prior;
    hide Ahead;
    hide Missing;
    hide Verdict;
    assert BlocksFor(FIRST + 0 + CHUNK) - (FIRST + 0) / BSIZE == 4;
    assert Drop(FreeOn(v, sb, 0), 0) == FreeOn(v, sb, 0);
  }

  lemma SecondVerdict(halt: Halt, v: Disk, v': Disk, a': Addrs, sb: Super)
    requires UsedUpto(v, sb, USED) && 4104 < sb.size && Reached(v, EmptyAddrs(), v', a', sb, 0, FIRST)
    requires if halt.Running? then AllForetold(v', sb, a', FIRST, CHUNK, CHUNK)
             else Foretold(halt, v', sb, a', FIRST, 0, CHUNK)
    ensures !halt.Running? && !halt.OutOfBlocks? && !halt.LogOverrun?
  {
    assert Foretold(halt, v', sb, a', FIRST, 0, ChunkAt(CHUNK, 0));
    assert Sized(v', sb);
    assert Upto(0, FIRST) == FILLED;
    SecondAhead(v, v', a');
    hide *;
    SecondForetold(halt, v', a', sb);
    SecondFree(v, v', a', sb);
    SecondLoad(sb, FreeOn(v', sb, 0));
    MissingParents();
    HeavyVerdict(halt, sb, Missing(), FreeOn(v', sb, 0), 4);
  }

  /** A file of FIRST bytes that has used up the first free-map block but for one bit. */
  method FirstWrite(sb: Super, a: seq<Byte>) returns (fs: FileSystem, r: int, ghost v: Disk)
    requires 2 <= sb.ninodes && DataStart(sb) <= USED && 4104 < sb.size < TWO32 && |a| == FIRST
    ensures fresh(fs) && fs.sb == sb && r == FIRST && Writable(fs, 1) && fs.meta[1].size == FIRST
    ensures UsedUpto(v, sb, USED) && Reached(v, EmptyAddrs(), fs.view, fs.trees[1], sb, 0, FIRST)
  {
    hide UsedUpto;
    hide LightUpto;
    hide Stocked;
    hide Reached;
    hide Foretold;
    hide AllForetold;
    hide FileSystem.Consistent;
    hide FileSystem.Idle;
    hide FileSystem.Contents;
    hide NoneFree;
    hide LogReserved;
    hide EmptyAddrs;
    fs := NewFile(sb, USED);
    v := fs.view;
    FirstPrior(v);
    BlankGoes(v, sb, USED, FIRST, FILLED + 1);
    var halt, done;
    halt, r, done := Filewrite(fs, 1, 0, a);
  }

  /** On every disk with a free map of two blocks or more, two writes to one file stop the kernel in the middle of the
      second. */
  method LogFills(sb: Super, a: seq<Byte>, b: seq<Byte>) returns (fs: FileSystem, first: int, halt: Halt, done: nat)
    requires 2 <= sb.ninodes && DataStart(sb) <= USED && 4104 < sb.size < TWO32
    requires |a| == FIRST && |b| == CHUNK
    ensures fs.sb == sb && first == FIRST && halt.LogFull? && done == 0
  {
    hide UsedUpto;
    hide LightUpto;
    hide Stocked;
    hide Reached;
    hide Foretold;
    hide AllForetold;
    hide FileSystem.Consistent;
    hide FileSystem.Idle;
    hide FileSystem.Contents;
    hide NoneFree;
    hide LogReserved;
    hide EmptyAddrs;
    ghost var v;
    fs, first, v := FirstWrite(sb, a);
    ghost var v1, a1 := fs.view, fs.trees[1];
    var r;
    halt, r, done := Filewrite(fs, 1, FIRST, b);
    SecondVerdict(halt, v, v1, a1, sb);
  }
}
