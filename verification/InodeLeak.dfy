/**
A run that loses blocks: a file that reaches the doubly indirect tier is freed, and its inode is used again.
*/
module InodeLeaks {
  import opened Basics
  import opened Blocks
  import opened BlockTree
  import opened Inodes
  import opened Format
  import opened LogHeader
  import opened Spans
  import opened LogBooks
  import opened WriteLoads
  import opened FileSystems
  import opened FileWrites
  import opened WholeWrites
  import opened LogFulls
  import opened InodeAllocs
  import opened FreshFiles
  import opened FileRuns

  /** One byte into the doubly indirect tier: 140 data blocks and three index blocks. */
  const LONG := (NDIRECT + NINDIRECT) * BSIZE + 1
  const TAKEN := 143

  lemma LongSpan(s: Slot)
    ensures InSpan(s, 0, 140) <==> s in {Ind, Dbl, DblMid(0)} || DataIn(s, 0, 140)
  {
    assert DataSlot(139) == DblData(0, 0);
    if InSpan(s, 0, 140) {
      var bn: nat :| 0 <= bn < 140 && bn < MAXFILE && OnPath(s, DataSlot(bn));
      if bn < NDIRECT {
      } else if bn < NDIRECT + NINDIRECT {
        assert s == DataSlot(bn) || OnPath(s, Ind);
      } else {
        assert s == DataSlot(bn) || s == DblMid(0) || OnPath(s, Dbl);
      }
    }
    if s == Ind {
      assert OnPath(Ind, DataSlot(NDIRECT));
    } else if s in {Dbl, DblMid(0)} {
      assert OnPath(DblMid(0), DataSlot(139)) && OnPath(Dbl, DataSlot(139));
    } else if DataIn(s, 0, 140) {
      SlotOfBlock(s);
      assert OnPath(s, DataSlot(FileBlock(s)));
    }
  }

  lemma LongEmpty(v: Disk, s: Slot)
    ensures s in Empties(v, EmptyAddrs(), 0, 140) <==> s in DataSet(0, 140) + {Ind, Dbl, DblMid(0)}
  {
    hide DataSet;
    hide SpanSet;
    LongSpan(s);
    hide InSpan;
    if DataIn(s, 0, 140) {
      DataSetHas(s, 0, 140);
    }
    if s.Valid() {
      EmptyAt(v, s);
    }
  }

  lemma LongPrior(v: Disk)
    ensures |Prior(v, EmptyAddrs(), 0, LONG)| == TAKEN
  {
    hide InSpan;
    hide SpanSet;
    hide EmptyAddrs;
    hide DataSet;
    hide Empties;
    assert Upto(0, LONG) == 140;
    var P := Empties(v, EmptyAddrs(), 0, 140);
    assert P == Prior(v, EmptyAddrs(), 0, LONG);
    hide BlocksFor;
    hide Upto;
    var D := DataSet(0, 140);
    forall s ensures s in P <==> s in D + {Ind, Dbl, DblMid(0)} {
      LongEmpty(v, s);
    }
    assert P == D + {Ind, Dbl, DblMid(0)};
    UnionSize(D, {Ind, Dbl, DblMid(0)});
  }

  lemma LongHasThird(v: Disk, v': Disk, a': Addrs, sb: Super)
    requires Reached(v, EmptyAddrs(), v', a', sb, 0, LONG)
    ensures a'[NDIRECT + 1] != 0
  {
    assert Upto(0, LONG) == 140;
    LongSpan(Dbl);
    assert At(v', a', Dbl) == a'[NDIRECT + 1];
  }

  /** A disk with room for the file before the log and within the first free-map block, and at most seven of those. */
  ghost predicate Roomy(sb: Super)
  {
    && 2 <= sb.ninodes && DataStart(sb) + TAKEN <= BPB && DataStart(sb) + TAKEN + LOGSIZE <= sb.size
    && sb.size < 7 * BPB
  }

  /** iput in its own transaction: it never fills the log. */
  method PutInode(fs: FileSystem, i: nat)
    requires Clean(fs) && i in fs.meta && fs.meta[i].nlink == 0 && fs.sb.size < 7 * BPB
    modifies fs
    ensures Clean(fs) && fs.meta == old(fs.meta)[i := old(fs.meta)[i].(kind := 0, size := 0)]
    ensures i in old(fs.trees) && fs.trees == old(fs.trees)[i := Cleared(old(fs.trees)[i], NDIRECT + 1)]
    ensures fs.g.reserved == old(fs.g).reserved && fs.g.own == old(fs.g).own - UpperTiers(old(fs.g).own, i)
  {
    hide FileSystem.Consistent;
    hide FileSystem.Contents;
    hide HeadOnly;
    hide MapsLogged;
    hide UpperTiers;
    hide Cleared;
    var halt := Iput(fs, i, true);
    assert [] + [InodeSector(i)] == [InodeSector(i)];
    ListDistinct(fs.lh, fs.g, fs.sb, fs.logSize);
    PutFits(fs.lh, fs.sb, InodeSector(i));
    InodeHead(fs.lh, i, fs.sb);
    CommitHead(fs);
  }

  lemma ListDistinct(lh: seq<nat>, g: Books, sb: Super, logSize: nat)
    requires Listing(lh, g, sb, logSize)
    ensures Distinct(lh)
  {
  }

  /** A file system with one file, of LONG bytes, in inode 1. */
  method LongFile(sb: Super, src: seq<Byte>) returns (fs: FileSystem)
    requires Roomy(sb) && |src| == LONG
    ensures fresh(fs) && fs.sb == sb && Clean(fs) && fs.g.reserved == UpTo(DataStart(sb))
    ensures 1 in fs.meta && 1 in fs.trees && fs.meta[1].nlink == 0 && fs.meta[1].size == LONG
    ensures fs.trees[1][NDIRECT + 1] != 0
  {
    hide FileSystem.Consistent;
    hide FileSystem.Idle;
    hide FileSystem.Contents;
    hide LightUpto;
    hide Stocked;
    hide Reached;
    hide Foretold;
    hide AllForetold;
    hide NoneFree;
    hide LogReserved;
    hide EmptyAddrs;
    hide UsedUpto;
    hide FilesOf;
    fs := NewFile(sb, DataStart(sb));
    ghost var v := fs.view;
    LongPrior(v);
    BlankGoes(v, sb, DataStart(sb), LONG, TAKEN);
    var halt, r, done := Filewrite(fs, 1, 0, src);
    LongHasThird(v, fs.view, fs.trees[1], sb);
    StillClean(fs, 1);
  }

  lemma StillClean(fs: FileSystem, i: nat)
    requires Writable(fs, i) && fs.meta.Keys == UpTo(fs.sb.ninodes)
    ensures Clean(fs)
  {
  }

  lemma ThirdOwned(fs: FileSystem, i: nat)
    requires Clean(fs) && i in fs.trees && fs.trees[i][NDIRECT + 1] != 0
    ensures fs.trees[i][NDIRECT + 1] in BlocksOf(fs.g.own, i)
    ensures fs.trees[i][NDIRECT + 1] == Cleared(fs.trees[i], NDIRECT + 1)[NDIRECT + 1]
  {
    LostBlock(fs.view, fs.sb, fs.trees, fs.g.reserved, fs.g.own, i);
  }

  lemma NobodyHas(fs: FileSystem, b: nat)
    requires Clean(fs) && b in fs.g.reserved && 0 < b
    ensures Sized(fs.view, fs.sb) && b < fs.sb.size && InUse(fs.view, fs.sb, b) && !InTree(fs.view, fs.trees, b)
  {
    var v, t, own := fs.view, fs.trees, fs.g.own;
    forall i, s: Slot | i in t && s.Valid() ensures At(v, t[i], s) != b {
      assert Names(own, At(v, t[i], s), i, s);
    }
  }

  /** The blocks of the doubly indirect tier outlive the file, and after its inode is used again no file has them. */
  method Leak(sb: Super, src: seq<Byte>) returns (fs: FileSystem, ghost b: nat)
    requires Roomy(sb) && |src| == LONG
    ensures fs.sb == sb && Clean(fs) && 1 in fs.meta && fs.meta[1] == Meta(T_FILE, 0, 0, 0, 0)
    ensures Sized(fs.view, sb) && b < sb.size && InUse(fs.view, sb, b) && !InTree(fs.view, fs.trees, b)
    ensures b !in UpTo(DataStart(sb))
  {
    hide Clean;
    hide InTree;
    hide Cleared;
    hide UpperTiers;
    hide InUse;
    hide Sized;
    fs := LongFile(sb, src);
    b := fs.trees[1][NDIRECT + 1];
    ThirdOwned(fs, 1);
    PutInode(fs, 1);
    ThirdOwned(fs, 1);
    ThirdUnreserved(fs, 1);
    var i := TakeInode(fs, T_FILE);
    NobodyHas(fs, b);
  }

  lemma ThirdUnreserved(fs: FileSystem, i: nat)
    requires Clean(fs) && i in fs.trees && fs.trees[i][NDIRECT + 1] != 0
    ensures fs.trees[i][NDIRECT + 1] !in fs.g.reserved
  {
    LostBlock(fs.view, fs.sb, fs.trees, fs.g.reserved, fs.g.own, i);
  }
}
