/**
What happens when the block allocator gives out a sector of the log. mkfs leaves the
log's sectors unmarked in the free map and balloc searches to the end of the disk, so a
full disk hands the log header to a file, and the commit that follows overwrites it.
*/
module LogOverruns {
  import opened Basics
  import opened Blocks
  import opened BlockTree
  import opened Inodes
  import opened FileContent
  import opened LogHeader
  import opened Spans
  import opened LogBooks
  import opened WriteLoads
  import opened FileSystems
  import opened FileWrites
  import opened FreshFiles

  /** The allocator reaches the log, which starts at lo, exactly when every block before it is in use. */
  lemma LogGivenOut(v: Disk, sb: Super, b: nat, lo: nat)
    requires FirstFit(v, sb, b) && lo <= sb.size
    ensures lo <= b <==> forall c: nat {:trigger InUse(v, sb, c)} | c < lo :: InUse(v, sb, c)
    ensures lo < sb.size && lo <= b && !InUse(v, sb, lo) ==> b == lo
  {
  }

  /** The words of b that a commit of lh would write are already there. */
  ghost predicate AlreadyHeader(b: Block, lh: seq<nat>)
    requires |lh| <= LOGSIZE
  {
    Word(b, 0) == 0 && forall k :: 0 <= k < |lh| ==> Word(b, k + 1) == lh[k]
  }

  lemma WordsDecide(b: Block, c: Block, q: nat)
    requires q < BSIZE && Word(b, q / 4) == Word(c, q / 4)
    ensures b[q] == c[q]
  {
    var i := q / 4;
    JoinInjective(b[4 * i], b[4 * i + 1], b[4 * i + 2], b[4 * i + 3], c[4 * i], c[4 * i + 1], c[4 * i + 2],
                  c[4 * i + 3]);
    assert q == 4 * i || q == 4 * i + 1 || q == 4 * i + 2 || q == 4 * i + 3;
  }

  lemma JoinInjective(a0: Byte, a1: Byte, a2: Byte, a3: Byte, b0: Byte, b1: Byte, b2: Byte, b3: Byte)
    requires Join(a0, a1, a2, a3) == Join(b0, b1, b2, b3)
    ensures a0 == b0 && a1 == b1 && a2 == b2 && a3 == b3
  {
  }

  /** Words past the list are left alone. */
  lemma {:induction false} HeaderRest(b: Block, lh: seq<nat>, k: nat, j: nat)
    requires Encodable(lh) && k <= |lh| && k < j < WORDS
    ensures Word(HeaderBlock(b, lh, k), j) == Word(b, j)
  {
    hide Word;
    if k > 0 {
      HeaderRest(b, lh, k - 1, j);
    }
  }

  /** A commit leaves the block in the header sector as it was exactly when it already was that header. */
  lemma HeadedSame(b: Block, lh: seq<nat>, b': Block)
    requires Headed(b, lh, b')
    ensures Word(b', 0) == 0 && (b' == b <==> AlreadyHeader(b, lh))
  {
    var h := HeaderBlock(b, lh, |lh|);
    assert b' == PutWord(h, 0, 0);
    forall k | 0 <= k < |lh| ensures Word(b', k + 1) == lh[k] {
      assert Word(h, k + 1) == lh[k];
    }
    if AlreadyHeader(b, lh) {
      forall q | 0 <= q < BSIZE ensures b'[q] == b[q] {
        var j := q / 4;
        if j > |lh| {
          HeaderRest(b, lh, |lh|, j);
        } else if j > 0 {
          assert Word(b', (j - 1) + 1) == lh[j - 1];
        }
        WordsDecide(b', b, q);
      }
    }
  }

  /** The only tree block in the log is file block bn of inode i, in the header sector lo. */
  ghost predicate FileInHeader(sb: Super, t: Trees, own: map<nat, Owner>, m: map<nat, Meta>, i: nat, bn: nat, lo: nat)
  {
    && t.Keys == m.Keys && i in t && bn < MAXFILE && (bn + 1) * BSIZE <= m[i].size && lo < sb.size
    && lo in own && own[lo] == Owner(i, DataSlot(bn)) && forall b | b in own :: b <= lo
  }

  /** Files in that position survive a commit exactly when the block already is the header the commit writes. */
  lemma SurvivesIff(v: Disk, sb: Super, t: Trees, reserved: set<nat>, own: map<nat, Owner>, m: map<nat, Meta>, v': Disk,
                    lh: seq<nat>, i: nat, bn: nat, lo: nat)
    requires Wf(v, sb, t, reserved, own) && FileInHeader(sb, t, own, m, i, bn, lo)
    requires |v'| == |v| && (forall s: nat | s < lo :: v'[s] == v[s]) && Headed(v[lo], lh, v'[lo])
    ensures FilesOf(v', t, m) == FilesOf(v, t, m) <==> AlreadyHeader(v[lo], lh)
  {
    assert lo < |v|;
    hide *;
    HeadedSame(v[lo], lh, v'[lo]);
    if v'[lo] == v[lo] {
      SameBytes(v, sb, t, reserved, own, m, v', i, bn, lo);
    } else {
      LostByte(v, sb, t, reserved, own, m, v', i, bn, lo);
    }
  }

  lemma SameBytes(v: Disk, sb: Super, t: Trees, reserved: set<nat>, own: map<nat, Owner>, m: map<nat, Meta>, v': Disk,
                  i: nat, bn: nat, lo: nat)
    requires Wf(v, sb, t, reserved, own) && FileInHeader(sb, t, own, m, i, bn, lo)
    requires |v'| == |v| && (forall s: nat | s < lo :: v'[s] == v[s]) && v'[lo] == v[lo]
    ensures FilesOf(v', t, m) == FilesOf(v, t, m)
  {
    assert IndexKept(v, v', own) && DataKept(v, v', own);
    forall j | j in t ensures Content(v', t[j], m[j].size) == Content(v, t[j], m[j].size) {
      BodyKeptContent(v, sb, t, reserved, own, v', j, m[j].size);
    }
    assert FilesOf(v', t, m) == FilesOf(v, t, m);
  }

  /** A changed block of a file shows in the file. */
  lemma LostByte(v: Disk, sb: Super, t: Trees, reserved: set<nat>, own: map<nat, Owner>, m: map<nat, Meta>, v': Disk,
                 i: nat, bn: nat, lo: nat)
    requires Wf(v, sb, t, reserved, own) && FileInHeader(sb, t, own, m, i, bn, lo)
    requires |v'| == |v| && (forall s: nat | s < lo :: v'[s] == v[s]) && v'[lo] != v[lo]
    ensures FilesOf(v', t, m) != FilesOf(v, t, m)
  {
    var q :| 0 <= q < BSIZE && v'[lo][q] != v[lo][q];
    var k := bn * BSIZE + q;
    assert k / BSIZE == bn && k % BSIZE == q && k < m[i].size;
    assert IndexKept(v, v', own);
    assert At(v, t[own[lo].inum], own[lo].slot) == lo;
    AtFrame(v, v', t, own, i, DataSlot(bn));
    assert Content(v, t[i], m[i].size)[k] == v[lo][q];
    assert Content(v', t[i], m[i].size)[k] == v'[lo][q];
    assert FilesOf(v, t, m)[i][k] != FilesOf(v', t, m)[i][k];
  }

  /** Every block before lo is in use, and block lo is not. */
  ghost predicate FullUpto(v: Disk, sb: Super, lo: nat)
  {
    && Sized(v, sb) && lo < sb.size && !InUse(v, sb, lo)
    && forall b: nat {:trigger InUse(v, sb, b)} | b < lo :: InUse(v, sb, b)
  }

  /** Then it is the next block that balloc hands out. */
  lemma {:induction false} NextFree(v: Disk, sb: Super, lo: nat, c: nat)
    requires FullUpto(v, sb, lo) && c <= lo
    ensures FreeOn(v, sb, c) != [] && FreeOn(v, sb, c)[0] == lo
    decreases lo - c
  {
    if c < lo {
      assert InUse(v, sb, c);
      hide InUse;
      NextFree(v, sb, lo, c + 1);
    }
  }

  lemma ZeroWord(b: Block)
    requires Word(b, 0) == 0
    ensures b[0] == 0
  {
    JoinInjective(b[0], b[1], b[2], b[3], 0, 0, 0, 0);
  }

  /** Byte 0 of a file whose first block is in sector lo. */
  lemma FirstByte(v: Disk, t: Trees, m: map<nat, Meta>, i: nat, lo: nat)
    requires i in t && i in m && 0 < m[i].size && t[i][0] == lo && 0 < lo < |v| && Word(v[lo], 0) == 0
    ensures FilesOf(v, t, m)[i][0] == 0
  {
    hide Word;
    ZeroWord(v[lo]);
    assert At(v, t[i], DataSlot(0)) == lo;
    assert Content(v, t[i], m[i].size)[0] == ByteAt(v, t[i], 0);
  }

  /** A file block in the log has been logged. */
  lemma HeaderLogged(v: Disk, sb: Super, t: Trees, g: Books, lh: seq<nat>, logSize: nat, i: nat)
    requires Wf(v, sb, t, g.reserved, g.own) && Listing(lh, g, sb, logSize) && i in t
    requires t[i][0] == sb.size - logSize != 0
    requires 0 < logSize
    ensures lh != [] && !Outside(lh, sb.size - logSize, logSize, sb.size)
  {
    assert At(v, t[i], Direct(0)) == t[i][0];
    assert Names(g.own, t[i][0], i, Direct(0));
    assert sb.size - logSize in lh;
  }

  /** The first block of a file without one: its only empty slot. */
  lemma FirstSlot(v: Disk, a: Addrs)
    requires a[0] == 0
    ensures Empties(v, a, 0, 1) == {Direct(0)} && Parents({Direct(0)}) == {}
  {
    assert DataSlot(0) == Direct(0) && At(v, a, Direct(0)) == 0;
    forall s ensures s in Empties(v, a, 0, 1) <==> s == Direct(0) {
      if InSpan(s, 0, 1) {
        var bn: nat :| 0 <= bn < 1 && bn < MAXFILE && OnPath(s, DataSlot(bn));
        assert bn == 0;
      }
      assert OnPath(Direct(0), DataSlot(0));
    }
  }

  /** Writing it logs the block and its free-map block. */
  lemma FirstLoad(v: Disk, sb: Super, a: Addrs, lo: nat)
    requires FullUpto(v, sb, lo) && a[0] == 0
    ensures var E, F := Empties(v, a, 0, 1), FreeOn(v, sb, 0);
            |E| == 1 <= |F| && F[..1] == [lo] && Load(sb, E, F, 1) == 2
  {
    NextFree(v, sb, lo, 0);
    FirstSlot(v, a);
    var F := FreeOn(v, sb, 0);
    assert Take(F, 1) == [lo];
    assert MapsOf(sb, [lo]) == {BitmapSector(sb, lo)} by {
      assert lo in [lo];
    }
  }

  lemma FirstDecided(halt: Halt, v: Disk, sb: Super, t: Trees, i: nat, lo: nat)
    requires FullUpto(v, sb, lo) && i in t && t[i][0] == 0 && Decided(halt, v, sb, t, i, 0, BSIZE)
    ensures !halt.OutOfBlocks? && !halt.LogFull?
  {
    FirstLoad(v, sb, t[i], lo);
    assert BlocksFor(0 + BSIZE) == 1;
  }

  /** The block taken is in the file. */
  lemma FirstTaken(v: Disk, sb: Super, t: Trees, g0: Books, v': Disk, t': Trees, g: Books, lh: seq<nat>, i: nat,
                   lo: nat)
    requires Begun(v, sb, t, g0, g, i, 0, BSIZE) && Finished(v', sb, t', g, lh, i, 0, BSIZE)
    requires FullUpto(v, sb, lo) && t[i][0] == 0
    ensures t'[i][0] == lo
  {
    assert BlocksFor(0 + BSIZE) == 1;
    FinishedMeans(v, sb, t, g0, v', t', g, lh, i, 0, BSIZE);
    FirstLoad(v, sb, t[i], lo);
    assert lo in g.given;
    ChunkWorking(g0, g, sb, i, 0, BSIZE);
    AtStart(v, sb, t, g0, g, i, 0, 1);
    FirstSlot(v, t[i]);
    FilledWanted(g, g0.own, sb, i, 0, 1);
    assert lo !in g.base && lo in g.own;
    assert At(v', t'[g.own[lo].inum], g.own[lo].slot) == lo;
  }

  /** One block to an empty file, in its own transaction, before the commit. */
  method WriteFirst(fs: FileSystem, i: nat, src: seq<Byte>) returns (halt: Halt, r: Io)
    requires Writable(fs, i) && fs.meta[i].size == 0 && fs.trees[i][0] == 0 && |src| == BSIZE
    requires 0 <= fs.LogStart() && FullUpto(fs.view, fs.sb, fs.LogStart())
    modifies fs
    ensures halt.Running? && r == Count(BSIZE) && fs.Consistent() && fs.logSize == LOGSIZE
    ensures i in fs.trees && i in fs.meta && fs.meta[i].size == BSIZE && fs.trees[i][0] == fs.LogStart()
    ensures fs.Contents() == old(fs.Contents())[i := src]
  {
    hide Decided;
    hide FullUpto;
    hide FileSystem.Consistent;
    hide FileSystem.Idle;
    hide FileSystem.Contents;
    hide NoneFree;
    ghost var v0, t0, g0, lo := fs.view, fs.trees, fs.g, fs.LogStart();
    halt, r := WriteTrans(fs, i, 0, src);
    FirstDecided(halt, v0, fs.sb, t0, i, lo);
    FirstTaken(v0, fs.sb, t0, g0, fs.view, fs.trees, fs.g, fs.lh, i, lo);
    assert Written([], 0, src) == src;
  }

  lemma HeaderPlace(fs: FileSystem)
    requires fs.Consistent()
    ensures 0 < fs.LogStart() && Sized(fs.view, fs.sb) && fs.LogStart() + fs.logSize == |fs.view|
  {
  }

  lemma HeaderTaken(fs: FileSystem, i: nat)
    requires fs.Consistent() && i in fs.trees && 0 < fs.logSize && fs.trees[i][0] == fs.LogStart() > 0
    ensures fs.lh != [] && !Outside(fs.lh, fs.sb.size - fs.logSize, fs.logSize, fs.sb.size)
  {
    HeaderLogged(fs.view, fs.sb, fs.trees, fs.g, fs.lh, fs.logSize, i);
  }

  /** The commit of a transaction that put the first block of inode i in the log header. */
  method CommitOver(fs: FileSystem, i: nat) returns (halt: Halt)
    requires fs.Consistent() && i in fs.trees && i in fs.meta && 0 < fs.meta[i].size
    requires 0 < fs.logSize && fs.trees[i][0] == fs.LogStart()
    modifies fs
    ensures halt.LogOverrun? && fs.trees == old(fs.trees) && fs.meta == old(fs.meta)
    ensures i in fs.Contents() && |fs.Contents()[i]| == fs.meta[i].size && fs.Contents()[i][0] == 0
  {
    HeaderPlace(fs);
    hide FileSystem.Consistent;
    hide Wf;
    hide Listing;
    hide Sorted;
    hide Filed;
    hide AllSynced;
    hide AllBacked;
    hide Headed;
    hide Outside;
    hide Tracked;
    hide Linked;
    hide Posted;
    hide LogReserved;
    hide Word;
    hide FilesOf;
    hide AlreadyHeader;
    HeaderTaken(fs, i);
    ghost var block, lh := fs.view[fs.LogStart()], fs.lh;
    halt := fs.Commit();
    HeadedSame(block, lh, fs.view[fs.LogStart()]);
    FirstByte(fs.view, fs.trees, fs.meta, i, fs.LogStart());
  }

  /**
  In every file system whose blocks before the log are all in use and whose header sector is not, the first block
  written to an empty file goes to the log header, and is gone after the commit.
  */
  method HeaderLost(fs: FileSystem, i: nat, src: seq<Byte>) returns (halt: Halt, r: Io, ghost before: Files)
    requires Writable(fs, i) && fs.meta[i].size == 0 && fs.trees[i][0] == 0 && |src| == BSIZE && src[0] != 0
    requires 0 <= fs.LogStart() && FullUpto(fs.view, fs.sb, fs.LogStart())
    modifies fs
    ensures r == Count(BSIZE) && before == old(fs.Contents())[i := src]
    ensures halt.LogOverrun? && i in fs.Contents() && |fs.Contents()[i]| == BSIZE && fs.Contents()[i][0] == 0
  {
    hide FullUpto;
    hide FileSystem.Consistent;
    hide FileSystem.Contents;
    halt, r := WriteFirst(fs, i, src);
    before := fs.Contents();
    halt := CommitOver(fs, i);
  }

  /** mkfs and ialloc make such a file system. */
  method FormattedFull(sb: Super) returns (fs: FileSystem)
    requires 2 <= sb.ninodes && DataStart(sb) + LOGSIZE <= sb.size < BPB
    ensures fresh(fs) && fs.sb == sb && Writable(fs, 1) && fs.meta[1].size == 0 && fs.trees[1][0] == 0
    ensures 0 <= fs.LogStart() && FullUpto(fs.view, fs.sb, fs.LogStart())
  {
    hide FileSystem.Consistent;
    hide FileSystem.Idle;
    fs := NewFile(sb, sb.size - LOGSIZE);
  }
}
