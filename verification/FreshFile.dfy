/**
The first file of a freshly formatted disk: one inode taken, in a transaction of its own.
*/
module FreshFiles {
  import opened Basics
  import opened Blocks
  import opened BlockTree
  import opened Inodes
  import opened Format
  import opened LogHeader
  import opened LogBooks
  import opened FileSystems
  import opened InodeAllocs

  const T_FILE := 2

  /** Exactly the blocks before `used` are marked. */
  ghost predicate UsedUpto(v: Disk, sb: Super, used: nat)
  {
    Sized(v, sb) && forall b: nat {:trigger InUse(v, sb, b)} | b < sb.size :: InUse(v, sb, b) <==> b < used
  }

  /** Between transactions, with all the inodes of the disk and the log as mkfs sizes it. */
  ghost predicate Clean(fs: FileSystem)
    reads fs
  {
    && fs.Consistent() && fs.Idle() && fs.logSize == LOGSIZE && fs.trees.Keys == UpTo(fs.sb.ninodes) == fs.meta.Keys
  }

  lemma HeadOutside(lh: seq<nat>, sb: Super, logSize: nat)
    requires HeadOnly(lh, sb) && DataStart(sb) + logSize <= sb.size
    ensures Outside(lh, sb.size - logSize, logSize, sb.size)
  {
    forall i | 0 <= i < |lh| ensures lh[i] < sb.size - logSize {
      assert lh[i] in lh;
    }
  }

  lemma FirstIsOne(m: map<nat, Meta>, n: nat)
    requires 1 < n && 1 in m && m[1].kind == 0
    ensures !NoFreeInode(m, n) && forall i | FirstFreeInode(m, i) :: i == 1
  {
  }

  lemma InodeHead(lh: seq<nat>, i: nat, sb: Super)
    requires i < sb.ninodes && (lh == [] || lh == Absorb([], InodeSector(i)) || MapsLogged([InodeSector(i)], lh, sb))
    ensures HeadOnly(lh, sb)
  {
  }

  /** commit_trans when only inode and free-map blocks were logged. */
  method CommitHead(fs: FileSystem)
    requires fs.Consistent() && fs.logSize == LOGSIZE && fs.trees.Keys == UpTo(fs.sb.ninodes) == fs.meta.Keys
    requires HeadOnly(fs.lh, fs.sb)
    modifies fs`disk, fs`view, fs`lh, fs`g
    ensures Clean(fs) && fs.g == Opened(old(fs.g).reserved, old(fs.g).own)
  {
    hide Wf;
    hide Listing;
    hide Sorted;
    hide Filed;
    hide Tracked;
    hide Linked;
    hide Posted;
    hide AllSynced;
    hide AllBacked;
    hide FilesOf;
    hide HeadOnly;
    hide Headed;
    hide Outside;
    hide LogReserved;
    HeadOutside(fs.lh, fs.sb, fs.logSize);
    var halt := fs.Commit();
  }

  /** ialloc in its own transaction. */
  method TakeInode(fs: FileSystem, kind: Short) returns (i: nat)
    requires Clean(fs) && 1 in fs.meta && fs.meta[1].kind == 0
    modifies fs
    ensures Clean(fs) && i == 1 && fs.meta == old(fs.meta)[1 := Meta(kind, 0, 0, 0, 0)]
    ensures 1 in old(fs.trees) && fs.trees == old(fs.trees)[1 := EmptyAddrs()]
    ensures fs.g.reserved == old(fs.g).reserved + BlocksOf(old(fs.g).own, 1)
    ensures fs.g.own == old(fs.g).own - BlocksOf(old(fs.g).own, 1)
  {
    hide FileSystem.Consistent;
    hide FileSystem.Contents;
    hide HeadOnly;
    hide FirstFreeInode;
    hide NoFreeInode;
    hide BlocksOf;
    hide EmptyAddrs;
    hide Absorb;
    FirstIsOne(fs.meta, fs.sb.ninodes);
    InodeHead([], 1, fs.sb);
    var halt;
    halt, i := Ialloc(fs, kind);
    InodeHead(fs.lh, 1, fs.sb);
    CommitHead(fs);
  }

  lemma OnlyUsed(fs: FileSystem, used: nat)
    requires fs.Consistent() && fs.g.reserved == UpTo(used) && fs.g.own == map[]
    ensures UsedUpto(fs.view, fs.sb, used)
  {
  }

  lemma FormattedClean(fs: FileSystem)
    requires fs.Consistent() && fs.Idle() && fs.logSize == LOGSIZE
    requires (forall i :: i in fs.trees <==> 0 <= i < fs.sb.ninodes)
    ensures Clean(fs)
  {
    assert fs.trees.Keys == UpTo(fs.sb.ninodes);
  }

  /** mkfs, then ialloc: inode 1 is an empty file. */
  method NewFile(sb: Super, used: nat) returns (fs: FileSystem)
    requires 2 <= sb.ninodes && DataStart(sb) <= used <= sb.size < TWO32 && used < BITS
    requires DataStart(sb) + LOGSIZE <= sb.size
    ensures fresh(fs) && fs.sb == sb && Clean(fs) && fs.g.reserved == UpTo(used) && UsedUpto(fs.view, sb, used)
    ensures 1 in fs.meta && fs.meta[1] == Meta(T_FILE, 0, 0, 0, 0) && 1 in fs.trees && fs.trees[1] == EmptyAddrs()
  {
    hide FileSystem.Consistent;
    hide FileSystem.Idle;
    hide EmptyAddrs;
    hide UsedUpto;
    fs := new FileSystem(sb, LOGSIZE, used, {}, {});
    FormattedClean(fs);
    var i := TakeInode(fs, T_FILE);
    assert BlocksOf(map[], 1) == {};
    OnlyUsed(fs, used);
  }
}
