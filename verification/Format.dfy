/**
An empty disk as mkfs lays it out: zeroed sectors, the superblock, and a free map that
marks the first `used` blocks. The log at the end of the disk is not among them.
*/
module Format {
  import opened Basics
  import opened Blocks
  import opened BlockTree
  import opened Inodes

  lemma {:induction false} NoBit(k: nat)
    ensures !Has(0, k)
  {
    if k > 0 {
      NoBit(k - 1);
    }
  }

  lemma ZeroBits(j: nat)
    requires j < BITS
    ensures !Bit(ZeroBlock(), j)
  {
    NoBit(j % 8);
  }

  /** mkfs's balloc: the block of the free map with its first `used` bits set. */
  method FirstBits(used: nat) returns (b: Block)
    requires used < BITS
    ensures forall j :: 0 <= j < BITS ==> (Bit(b, j) <==> j < used)
  {
    b := ZeroBlock();
    forall j | 0 <= j < BITS ensures !Bit(b, j) {
      ZeroBits(j);
    }
    var i := 0;
    while i < used
      invariant i <= used
      invariant forall j :: 0 <= j < BITS ==> (Bit(b, j) <==> j < i)
    {
      b := SetBit(b, i);
      i := i + 1;
    }
  }

  /** Sector s of the disk is zero unless it is the superblock or the first block of the free map. */
  ghost predicate Blank(v: Disk, sb: Super)
  {
    forall s: nat {:trigger v[s]} | s < |v| && s != 1 && s != BitmapSector(sb, 0) :: v[s] == ZeroBlock()
  }

  /** The superblock: all sectors, those for data, the inodes, and the sectors of the log. */
  function SuperBlock(sb: Super, nlog: nat): (b: Block)
    requires DataStart(sb) + nlog <= sb.size < TWO32 && sb.ninodes < TWO32
    ensures Word(b, 0) == sb.size && Word(b, 0) == DataStart(sb) + Word(b, 1) + Word(b, 3)
    ensures Word(b, 2) == sb.ninodes && Word(b, 3) == nlog && forall k :: 4 <= k < WORDS ==> Word(b, k) == 0
  {
    var b := PutWord(PutWord(ZeroBlock(), 0, sb.size), 1, sb.size - DataStart(sb) - nlog);
    PutWord(PutWord(b, 2, sb.ninodes), 3, nlog)
  }

  method Mkfs(sb: Super, nlog: nat, used: nat) returns (v: Disk)
    requires DataStart(sb) <= used <= sb.size < TWO32 && used < BITS && DataStart(sb) + nlog <= sb.size
    ensures Sized(v, sb) && Blank(v, sb) && sb.ninodes < TWO32 && v[1] == SuperBlock(sb, nlog)
    ensures forall b: nat {:trigger InUse(v, sb, b)} | b < sb.size :: InUse(v, sb, b) <==> b < used
  {
    hide SuperBlock;
    var bits := FirstBits(used);
    v := seq(sb.size, _ => ZeroBlock())[1 := SuperBlock(sb, nlog)][BitmapSector(sb, 0) := bits];
    forall b: nat | b < sb.size ensures InUse(v, sb, b) <==> b < used {
      BitWhere(sb, b);
      if b >= BPB {
        ZeroBits(b % BPB);
      }
    }
  }

  lemma BitWhere(sb: Super, b: nat)
    ensures b < BPB ==> BitmapSector(sb, b) == BitmapSector(sb, 0) && b % BPB == b
    ensures b >= BPB ==> BitmapSector(sb, b) != BitmapSector(sb, 0)
  {
  }

  const EMPTY_META := Meta(0, 0, 0, 0, 0)

  function EmptyAddrs(): (a: Addrs)
    ensures forall k :: 0 <= k < NADDRS ==> a[k] == 0
  {
    seq(NADDRS, _ => 0)
  }

  lemma {:induction false} EmptyAt(v: Disk, s: Slot)
    requires s.Valid()
    ensures At(v, EmptyAddrs(), s) == 0
    decreases s.Depth()
  {
    if !s.IsRoot() {
      EmptyAt(v, s.Parent());
    }
  }

  function UpTo(n: nat): (r: set<nat>)
    ensures forall b :: b in r <==> 0 <= b < n
  {
    if n == 0 then {} else UpTo(n - 1) + {n - 1}
  }

  /** On an empty disk no tree has a block, and the free map accounts for the marked ones. */
  lemma BlankWf(v: Disk, sb: Super, t: Trees, used: nat)
    requires Sized(v, sb) && DataStart(sb) <= used <= sb.size && forall i | i in t :: t[i] == EmptyAddrs()
    requires forall b: nat {:trigger InUse(v, sb, b)} | b < sb.size :: InUse(v, sb, b) <==> b < used
    ensures Wf(v, sb, t, UpTo(used), map[])
  {
    forall i, s: Slot | i in t && s.Valid() ensures Names(map[], At(v, t[i], s), i, s) {
      EmptyAt(v, s);
    }
  }

  /** The image of an empty inode is all zeros. */
  lemma BlankImage(base: nat)
    requires base + INODE_WORDS <= WORDS
    ensures Holds(ZeroBlock(), base, Inode(EMPTY_META, EmptyAddrs()))
  {
    hide Word;
    forall k | 0 <= k < INODE_WORDS
      ensures Word(ZeroBlock(), base + k) == ImageWord(Inode(EMPTY_META, EmptyAddrs()), k)
    {
      assert ImageWord(Inode(EMPTY_META, EmptyAddrs()), k) == 0;
    }
  }

  lemma BlankInode(v: Disk, sb: Super, i: nat)
    requires Sized(v, sb) && Blank(v, sb) && i < sb.ninodes
    ensures OnDisk(v, i, Inode(EMPTY_META, EmptyAddrs()))
  {
    hide Holds;
    assert InodeSector(i) < BitmapSector(sb, 0);
    assert v[InodeSector(i)] == ZeroBlock();
    BlankImage(Base(i));
  }
}
