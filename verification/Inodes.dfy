/**
Inodes: the in-memory record, its 64-byte image in an inode block, and the byte
sequence its block tree stands for.
*/
module Inodes {
  import opened Basics
  import opened Blocks
  import opened BlockTree

  const T_DEV := 3
  const INODE_WORDS := 16

  type Short = x: int | 0 <= x < 0x1_0000

  datatype Meta = Meta(kind: Short, major: Short, minor: Short, nlink: Short, size: Uint)

  datatype Inode = Inode(meta: Meta, addrs: Addrs)

  /** Two shorts side by side in one word, low half first. */
  function Pair(lo: Short, hi: Short): (w: Uint)
    ensures Lo(w) == lo && Hi(w) == hi
  {
    lo as int + 0x1_0000 * (hi as int)
  }

  function Lo(w: Uint): Short { w % 0x1_0000 }

  function Hi(w: Uint): Short { w / 0x1_0000 }

  /** Word k of the on-disk image. */
  function ImageWord(n: Inode, k: nat): Uint
    requires k < INODE_WORDS
  {
    if k == 0 then Pair(n.meta.kind, n.meta.major)
    else if k == 1 then Pair(n.meta.minor, n.meta.nlink)
    else if k == 2 then n.meta.size
    else n.addrs[k - 3]
  }

  /** The first word of inode i in its inode block. */
  function Base(i: nat): (w: nat)
    ensures w + INODE_WORDS <= WORDS
  {
    i % IPB * INODE_WORDS
  }

  /** An inode block after the first k words of an image were stored from word `base` on. */
  function PutImage(b: Block, base: nat, n: Inode, k: nat): (r: Block)
    requires base + INODE_WORDS <= WORDS && k <= INODE_WORDS
    ensures forall j ::
              0 <= j < WORDS ==> Word(r, j) == if base <= j < base + k then ImageWord(n, j - base) else Word(b, j)
  {
    if k == 0 then b else PutWord(PutImage(b, base, n, k - 1), base + k - 1, ImageWord(n, k - 1))
  }

  function GetImage(b: Block, base: nat): Inode
    requires base + INODE_WORDS <= WORDS
  {
    var m := Meta(Lo(Word(b, base)), Hi(Word(b, base)), Lo(Word(b, base + 1)), Hi(Word(b, base + 1)),
                  Word(b, base + 2));
    Inode(m, GetAddrs(b, base))
  }

  function GetAddrs(b: Block, base: nat): (a: Addrs)
    requires base + INODE_WORDS <= WORDS
    ensures forall k :: 0 <= k < NADDRS ==> a[k] == Word(b, base + 3 + k)
  {
    var a := seq(NADDRS, k requires 0 <= k < NADDRS => Word(b, base + 3 + k));
    assert forall k :: 0 <= k < NADDRS ==> a[k] == Word(b, base + 3 + k);
    a
  }

  /** Block b holds the image of n from word `base` on. */
  ghost predicate Holds(b: Block, base: nat, n: Inode)
    requires base + INODE_WORDS <= WORDS
  {
    forall k :: 0 <= k < INODE_WORDS ==> Word(b, base + k) == ImageWord(n, k)
  }

  /** Reading an image back (as ilock does) gives the inode that was stored, and only that one. */
  lemma ImageRoundTrip(b: Block, base: nat, n: Inode)
    requires base + INODE_WORDS <= WORDS
    ensures Holds(b, base, n) <==> GetImage(b, base) == n
    ensures GetImage(PutImage(b, base, n, INODE_WORDS), base) == n
  {
    if Holds(b, base, n) {
      HeldImage(b, base, n);
    }
    if GetImage(b, base) == n {
      ImageHeld(b, base);
    }
    HeldImage(PutImage(b, base, n, INODE_WORDS), base, n);
  }

  lemma HeldImage(b: Block, base: nat, n: Inode)
    requires base + INODE_WORDS <= WORDS && Holds(b, base, n)
    ensures GetImage(b, base) == n
  {
    assert Word(b, base + 0) == ImageWord(n, 0) && Word(b, base + 1) == ImageWord(n, 1)
           && Word(b, base + 2) == ImageWord(n, 2);
    forall k | 0 <= k < NADDRS ensures GetAddrs(b, base)[k] == n.addrs[k] {
      assert Word(b, base + (3 + k)) == ImageWord(n, 3 + k);
    }
    assert GetAddrs(b, base) == n.addrs;
  }

  lemma ImageHeld(b: Block, base: nat)
    requires base + INODE_WORDS <= WORDS
    ensures Holds(b, base, GetImage(b, base))
  {
    var n := GetImage(b, base);
    PairSplit(Word(b, base));
    PairSplit(Word(b, base + 1));
    forall k | 0 <= k < INODE_WORDS ensures Word(b, base + k) == ImageWord(n, k) {
      if k >= 3 {
        assert n.addrs[k - 3] == Word(b, base + 3 + (k - 3));
      }
    }
  }

  lemma PairSplit(w: Uint)
    ensures Pair(Lo(w), Hi(w)) == w
  {
  }

  /** The disk copy of inode i is n. */
  ghost predicate OnDisk(v: Disk, i: nat, n: Inode)
  {
    InodeSector(i) < |v| && Holds(v[InodeSector(i)], Base(i), n)
  }

  /** The disk after inode i's image was stored. */
  function Stored(v: Disk, i: nat, n: Inode): Disk
    requires InodeSector(i) < |v|
  {
    v[InodeSector(i) := PutImage(v[InodeSector(i)], Base(i), n, INODE_WORDS)]
  }

  lemma ImageFrame(b: Block, base: nat, n: Inode, other: nat, m: Inode)
    requires base + INODE_WORDS <= WORDS && other + INODE_WORDS <= WORDS
    requires other + INODE_WORDS <= base || base + INODE_WORDS <= other
    requires Holds(b, other, m)
    ensures Holds(PutImage(b, base, n, INODE_WORDS), other, m)
  {
  }

  /** Storing an inode sets its own disk copy and leaves every other inode's alone. */
  lemma StoredOnDisk(v: Disk, i: nat, n: Inode, j: nat, m: Inode)
    requires InodeSector(i) < |v| && if j == i then m == n else OnDisk(v, j, m)
    ensures OnDisk(Stored(v, i, n), j, m)
  {
    if InodeSector(i) == InodeSector(j) && j != i {
      ImageFrame(v[InodeSector(i)], Base(i), n, Base(j), m);
    }
  }

  /** Byte k of a file; a missing block reads as zeros. */
  function ByteAt(v: Disk, a: Addrs, k: nat): Byte
  {
    if k / BSIZE < MAXFILE then
      var b := At(v, a, DataSlot(k / BSIZE));
      if 0 < b < |v| then v[b][k % BSIZE] else 0
    else 0
  }

  /** The file: its first `size` bytes. */
  function Content(v: Disk, a: Addrs, size: nat): (c: seq<Byte>)
    ensures |c| == size
  {
    seq(size, k requires 0 <= k => ByteAt(v, a, k))
  }

  /** Byte k has a block. */
  ghost predicate HasByte(v: Disk, a: Addrs, k: nat)
  {
    k / BSIZE < MAXFILE && At(v, a, DataSlot(k / BSIZE)) != 0
  }

  /** Every one of the first `len` bytes has a block. */
  ghost predicate Backed(v: Disk, a: Addrs, len: nat)
  {
    forall k: nat {:trigger HasByte(v, a, k)} | k < len :: HasByte(v, a, k)
  }
}
