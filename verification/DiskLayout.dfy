/**
Where the file system's structures lie on the disk, byte by byte: struct dinode, the free map and
the index blocks.
*/
module DiskLayout {
  import opened Blocks
  import opened BlockTree
  import opened Inodes

  /** Two bytes at o, and four, low byte first. */
  function ShortAt(b: Block, o: nat): (x: nat)
    requires o + 2 <= BSIZE
  {
    b[o] as int + 0x100 * (b[o + 1] as int)
  }

  function UintAt(b: Block, o: nat): (x: nat)
    requires o + 4 <= BSIZE
  {
    ShortAt(b, o) + 0x1_0000 * ShortAt(b, o + 2)
  }

  lemma WordBytes(b: Block, w: nat)
    requires w < WORDS
    ensures Word(b, w) == UintAt(b, 4 * w)
    ensures Lo(Word(b, w)) == ShortAt(b, 4 * w) && Hi(Word(b, w)) == ShortAt(b, 4 * w + 2)
  {
  }

  // ---- Inodes ----

  ghost predicate DinodeHead(b: Block, o: nat, m: Meta)
    requires o + 64 <= BSIZE
  {
    && ShortAt(b, o) == m.kind && ShortAt(b, o + 2) == m.major
    && ShortAt(b, o + 4) == m.minor && ShortAt(b, o + 6) == m.nlink && UintAt(b, o + 8) == m.size
  }

  ghost predicate DinodeAddrs(b: Block, o: nat, a: Addrs)
    requires o + 64 <= BSIZE
  {
    forall k {:trigger a[k]} :: 0 <= k < NADDRS ==> UintAt(b, o + 12 + 4 * k) == a[k]
  }

  lemma HeadBytes(b: Block, base: nat, m: Meta)
    requires base + INODE_WORDS <= WORDS
    ensures GetImage(b, base).meta == m <==> DinodeHead(b, 4 * base, m)
  {
    WordBytes(b, base);
    WordBytes(b, base + 1);
    WordBytes(b, base + 2);
    hide Word;
    hide UintAt;
    hide ShortAt;
    hide Lo;
    hide Hi;
  }

  lemma AddrBytes(b: Block, base: nat, a: Addrs)
    requires base + INODE_WORDS <= WORDS
    ensures GetImage(b, base).addrs == a <==> DinodeAddrs(b, 4 * base, a)
  {
    var mine := GetAddrs(b, base);
    forall k | 0 <= k < NADDRS ensures mine[k] == UintAt(b, 4 * base + 12 + 4 * k) {
      WordBytes(b, base + 3 + k);
    }
    hide Word;
    hide UintAt;
    assert DinodeAddrs(b, 4 * base, a) ==> a == mine;
  }

  /** The disk copy of inode i is slot i % 8 of sector 2 + i / 8, in the order of struct dinode. */
  lemma InodeLayout(v: Disk, i: nat, n: Inode)
    requires 2 + i / 8 < |v|
    ensures var b, o := v[2 + i / 8], 64 * (i % 8);
            OnDisk(v, i, n) <==> DinodeHead(b, o, n.meta) && DinodeAddrs(b, o, n.addrs)
  {
    hide Holds;
    hide DinodeHead;
    hide DinodeAddrs;
    hide GetImage;
    hide PutImage;
    var base := Base(i);
    assert 4 * base == 64 * (i % 8) && InodeSector(i) == 2 + i / 8;
    hide Base;
    ImageRoundTrip(v[2 + i / 8], base, n);
    HeadBytes(v[2 + i / 8], base, n.meta);
    AddrBytes(v[2 + i / 8], base, n.addrs);
  }

  // ---- Index blocks ----

  /** The block number in word k of index block p; none if there is no such block. */
  function Entry(v: Disk, p: nat, k: nat): nat
    requires k < 128
  {
    if p == 0 || p >= |v| then 0 else UintAt(v[p], 4 * k)
  }

  lemma SlotLayout(v: Disk, a: Addrs, s: Slot)
    requires s.Valid() && !s.IsRoot()
    ensures At(v, a, s) == Entry(v, At(v, a, s.Parent()), s.Index())
  {
    var p := At(v, a, s.Parent());
    if 0 < p < |v| {
      WordBytes(v[p], s.Index());
    }
  }

  /** Where the block of file block bn is written down: in the inode, or one or two index blocks away. */
  lemma PathLayout(v: Disk, a: Addrs, bn: nat)
    requires bn < MAXFILE
    ensures At(v, a, DataSlot(bn)) ==
            if bn < 11 then a[bn]
            else if bn < 139 then Entry(v, a[11], bn - 11)
            else Entry(v, Entry(v, a[12], (bn - 139) / 128), (bn - 139) % 128)
  {
    hide Entry;
    if bn >= 139 {
      SlotLayout(v, a, DblMid((bn - 139) / 128));
      SlotLayout(v, a, DataSlot(bn));
    } else if bn >= 11 {
      SlotLayout(v, a, DataSlot(bn));
    }
  }

  // ---- The free map ----

  const BIT_VALUES := [1, 2, 4, 8, 16, 32, 64, 128]

  lemma {:induction false} BitValue(x: nat, k: nat)
    requires k < 8
    ensures Has(x, k) <==> x / BIT_VALUES[k] % 2 == 1
  {
    if k > 0 {
      BitValue(x / 2, k - 1);
    }
  }

  /** Block b's bit in the free map: bit b % 8 of byte b % 4096 / 8 of the sector for b / 4096. */
  lemma MapLayout(v: Disk, sb: Super, b: nat)
    requires b < sb.size <= |v| && DataStart(sb) <= sb.size
    ensures InUse(v, sb, b) <==> v[b / 4096 + sb.ninodes / 8 + 3][b % 4096 / 8] / BIT_VALUES[b % 8] % 2 == 1
  {
    BitValue(v[BitmapSector(sb, b)][b % 4096 / 8], b % 8);
    hide Has;
    assert b % 4096 % 8 == b % 8;
  }
}
