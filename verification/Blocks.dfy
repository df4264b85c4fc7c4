/**
Disk blocks as the kernel sees them: 512 bytes, read either byte by byte (file
content), as 128 little-endian words (index blocks, inode blocks, the log
header) or as 4096 bits (the free map).
*/
module Blocks {
  import opened Basics

  const BSIZE := 512
  const WORDS := 128
  const BITS := 4096

  type Block = b: seq<Byte> | |b| == BSIZE witness seq(BSIZE, i => 0)
  type Disk = seq<Block>

  function ZeroBlock(): (b: Block)
    ensures forall i :: 0 <= i < WORDS ==> Word(b, i) == 0
  {
    seq(BSIZE, i => 0)
  }

  /** The i-th word of a block, as `((uint*)bp->data)[i]` reads it. */
  function Word(b: Block, i: nat): Uint
    requires i < WORDS
  {
    Join(b[4 * i], b[4 * i + 1], b[4 * i + 2], b[4 * i + 3])
  }

  function Join(b0: int, b1: int, b2: int, b3: int): int
  {
    b0 + 0x100 * b1 + 0x1_0000 * b2 + 0x100_0000 * b3
  }

  lemma JoinSplit(w: Uint)
    ensures w / 0x100_0000 < 0x100
    ensures Join(w % 0x100, w / 0x100 % 0x100, w / 0x1_0000 % 0x100, w / 0x100_0000) == w
  {
    var q1, q2, q3 := w / 0x100, w / 0x1_0000, w / 0x100_0000;
    assert q2 == q1 / 0x100 && q3 == q2 / 0x100;
    assert w == 0x100 * q1 + w % 0x100 && q1 == 0x100 * q2 + q1 % 0x100 && q2 == 0x100 * q3 + q2 % 0x100;
  }

  /** Stores a word; every other word keeps its value. */
  function PutWord(b: Block, i: nat, w: Uint): (r: Block)
    requires i < WORDS
    ensures Word(r, i) == w
    ensures forall j :: 0 <= j < WORDS && j != i ==> Word(r, j) == Word(b, j)
  {
    JoinSplit(w);
    b[4 * i := w % 0x100]
     [4 * i + 1 := w / 0x100 % 0x100]
     [4 * i + 2 := w / 0x1_0000 % 0x100]
     [4 * i + 3 := w / 0x100_0000]
  }

  /** The mask `1 << k`. */
  function Mask(k: nat): (p: nat)
    ensures p >= 1
  {
    if k == 0 then 1 else 2 * Mask(k - 1)
  }

  /** `x & (1 << k)` is nonzero. */
  predicate Has(x: nat, k: nat)
  {
    if k == 0 then x % 2 == 1 else Has(x / 2, k - 1)
  }

  /** Bit i of a block: `data[i/8] & (1 << (i % 8))` is nonzero. */
  predicate Bit(b: Block, i: nat)
    requires i < BITS
  {
    Has(b[i / 8], i % 8)
  }

  /** Adding the mask of a clear bit is `x | m`: it sets that bit and no other. */
  lemma {:induction false} OrMask(x: nat, k: nat, j: nat)
    requires !Has(x, k)
    ensures Has(x + Mask(k), j) == (j == k || Has(x, j))
  {
    if k == 0 {
      assert (x + 1) / 2 == x / 2;
    } else if j > 0 {
      assert (x + Mask(k)) / 2 == x / 2 + Mask(k - 1);
      OrMask(x / 2, k - 1, j - 1);
    }
  }

  /** Subtracting the mask of a set bit is `x & ~m`: it clears that bit and no other. */
  lemma {:induction false} AndNotMask(x: nat, k: nat, j: nat)
    requires Has(x, k)
    ensures Mask(k) <= x
    ensures Has(x - Mask(k), j) == (j != k && Has(x, j))
  {
    if k == 0 {
      assert (x - 1) / 2 == x / 2;
    } else {
      AndNotMask(x / 2, k - 1, if j > 0 then j - 1 else 0);
      assert (x - Mask(k)) / 2 == x / 2 - Mask(k - 1);
    }
  }

  /** Setting a clear bit of a value below 2^n keeps it below 2^n. */
  lemma {:induction false} OrMaskBound(x: nat, k: nat, n: nat)
    requires k < n && x < Mask(n) && !Has(x, k)
    ensures x + Mask(k) < Mask(n)
  {
    var m := Mask(n - 1);
    assert x == 2 * (x / 2) + x % 2 && x / 2 < m;
    if k > 0 {
      OrMaskBound(x / 2, k - 1, n - 1);
      assert x / 2 + Mask(k - 1) < m;
    }
  }

  function SetBit(b: Block, i: nat): (r: Block)
    requires i < BITS && !Bit(b, i)
    ensures Bit(r, i)
    ensures forall j :: 0 <= j < BITS && j != i ==> Bit(r, j) == Bit(b, j)
  {
    OrMaskBound(b[i / 8], i % 8, 8);
    var r := b[i / 8 := b[i / 8] + Mask(i % 8)];
    assert forall j :: 0 <= j < BITS ==> Bit(r, j) == (j == i || Bit(b, j)) by {
      forall j | 0 <= j < BITS ensures Bit(r, j) == (j == i || Bit(b, j)) {
        OrMask(b[i / 8], i % 8, j % 8);
      }
    }
    r
  }

  function ClearBit(b: Block, i: nat): (r: Block)
    requires i < BITS && Bit(b, i)
    ensures !Bit(r, i)
    ensures forall j :: 0 <= j < BITS && j != i ==> Bit(r, j) == Bit(b, j)
  {
    AndNotMask(b[i / 8], i % 8, 0);
    var r := b[i / 8 := b[i / 8] - Mask(i % 8)];
    assert forall j :: 0 <= j < BITS ==> Bit(r, j) == (j != i && Bit(b, j)) by {
      forall j | 0 <= j < BITS ensures Bit(r, j) == (j != i && Bit(b, j)) {
        AndNotMask(b[i / 8], i % 8, j % 8);
      }
    }
    r
  }
}
