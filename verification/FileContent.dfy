/**
How changes of the disk show in the bytes of files.
*/
module FileContent {
  import opened Basics
  import opened Blocks
  import opened BlockTree
  import opened Inodes

  /** The blocks of the trees are the same, so every file is. */
  lemma BodyKeptBytes(v: Disk, sb: Super, t: Trees, reserved: set<nat>, own: map<nat, Owner>, v': Disk, j: nat, k: nat)
    requires Wf(v, sb, t, reserved, own) && j in t && IndexKept(v, v', own) && DataKept(v, v', own)
    ensures ByteAt(v', t[j], k) == ByteAt(v, t[j], k)
  {
    if k / BSIZE < MAXFILE {
      var s := DataSlot(k / BSIZE);
      AtFrame(v, v', t, own, j, s);
      assert Names(own, At(v, t[j], s), j, s);
    }
  }

  lemma BodyKeptContent(v: Disk, sb: Super, t: Trees, reserved: set<nat>, own: map<nat, Owner>, v': Disk, j: nat,
                        size: nat)
    requires Wf(v, sb, t, reserved, own) && j in t && IndexKept(v, v', own) && DataKept(v, v', own)
    ensures Content(v', t[j], size) == Content(v, t[j], size)
    ensures Backed(v, t[j], size) ==> Backed(v', t[j], size)
  {
    forall k: nat | k < size ensures ByteAt(v', t[j], k) == ByteAt(v, t[j], k) {
      BodyKeptBytes(v, sb, t, reserved, own, v', j, k);
    }
    forall k: nat ensures HasByte(v', t[j], k) == HasByte(v, t[j], k) {
      if k / BSIZE < MAXFILE {
        AtFrame(v, v', t, own, j, DataSlot(k / BSIZE));
      }
    }
  }

  /** Growth of trees changes no byte that has a block. */
  lemma GrownBytes(v: Disk, sb: Super, t: Trees, reserved: set<nat>, own: map<nat, Owner>, v': Disk, t': Trees,
                   own': map<nat, Owner>,
                   i: nat, d: Slot, j: nat, k: nat)
    requires Wf(v, sb, t, reserved, own) && Grown(v, t, own, v', t', own', i, d)
    requires j in t && HasByte(v, t[j], k)
    ensures HasByte(v', t'[j], k)
    ensures ByteAt(v', t'[j], k) == ByteAt(v, t[j], k)
  {
    var s := DataSlot(k / BSIZE);
    assert Names(own, At(v, t[j], s), j, s);
    assert At(v', t'[j], s) == At(v, t[j], s);
  }

  /** Overwriting the block of file block bn of inode i shows there and nowhere else. */
  lemma DataWriteBytes(v: Disk, sb: Super, t: Trees, reserved: set<nat>, own: map<nat, Owner>, v': Disk, i: nat,
                       bn: nat, blk: Block,
                       j: nat, k: nat)
    requires Wf(v, sb, t, reserved, own) && i in t && j in t && bn < MAXFILE
    requires 0 < At(v, t[i], DataSlot(bn)) < |v| && v' == v[At(v, t[i], DataSlot(bn)) := blk]
    requires SameTrees(v, t, v', t)
    ensures ByteAt(v', t[j], k) == if j == i && k / BSIZE == bn then blk[k % BSIZE] else ByteAt(v, t[j], k)
  {
    if k / BSIZE < MAXFILE {
      var s := DataSlot(k / BSIZE);
      assert At(v', t[j], s) == At(v, t[j], s);
      assert Names(own, At(v, t[j], s), j, s) && Names(own, At(v, t[i], DataSlot(bn)), i, DataSlot(bn));
    }
  }

  /** The bytes at `off` of inode i were replaced, and no other byte of any file changed. */
  ghost predicate Wrote(v: Disk, t: Trees, v': Disk, t': Trees, i: nat, off: nat, src: seq<Byte>)
  {
    && i in t && t'.Keys == t.Keys
    && (forall j, k: nat {:trigger ByteAt(v', t'[j], k)} {:trigger HasByte(v', t'[j], k)} | j in t
        && HasByte(v, t[j], k) ::
          && HasByte(v', t'[j], k)
          && ByteAt(v', t'[j], k) == if j == i && off <= k < off + |src| then src[k - off] else ByteAt(v, t[j], k))
    && (forall k: nat {:trigger ByteAt(v', t'[i], k)} {:trigger HasByte(v', t'[i], k)} | off <= k < off + |src| ::
          HasByte(v', t'[i], k) && ByteAt(v', t'[i], k) == src[k - off])
  }

  lemma WroteNothing(v: Disk, t: Trees, i: nat, off: nat)
    requires i in t
    ensures Wrote(v, t, v, t, i, off, [])
  {
  }

  lemma WroteMore(v0: Disk, t0: Trees, v1: Disk, t1: Trees, v2: Disk, t2: Trees, i: nat, off: nat, s1: seq<Byte>,
                  s2: seq<Byte>)
    requires Wrote(v0, t0, v1, t1, i, off, s1) && Wrote(v1, t1, v2, t2, i, off + |s1|, s2)
    ensures Wrote(v0, t0, v2, t2, i, off, s1 + s2)
  {
    forall j, k: nat | j in t0 && HasByte(v0, t0[j], k)
      ensures HasByte(v2, t2[j], k)
      ensures ByteAt(v2, t2[j], k) == if j == i && off <= k < off + |s1 + s2| then (s1 + s2)[k - off]
              else ByteAt(v0, t0[j], k)
    {
      assert HasByte(v1, t1[j], k);
    }
    forall k: nat | off <= k < off + |s1 + s2|
      ensures HasByte(v2, t2[i], k) && ByteAt(v2, t2[i], k) == (s1 + s2)[k - off]
    {
      if k < off + |s1| {
        assert HasByte(v1, t1[i], k);
      }
    }
  }

  /** A block with some bytes replaced. */
  function Patch(b: Block, at: nat, chunk: seq<Byte>): (r: Block)
    requires at + |chunk| <= BSIZE
    ensures forall q :: 0 <= q < BSIZE ==> r[q] == if at <= q < at + |chunk| then chunk[q - at] else b[q]
  {
    b[..at] + chunk + b[at + |chunk|..]
  }

  /** Offsets within one block. */
  lemma SameBlock(off: nat, k: nat)
    requires off <= k < off + (BSIZE - off % BSIZE)
    ensures k / BSIZE == off / BSIZE && k % BSIZE == off % BSIZE + (k - off)
  {
  }

  lemma OtherBytes(off: nat, n: nat, k: nat)
    requires off % BSIZE + n <= BSIZE && k / BSIZE == off / BSIZE
    ensures off <= k < off + n <==> off % BSIZE <= k % BSIZE < off % BSIZE + n
    ensures k - off == k % BSIZE - off % BSIZE
  {
  }

  /** Patching one data block is a write of that many bytes. */
  lemma PatchWrote(v: Disk, sb: Super, t: Trees, reserved: set<nat>, own: map<nat, Owner>, v': Disk, i: nat, off: nat,
                   chunk: seq<Byte>)
    requires Wf(v, sb, t, reserved, own) && i in t && off / BSIZE < MAXFILE && off % BSIZE + |chunk| <= BSIZE
    requires 0 < At(v, t[i], DataSlot(off / BSIZE)) < |v|
    requires var b := At(v, t[i], DataSlot(off / BSIZE)); v' == v[b := Patch(v[b], off % BSIZE, chunk)]
    requires SameTrees(v, t, v', t)
    ensures Wrote(v, t, v', t, i, off, chunk)
  {
    var b := At(v, t[i], DataSlot(off / BSIZE));
    var blk := Patch(v[b], off % BSIZE, chunk);
    forall j, k: nat | j in t && HasByte(v, t[j], k)
      ensures HasByte(v', t[j], k)
      ensures ByteAt(v', t[j], k) == if j == i && off <= k < off + |chunk| then chunk[k - off] else ByteAt(v, t[j], k)
    {
      PatchByte(v, sb, t, reserved, own, v', i, off, chunk, j, k);
    }
    forall k: nat | off <= k < off + |chunk|
      ensures HasByte(v', t[i], k) && ByteAt(v', t[i], k) == chunk[k - off]
    {
      SameBlock(off, k);
      assert HasByte(v, t[i], k);
      PatchByte(v, sb, t, reserved, own, v', i, off, chunk, i, k);
    }
  }

  lemma PatchByte(v: Disk, sb: Super, t: Trees, reserved: set<nat>, own: map<nat, Owner>, v': Disk, i: nat, off: nat,
                  chunk: seq<Byte>,
                  j: nat, k: nat)
    requires Wf(v, sb, t, reserved, own) && i in t && off / BSIZE < MAXFILE && off % BSIZE + |chunk| <= BSIZE
    requires 0 < At(v, t[i], DataSlot(off / BSIZE)) < |v|
    requires var b := At(v, t[i], DataSlot(off / BSIZE)); v' == v[b := Patch(v[b], off % BSIZE, chunk)]
    requires SameTrees(v, t, v', t) && j in t && HasByte(v, t[j], k)
    ensures HasByte(v', t[j], k)
    ensures ByteAt(v', t[j], k) == if j == i && off <= k < off + |chunk| then chunk[k - off] else ByteAt(v, t[j], k)
  {
    var b := At(v, t[i], DataSlot(off / BSIZE));
    DataWriteBytes(v, sb, t, reserved, own, v', i, off / BSIZE, Patch(v[b], off % BSIZE, chunk), j, k);
    assert At(v', t[j], DataSlot(k / BSIZE)) == At(v, t[j], DataSlot(k / BSIZE));
    if j == i && k / BSIZE == off / BSIZE {
      OtherBytes(off, |chunk|, k);
    } else if j == i && off <= k < off + |chunk| {
      SameBlock(off, k);
    }
  }

  /** Growth of trees is a write of nothing. */
  lemma GrownWrote(v: Disk, sb: Super, t: Trees, reserved: set<nat>, own: map<nat, Owner>, v': Disk, t': Trees,
                   own': map<nat, Owner>,
                   i: nat, d: Slot, off: nat)
    requires Wf(v, sb, t, reserved, own) && Grown(v, t, own, v', t', own', i, d) && i in t
    ensures Wrote(v, t, v', t', i, off, [])
  {
    forall j, k: nat | j in t && HasByte(v, t[j], k)
      ensures HasByte(v', t'[j], k) && ByteAt(v', t'[j], k) == ByteAt(v, t[j], k)
    {
      GrownBytes(v, sb, t, reserved, own, v', t', own', i, d, j, k);
    }
  }

  /** What a write does to the file as a sequence of bytes. */
  lemma WroteContent(v: Disk, t: Trees, v': Disk, t': Trees, i: nat, off: nat, src: seq<Byte>, size: nat)
    requires Wrote(v, t, v', t', i, off, src) && Backed(v, t[i], size) && off <= size
    ensures var size' := if off + |src| > size then off + |src| else size;
            && Backed(v', t'[i], size')
            && Content(v', t'[i], size') ==
                 Content(v, t[i], size)[..off] + src
                     + Content(v, t[i], size)[if off + |src| > size then size else off + |src|..]
  {
    var size' := if off + |src| > size then off + |src| else size;
    forall k: nat | k < size'
      ensures HasByte(v', t'[i], k)
      ensures ByteAt(v', t'[i], k) == if off <= k < off + |src| then src[k - off] else ByteAt(v, t[i], k)
    {
      assert k < size ==> HasByte(v, t[i], k);
    }
  }

  lemma WroteOthers(v: Disk, t: Trees, v': Disk, t': Trees, i: nat, off: nat, src: seq<Byte>, j: nat, size: nat)
    requires Wrote(v, t, v', t', i, off, src) && j in t && j != i && Backed(v, t[j], size)
    ensures Backed(v', t'[j], size) && Content(v', t'[j], size) == Content(v, t[j], size)
  {
    forall k: nat | k < size ensures HasByte(v', t'[j], k) && ByteAt(v', t'[j], k) == ByteAt(v, t[j], k) {
      assert HasByte(v, t[j], k);
    }
  }

  /** One block of a file patched in place: the trees stand, the head of the disk stands, the bytes are written. */
  lemma PatchData(v: Disk, sb: Super, t: Trees, reserved: set<nat>, own: map<nat, Owner>, v': Disk, i: nat, off: nat,
      chunk: seq<Byte>, b: nat)
    requires Wf(v, sb, t, reserved, own) && i in t && off / BSIZE < MAXFILE && off % BSIZE + |chunk| <= BSIZE
    requires b == At(v, t[i], DataSlot(off / BSIZE)) != 0 && b < |v| && v' == v[b := Patch(v[b], off % BSIZE, chunk)]
    ensures Wf(v', sb, t, reserved, own) && HeadKept(v, v', sb) && Wrote(v, t, v', t, i, off, chunk)
    ensures b in own && own[b] == Owner(i, DataSlot(off / BSIZE))
  {
    IndexOwned(v, sb, t, reserved, own, i, DataSlot(off / BSIZE));
    DataBlockWrite(v, sb, t, reserved, own, b, v'[b]);
    assert v' == v[b := v'[b]];
    PatchWrote(v, sb, t, reserved, own, v', i, off, chunk);
    assert HeadKept(v, v', sb);
  }

  /** A change before the data blocks takes nothing away from a write. */
  lemma WroteKept(v: Disk, t: Trees, v1: Disk, sb: Super, t1: Trees, reserved: set<nat>, own: map<nat, Owner>, v2: Disk,
                  i: nat, off: nat, src: seq<Byte>)
    requires Wrote(v, t, v1, t1, i, off, src) && Wf(v1, sb, t1, reserved, own) && |v2| == |v1|
    requires forall c :: DataStart(sb) <= c < |v1| ==> v2[c] == v1[c]
    ensures Wrote(v, t, v2, t1, i, off, src)
  {
    forall j, k: nat | j in t1 && HasByte(v1, t1[j], k)
      ensures HasByte(v2, t1[j], k) && ByteAt(v2, t1[j], k) == ByteAt(v1, t1[j], k)
    {
      BodyKeptBytes(v1, sb, t1, reserved, own, v2, j, k);
      AtFrame(v1, v2, t1, own, j, DataSlot(k / BSIZE));
    }
    assert Wrote(v1, t1, v2, t1, i, off + |src|, []);
    WroteMore(v, t, v1, t1, v2, t1, i, off, src, []);
    assert src + [] == src;
  }
}
