/**
The block allocator, the block map and inode content of fs.c, over the cached
disk: `view` is what bread returns for each sector.
*/
module FileSystems {
  import opened Basics
  import opened Blocks
  import opened BlockTree
  import opened Inodes
  import opened FileContent
  import opened Format
  import opened LogHeader
  import opened Spans
  import opened LogBooks

  /**
  Running, or the panic that stopped the kernel. LogOverrun is no panic: a transaction
  logged a sector of the log itself, and its commit has overwritten it.
  */
  datatype Halt = Running | OutOfBlocks | OutOfRange | LogFull | FreeingFreeBlock | LogOverrun | NoInodes | NoType

  lemma BitPlace(sb: Super, base: nat, bi: nat)
    requires base % BPB == 0 && bi < BPB
    ensures BitmapSector(sb, base + bi) == BitmapSector(sb, base) && (base + bi) % BPB == bi
  {
  }

  /** balloc's scan: one free-map block at a time, bit by bit. */
  method FirstFree(view: Disk, sb: Super) returns (found: bool, b: Uint)
    requires Sized(view, sb)
    ensures found ==> FirstFit(view, sb, b)
    ensures !found ==> NoneFree(view, sb)
  {
    var base := 0;
    while base < sb.size
      invariant base % BPB == 0
      invariant forall c: nat | c < base && c < sb.size :: InUse(view, sb, c)
    {
      var bp := view[BitmapSector(sb, base)];
      var bi := 0;
      while bi < BPB && base + bi < sb.size
        invariant 0 <= bi <= BPB
        invariant forall c: nat | c < base + bi && c < sb.size :: InUse(view, sb, c)
      {
        BitPlace(sb, base, bi);
        if !Bit(bp, bi) {
          return true, base + bi;
        }
        bi := bi + 1;
      }
      base := base + BPB;
    }
    return false, 0;
  }

  /** The first k direct blocks of inode i. */
  ghost function FirstTier(own: map<nat, Owner>, i: nat, k: nat): set<nat>
  {
    set b | b in own && own[b].inum == i && own[b].slot.Direct? && own[b].slot.i < k
  }

  /** The block of inode i's direct slot k. */
  ghost function Entry(own: map<nat, Owner>, i: nat, k: nat): set<nat>
  {
    set b | b in own && own[b] == Owner(i, Direct(k))
  }

  lemma NoEntry(v: Disk, sb: Super, t: Trees, reserved: set<nat>, own: map<nat, Owner>, i: nat, k: nat)
    requires Wf(v, sb, t, reserved, own) && i in t && k < NDIRECT && t[i][k] == 0
    ensures Entry(own, i, k) == {} && t[i := t[i][k := 0]] == t
  {
    assert At(v, t[i], Direct(k)) == 0;
    EmptySlotUnowned(v, sb, t, reserved, own, i, Direct(k));
    assert t[i][k := 0] == t[i];
  }

  lemma OneEntry(v: Disk, sb: Super, t: Trees, reserved: set<nat>, own: map<nat, Owner>, i: nat, k: nat)
    requires Wf(v, sb, t, reserved, own) && i in t && k < NDIRECT && t[i][k] in own
    requires own[t[i][k]] == Owner(i, Direct(k))
    ensures Entry(own, i, k) == {t[i][k]}
  {
    forall b | b in Entry(own, i, k) ensures b == t[i][k] {
      SameOwner(v, sb, t, reserved, own, b, t[i][k]);
    }
  }

  lemma TierStep(own: map<nat, Owner>, i: nat, k: nat)
    ensures own - FirstTier(own, i, k) - Entry(own - FirstTier(own, i, k), i, k) == own - FirstTier(own, i, k + 1)
  {
  }

  lemma NoSecondTier(v: Disk, sb: Super, t: Trees, reserved: set<nat>, own: map<nat, Owner>, i: nat)
    requires Wf(v, sb, t, reserved, own) && i in t && t[i][NDIRECT] == 0
    ensures SecondTier(own, i, 0) == {} && t[i := t[i][NDIRECT := 0]] == t
  {
    if b :| b in SecondTier(own, i, 0) {
      assert At(v, t[i], own[b].slot) == b;
      assert At(v, t[i], Ind) == 0;
      assert false;
    }
    assert t[i][NDIRECT := 0] == t[i];
  }

  /** Block numbers with the first k entries cleared. */
  function Cleared(a: Addrs, k: nat): (r: Addrs)
    requires k <= NADDRS
    ensures forall j :: 0 <= j < NADDRS ==> r[j] == if j < k then 0 else a[j]
  {
    seq(k, _ => 0) + a[k..]
  }

  /** No file has a hole below its size. */
  ghost predicate AllBacked(v: Disk, t: Trees, m: map<nat, Meta>)
  {
    t.Keys == m.Keys && forall i | i in t :: Backed(v, t[i], m[i].size)
  }

  /** Every inode is on the disk as it is in memory. */
  ghost predicate AllSynced(v: Disk, sb: Super, t: Trees, m: map<nat, Meta>)
  {
    t.Keys == m.Keys && forall i | i in t :: i < sb.ninodes && OnDisk(v, i, Inode(m[i], t[i]))
  }

  /** The blocks of inode i outside its doubly indirect tier. */
  ghost function UpperTiers(own: map<nat, Owner>, i: nat): set<nat>
  {
    set b | b in own && own[b].inum == i && (own[b].slot.Direct? || own[b].slot.Ind? || own[b].slot.IndData?)
  }

  lemma UpperTiersFreed(v: Disk, sb: Super, t: Trees, reserved: set<nat>, own: map<nat, Owner>, i: nat)
    requires Wf(v, sb, t, reserved, own)
    ensures var own1 := own - FirstTier(own, i, NDIRECT);
            own1 - SecondTier(own1, i, 0) == own - UpperTiers(own, i)
  {
  }

  /** Storing inode i, when only the free map changed otherwise, leaves every inode synced. */
  lemma StoreSynced(v0: Disk, v: Disk, sb: Super, t: Trees, m: map<nat, Meta>, i: nat, a: Addrs, n: Meta)
    requires Sized(v0, sb) && AllSynced(v0, sb, t, m) && HeadKept(v0, v, sb) && i in t
    ensures AllSynced(Stored(v, i, Inode(n, a)), sb, t[i := a], m[i := n])
  {
    var v' := Stored(v, i, Inode(n, a));
    forall j | j in t ensures OnDisk(v', j, Inode(m[i := n][j], t[i := a][j])) {
      assert InodeSector(j) < BitmapSector(sb, 0);
      StoredOnDisk(v, i, Inode(n, a), j, Inode(m[i := n][j], t[i := a][j]));
    }
  }

  /** What the file system is for: each inode's bytes. */
  type Files = map<nat, seq<Byte>>

  function FilesOf(v: Disk, t: Trees, m: map<nat, Meta>): (f: Files)
    ensures f.Keys == t.Keys * m.Keys
    ensures forall i | i in f :: |f[i]| == m[i].size
  {
    map i | i in t && i in m :: Content(v, t[i], m[i].size)
  }

  lemma StoredElsewhere(v: Disk, i: nat, n: Inode, sb: Super)
    requires Sized(v, sb) && i < sb.ninodes
    ensures InodeSector(i) < BitmapSector(sb, 0) <= |v|
    ensures forall c :: 0 <= c < |v| && c != InodeSector(i) ==> Stored(v, i, n)[c] == v[c]
  {
  }

  /** Emptying inode i, when no block past the free map changed, leaves every file backed. */
  lemma EmptyBacked(v: Disk, sb: Super, t: Trees, reserved: set<nat>, own: map<nat, Owner>, v': Disk, m: map<nat, Meta>,
                    i: nat, a: Addrs, n: Meta)
    requires Wf(v, sb, t, reserved, own) && AllBacked(v, t, m) && i in t && n.size == 0 && |v'| == |v|
    requires forall c :: DataStart(sb) <= c < |v| ==> v'[c] == v[c]
    ensures AllBacked(v', t[i := a], m[i := n])
    ensures FilesOf(v', t[i := a], m[i := n]) == FilesOf(v, t, m)[i := []]
  {
    forall j | j in t
      ensures Content(v', t[j], m[j].size) == Content(v, t[j], m[j].size)
      ensures Backed(v', t[j], m[j].size)
    {
      BodyKeptContent(v, sb, t, reserved, own, v', j, m[j].size);
    }
    FilesChanged(v, t, m, v', t[i := a], m[i := n], i, []);
  }

  const NDEV := 10

  /** What readi and writei answer: -1, a call of the device driver, or a byte count. */
  datatype Io = Refused | ToDevice(major: nat) | Count(n: nat)

  function Min(a: nat, b: nat): nat { if a < b then a else b }

  function Max(a: nat, b: nat): nat { if a > b then a else b }

  lemma ChunkBounds(off: nat, left: nat)
    requires left > 0 && off + left <= MAXFILE * BSIZE
    ensures var m := Min(left, BSIZE - off % BSIZE);
            && 0 < m <= left && off % BSIZE + m <= BSIZE && off / BSIZE < MAXFILE
            && off / BSIZE + 1 == BlocksFor(off + m)
  {
  }

  lemma SliceMore(s: seq<Byte>, k: nat, m: nat)
    requires k + m <= |s|
    ensures s[..k] + s[k..k + m] == s[..k + m]
  {
  }

  lemma SliceFrom(s: seq<Byte>, a: nat, k: nat, m: nat)
    requires a + k + m <= |s|
    ensures s[a..a + k] + s[a + k..a + k + m] == s[a..a + (k + m)]
  {
  }

  lemma UpdateTwice(t0: Trees, t1: Trees, t2: Trees, i: nat)
    requires i in t1 && i in t2 && t1 == t0[i := t1[i]] && t2 == t1[i := t2[i]]
    ensures t2 == t0[i := t2[i]]
  {
  }

  /** When no inode block, block number or other field changed, every inode is still synced. */
  lemma SyncedKept(v: Disk, v': Disk, sb: Super, t: Trees, m: map<nat, Meta>)
    requires Sized(v, sb) && AllSynced(v, sb, t, m) && HeadKept(v, v', sb)
    ensures AllSynced(v', sb, t, m)
  {
    forall j | j in t ensures OnDisk(v', j, Inode(m[j], t[j])) {
      assert InodeSector(j) < BitmapSector(sb, 0);
    }
  }

  /** After a write every file is backed, and only inode i's file changed. */
  lemma WroteFiles(v: Disk, t: Trees, m: map<nat, Meta>, v': Disk, t': Trees, m': map<nat, Meta>, i: nat, off: nat,
                   src: seq<Byte>)
    requires AllBacked(v, t, m) && Wrote(v, t, v', t', i, off, src) && off <= m[i].size
    requires i in m' && m' == m[i := m'[i]] && m'[i].size == Max(off + |src|, m[i].size)
    ensures AllBacked(v', t', m')
    ensures FilesOf(v', t', m') == FilesOf(v, t, m)[i := Written(FilesOf(v, t, m)[i], off, src)]
  {
    WroteContent(v, t, v', t', i, off, src, m[i].size);
    WroteElsewhere(v, t, m, v', t', i, off, src);
    FilesChanged(v, t, m, v', t', m', i, Written(FilesOf(v, t, m)[i], off, src));
  }

  lemma WroteElsewhere(v: Disk, t: Trees, m: map<nat, Meta>, v': Disk, t': Trees, i: nat, off: nat, src: seq<Byte>)
    requires AllBacked(v, t, m) && Wrote(v, t, v', t', i, off, src)
    ensures forall j | j in t && j != i ::
              Backed(v', t'[j], m[j].size) && Content(v', t'[j], m[j].size) == Content(v, t[j], m[j].size)
  {
    forall j | j in t && j != i
      ensures Backed(v', t'[j], m[j].size) && Content(v', t'[j], m[j].size) == Content(v, t[j], m[j].size)
    {
      WroteOthers(v, t, v', t', i, off, src, j, m[j].size);
    }
  }

  lemma FilesChanged(v: Disk, t: Trees, m: map<nat, Meta>, v': Disk, t': Trees, m': map<nat, Meta>, i: nat,
                     w: seq<Byte>)
    requires t.Keys == m.Keys == t'.Keys == m'.Keys && i in t
    requires forall j | j in t && j != i ::
              m'[j] == m[j] && Content(v', t'[j], m[j].size) == Content(v, t[j], m[j].size)
    requires Content(v', t'[i], m'[i].size) == w
    ensures FilesOf(v', t', m') == FilesOf(v, t, m)[i := w]
  {
    var f, f' := FilesOf(v, t, m)[i := w], FilesOf(v', t', m');
    assert f'.Keys == f.Keys;
    assert forall j | j in f' :: f'[j] == f[j];
  }

  /** A file after `src` was written at `off`. */
  function Written(file: seq<Byte>, off: nat, src: seq<Byte>): seq<Byte>
    requires off <= |file|
  {
    file[..off] + src + file[Min(off + |src|, |file|)..]
  }

  /** A piece of one block is a piece of the file. */
  lemma ReadSlice(v: Disk, sb: Super, t: Trees, reserved: set<nat>, own: map<nat, Owner>, i: nat, size: nat, off: nat,
                  m: nat, b: nat)
    requires Wf(v, sb, t, reserved, own) && i in t && Backed(v, t[i], size)
    requires off + m <= size && off % BSIZE + m <= BSIZE && 0 < m
    requires off / BSIZE < MAXFILE ==> b == At(v, t[i], DataSlot(off / BSIZE))
    ensures HasByte(v, t[i], off)
    ensures b < |v| && v[b][off % BSIZE..off % BSIZE + m] == Content(v, t[i], size)[off..off + m]
  {
    assert HasByte(v, t[i], off);
    IndexOwned(v, sb, t, reserved, own, i, DataSlot(off / BSIZE));
    SliceOfBlock(v, t[i], size, off, m, b);
  }

  lemma ReadPlace(v: Disk, a: Addrs, size: nat, off: nat, n: nat)
    requires Backed(v, a, size) && off < size && 0 < n
    ensures off / BSIZE < MAXFILE && At(v, a, DataSlot(off / BSIZE)) != 0
    ensures var m := Min(n, BSIZE - off % BSIZE); 0 < m <= n && off % BSIZE + m <= BSIZE
  {
    assert HasByte(v, a, off);
  }

  lemma SliceOfBlock(v: Disk, a: Addrs, size: nat, off: nat, m: nat, b: nat)
    requires off + m <= size && off % BSIZE + m <= BSIZE && off / BSIZE < MAXFILE
    requires b == At(v, a, DataSlot(off / BSIZE)) && 0 < b < |v|
    ensures v[b][off % BSIZE..off % BSIZE + m] == Content(v, a, size)[off..off + m]
  {
    var piece, part := v[b][off % BSIZE..off % BSIZE + m], Content(v, a, size)[off..off + m];
    forall q | 0 <= q < m ensures piece[q] == part[q] {
      SameBlock(off, off + q);
      assert part[q] == ByteAt(v, a, off + q);
    }
  }

  /** What a commit of the list lh leaves in the header sector, which held b before. */
  ghost predicate Headed(b: Block, lh: seq<nat>, b': Block)
  {
    Encodable(lh) && b' == HeaderBlock(HeaderBlock(b, lh, |lh|), [], 0)
  }

  /** No tree block is in the log, and nothing before the log changed: every file is as it was. */
  lemma CommitKeeps(v: Disk, sb: Super, t: Trees, g: Books, v': Disk, m: map<nat, Meta>, lo: nat)
    requires Wf(v, sb, t, g.reserved, g.own) && AllBacked(v, t, m) && AllSynced(v, sb, t, m)
    requires DataStart(sb) <= lo <= sb.size
    requires |v'| == |v| && (forall s: nat | s < lo :: v'[s] == v[s]) && forall b | b in g.own :: b < lo
    ensures Wf(v', sb, t, g.reserved, g.own) && AllBacked(v', t, m) && AllSynced(v', sb, t, m)
    ensures FilesOf(v', t, m) == FilesOf(v, t, m)
  {
    assert Accounted(v', sb, g.reserved, g.own) by {
      forall c: nat | c < sb.size ensures InUse(v', sb, c) == InUse(v, sb, c) {
        assert BitmapSector(sb, c) < DataStart(sb);
      }
    }
    WfSame(v, sb, t, v', g.reserved, g.reserved, g.own);
    SyncedKept(v, v', sb, t, m);
    forall j | j in t
      ensures Content(v', t[j], m[j].size) == Content(v, t[j], m[j].size)
      ensures Backed(v', t[j], m[j].size)
    {
      BodyKeptContent(v, sb, t, g.reserved, g.own, v', j, m[j].size);
    }
    assert FilesOf(v', t, m) == FilesOf(v, t, m);
  }

  lemma SizedOf(v: Disk, sb: Super, t: Trees, g: Books)
    requires Wf(v, sb, t, g.reserved, g.own)
    ensures Sized(v, sb)
  {
  }

  /** Nothing happened. */
  lemma Still(v: Disk, sb: Super, t: Trees, g: Books, i: nat, d: Slot)
    requires i in t
    ensures Grown(v, t, g.own, v, t, g.own, i, d) && HeadKept(v, v, sb) && Stepped(t, g, t, g, i, d)
  {
    assert t == t[i := t[i]];
  }

  /** A fresh block b becomes the tree block of slot r of inode i. */
  lemma FilledRoot(v: Disk, v1: Disk, sb: Super, logSize: nat, t: Trees, g: Books, lh0: seq<nat>, lh: seq<nat>,
                   i: nat, r: Slot, b: Uint, d: Slot)
    requires var g1 := Gave(g, sb, b, Owner(i, r));
             Sorted(lh0, g1) && Listing(lh, g1, sb, logSize) && lh == Absorb(lh0, b) && Tracked(g1, sb)
    requires SetAside(v, v1, sb, t, g.reserved, g.own, b) && Filed(g.own, g.blocks) && Linked(g) && Posted(g)
    requires i in t && r.Valid() && r.IsRoot() && At(v, t[i], r) == 0 && OnPath(r, d)
    ensures var t', g' := t[i := t[i][r.Root() := b]], Entered(Gave(g, sb, b, Owner(i, r)), Owner(i, r), b);
            && Wf(v1, sb, t', g'.reserved, g'.own) && Grown(v, t, g.own, v1, t', g'.own, i, d) && HeadKept(v, v1, sb)
            && Sorted(lh, g') && Listing(lh, g', sb, logSize) && Filed(g'.own, g'.blocks) && Stepped(t, g, t', g', i, d)
            && Tracked(g', sb) && Linked(g') && Posted(g') && At(v1, t'[i], r) == b != 0
  {
    hide Wf;
    hide Tracked;
    hide Linked;
    hide Posted;
    hide PostedBut;
    var o, g1 := Owner(i, r), Gave(g, sb, b, Owner(i, r));
    AllocRoot(v, v1, sb, t, g.reserved, g.own, i, r, b, d);
    EnterNew(t, g1, i, r, b, t[i][r.Root() := b], d);
    EnteredSorted(lh0, lh, g1, o, b, sb, logSize);
    SteppedGave(t, g, sb, i, r, b, d);
    SteppedTrans(t, g, t, g1, t[i := t[i][r.Root() := b]], Entered(g1, o, b), i, d);
    EnteredTracked(g, sb, b, o);
    PostedRoot(Entered(g1, o, b), o);
  }

  /** The same for an entry of index block p, which is still to be logged. */
  lemma FilledEntry(v: Disk, v1: Disk, v2: Disk, sb: Super, logSize: nat, t: Trees, g: Books, lh0: seq<nat>,
                    lh: seq<nat>,
                    i: nat, r: Slot, p: nat, b: Uint, d: Slot)
    requires var g1 := Gave(g, sb, b, Owner(i, r));
             Sorted(lh0, g1) && Listing(lh, g1, sb, logSize) && lh == Absorb(lh0, b) && Tracked(g1, sb)
    requires SetAside(v, v1, sb, t, g.reserved, g.own, b) && Filed(g.own, g.blocks) && Linked(g) && Posted(g)
    requires i in t && r.Valid() && !r.IsRoot() && At(v, t[i], r) == 0 && OnPath(r, d)
    requires p == At(v, t[i], r.Parent()) != 0 && p < |v1| && v2 == v1[p := PutWord(v1[p], r.Index(), b)]
    ensures var g' := Entered(Gave(g, sb, b, Owner(i, r)), Owner(i, r), b);
            && Wf(v2, sb, t, g'.reserved, g'.own) && Grown(v, t, g.own, v2, t, g'.own, i, d) && HeadKept(v, v2, sb)
            && Sorted(lh, g') && Listing(lh, g', sb, logSize) && Filed(g'.own, g'.blocks) && Stepped(t, g, t, g', i, d)
            && Tracked(g', sb) && Linked(g') && PostedBut(g', Owner(i, r)) && At(v2, t[i], r) == b != 0
  {
    hide Wf;
    hide Tracked;
    hide Linked;
    hide Posted;
    hide PostedBut;
    var o, g1 := Owner(i, r), Gave(g, sb, b, Owner(i, r));
    AllocChild(v, v1, v2, sb, t, g.reserved, g.own, i, r, p, b, d);
    EnterNew(t, g1, i, r, b, t[i], d);
    EnteredSorted(lh0, lh, g1, o, b, sb, logSize);
    assert t[i := t[i]] == t;
    SteppedGave(t, g, sb, i, r, b, d);
    SteppedTrans(t, g, t, g1, t, Entered(g1, o, b), i, d);
    EnteredTracked(g, sb, b, o);
  }

  /** An inode block can be logged; storing an inode in it keeps the trees. */
  lemma InodeLogged(v: Disk, sb: Super, t: Trees, g: Books, lh: seq<nat>, logSize: nat, i: nat, n: Inode)
    requires Wf(v, sb, t, g.reserved, g.own) && Sorted(lh, g) && i < sb.ninodes
    ensures InodeSector(i) < |v| && Wf(Stored(v, i, n), sb, t, g.reserved, g.own)
    ensures Loggable(InodeSector(i), sb, g.reserved)
    ensures var g', l := g.(others := g.others + {InodeSector(i)}), Absorb(lh, InodeSector(i));
            Listing(l, g, sb, logSize) ==> Sorted(l, g') && Listing(l, g', sb, logSize)
  {
    InodeBlockWrite(v, sb, t, g.reserved, g.own, i, PutImage(v[InodeSector(i)], Base(i), n, INODE_WORDS));
    hide Wf;
  }

  /** A tree block can be logged; logging it enters it under its owner. */
  lemma LoggedTree(v: Disk, sb: Super, logSize: nat, t: Trees, g: Books, lh: seq<nat>, i: nat, p: nat, d: Slot)
    requires Wf(v, sb, t, g.reserved, g.own) && Sorted(lh, g) && Filed(g.own, g.blocks) && Tracked(g, sb)
    requires i in t && p in g.own && g.own[p].inum == i
    requires g.own[p] in g.wrote || g.own[p] in g.filled || g.own[p] in Above(g.filled)
    ensures Loggable(p, sb, g.reserved) && Stepped(t, g, t, g, i, d)
    ensures var g' := Entered(g, g.own[p], p);
            && g' == g.(blocks := g'.blocks) && Filed(g'.own, g'.blocks) && Stepped(t, g, t, g', i, d)
            && Tracked(g', sb) && (Linked(g) ==> Linked(g')) && g.blocks.Keys + {g.own[p]} == g'.blocks.Keys
            && (Listing(Absorb(lh, p), g, sb, logSize) ==>
                Sorted(Absorb(lh, p), g') && Listing(Absorb(lh, p), g', sb, logSize))
  {
    hide Tracked;
    hide Linked;
    hide Above;
    hide Sorted;
    hide Listing;
    var o := g.own[p];
    if o in g.blocks {
      SameOwner(v, sb, t, g.reserved, g.own, p, g.blocks[o]);
    }
    if Listing(Absorb(lh, p), g, sb, logSize) {
      EnteredSorted(lh, Absorb(lh, p), g, o, p, sb, logSize);
    }
    assert g.own[p := o] == g.own;
    assert t[i := t[i]] == t;
    LoggedTracked(g, sb, o, p);
  }

  /** Storing the new size of inode i after a write. */
  lemma StoredWrite(v0: Disk, sb: Super, t0: Trees, g0: Books, m0: map<nat, Meta>, v: Disk, t: Trees, g: Books,
                    i: nat, n: Meta, off: nat, src: seq<Byte>)
    requires Wf(v0, sb, t0, g0.reserved, g0.own) && AllSynced(v0, sb, t0, m0) && Wf(v, sb, t, g.reserved, g.own)
    requires HeadKept(v0, v, sb)
    requires i in t0 && i in t && t == t0[i := t[i]] && Wrote(v0, t0, v, t, i, off, src)
    ensures InodeSector(i) < |v|
    ensures AllSynced(Stored(v, i, Inode(n, t[i])), sb, t, m0[i := n])
    ensures Wrote(v0, t0, Stored(v, i, Inode(n, t[i])), t, i, off, src)
  {
    StoreSynced(v0, v, sb, t0, m0, i, t[i], n);
    StoredElsewhere(v, i, Inode(n, t[i]), sb);
    WroteKept(v0, t0, v, sb, t, g.reserved, g.own, Stored(v, i, Inode(n, t[i])), i, off, src);
  }

  /** A write inside a file without holes: the trees are the same, so the inodes are still synced. */
  lemma SyncedWrite(v0: Disk, sb: Super, t0: Trees, g0: Books, m0: map<nat, Meta>, v: Disk, i: nat, n: nat)
    requires Wf(v0, sb, t0, g0.reserved, g0.own) && AllSynced(v0, sb, t0, m0) && AllBacked(v0, t0, m0) && i in t0
    requires n <= m0[i].size
    ensures Backed(v0, t0[i], n)
    ensures HeadKept(v0, v, sb) ==> AllSynced(v, sb, t0, m0)
  {
    if HeadKept(v0, v, sb) {
      SyncedKept(v0, v, sb, t0, m0);
    }
  }

  lemma OnlyMapsTrans(v0: Disk, v1: Disk, v2: Disk, sb: Super)
    requires OnlyMaps(v0, v1, sb) && OnlyMaps(v1, v2, sb)
    ensures OnlyMaps(v0, v2, sb)
  {
  }

  lemma TiersCleared(v: Disk, sb: Super, t: Trees, g: Books, i: nat)
    requires Wf(v, sb, t, g.reserved, g.own) && i in t
    ensures var own1 := g.own - FirstTier(g.own, i, NDIRECT);
            own1 - SecondTier(own1, i, 0) == g.own - UpperTiers(g.own, i)
    ensures var t1 := t[i := Cleared(t[i], NDIRECT)];
            t1[i := t1[i][NDIRECT := 0]] == t[i := Cleared(t[i], NDIRECT + 1)]
  {
    UpperTiersFreed(v, sb, t, g.reserved, g.own, i);
    assert Cleared(t[i], NDIRECT)[NDIRECT := 0] == Cleared(t[i], NDIRECT + 1);
  }

  /** The disk and the inodes after inode i was emptied and stored. */
  lemma EmptiedFile(v0: Disk, sb: Super, t0: Trees, g0: Books, m0: map<nat, Meta>, v: Disk, i: nat, a: Addrs, n: Meta)
    requires Wf(v0, sb, t0, g0.reserved, g0.own) && AllSynced(v0, sb, t0, m0) && AllBacked(v0, t0, m0)
    requires OnlyMaps(v0, v, sb)
    requires i in t0 && n.size == 0
    ensures InodeSector(i) < |v|
    ensures var v', t', m' := Stored(v, i, Inode(n, a)), t0[i := a], m0[i := n];
            AllSynced(v', sb, t', m') && AllBacked(v', t', m') && FilesOf(v', t', m') == FilesOf(v0, t0, m0)[i := []]
  {
    StoreSynced(v0, v, sb, t0, m0, i, a, n);
    StoredElsewhere(v, i, Inode(n, a), sb);
    EmptyBacked(v0, sb, t0, g0.reserved, g0.own, Stored(v, i, Inode(n, a)), m0, i, a, n);
  }

  /** Only sectors of the free map have joined the list. */
  ghost predicate MapsLogged(lh: seq<nat>, lh': seq<nat>, sb: Super)
  {
    forall x | x in lh' :: x in lh || BitmapSector(sb, 0) <= x < DataStart(sb)
  }

  lemma MapsLoggedRefl(lh: seq<nat>, sb: Super)
    ensures MapsLogged(lh, lh, sb)
  {
  }

  lemma MapsLoggedMore(l0: seq<nat>, l1: seq<nat>, x: nat, sb: Super)
    requires MapsLogged(l0, l1, sb)
    ensures MapsLogged(l0 + [x], l1, sb) && MapsLogged(l0 + [x], Absorb(l1, x), sb)
  {
  }

  lemma MapsLoggedTrans(l0: seq<nat>, l1: seq<nat>, l2: seq<nat>, sb: Super)
    requires MapsLogged(l0, l1, sb) && MapsLogged(l1, l2, sb)
    ensures MapsLogged(l0, l2, sb)
  {
  }

  /** balloc logs the free-map block and the block itself. */
  lemma RecordedMarked(v: Disk, lh: seq<nat>, sb: Super, b: nat)
    requires Sized(v, sb) && b < sb.size && !InUse(v, sb, b)
    ensures var v', l := Marked(v, sb, b)[b := ZeroBlock()], Absorb(lh, BitmapSector(sb, b));
            Recorded(v, lh, v', Absorb(l, b))
  {
    RecordedNone(v, lh);
    RecordedOne(v, lh, v, lh, BitmapSector(sb, b), Marked(v, sb, b)[BitmapSector(sb, b)]);
    RecordedOne(v, lh, Marked(v, sb, b), Absorb(lh, BitmapSector(sb, b)), b, ZeroBlock());
  }

  lemma BlankSynced(v: Disk, sb: Super, t: Trees, m: map<nat, Meta>)
    requires Sized(v, sb) && Blank(v, sb) && t.Keys == m.Keys
    requires forall i | i in t :: 0 <= i < sb.ninodes && t[i] == EmptyAddrs() && m[i] == EMPTY_META
    ensures AllSynced(v, sb, t, m) && AllBacked(v, t, m)
  {
    hide OnDisk;
    forall i | i in t ensures OnDisk(v, i, Inode(m[i], t[i])) {
      BlankInode(v, sb, i);
    }
  }

  class FileSystem {
    const sb: Super
    const logSize: nat
    const devReaders: set<nat>
    const devWriters: set<nat>
    // The disk, and what bread returns for each of its sectors.
    var disk: Disk
    var view: Disk
    // The in-memory inodes: their block numbers, and their other fields.
    var trees: Trees
    var meta: map<nat, Meta>
    var lh: seq<nat>
    ghost var g: Books

    ghost predicate Valid()
      reads this
    {
      && Wf(view, sb, trees, g.reserved, g.own)
      && trees.Keys == meta.Keys && (forall i | i in trees :: i < sb.ninodes)
    }

    /** The bytes of every file. */
    ghost function Contents(): (f: Files)
      reads this
      ensures f.Keys == trees.Keys * meta.Keys
    {
      FilesOf(view, trees, meta)
    }

    ghost predicate Logging()
      reads this
    {
      Listing(lh, g, sb, logSize) && Sorted(lh, g)
    }

    ghost predicate LogOk()
      reads this
    {
      Logging() && Filed(g.own, g.blocks) && Tracked(g, sb)
    }

    /** Every block handed out is in its slot, and what must be logged is; it fails only when the kernel has stopped. */
    ghost predicate Exact()
      reads this
    {
      Linked(g) && Posted(g)
    }

    ghost predicate Full()
      reads this
    {
      |lh| >= LOGSIZE || |lh| >= logSize - 1
    }

    /** The file system on an empty disk of which the first `used` blocks are marked. */
    constructor (sb: Super, logSize: nat, used: nat, readers: set<nat>, writers: set<nat>)
      requires DataStart(sb) <= used <= sb.size < TWO32 && used < BITS && DataStart(sb) + logSize <= sb.size
      ensures this.sb == sb && this.logSize == logSize && devReaders == readers && devWriters == writers
      ensures sb.ninodes < TWO32 && 1 < |view| && view[1] == SuperBlock(sb, logSize)
      ensures Consistent() && Idle() && g.reserved == UpTo(used) && g.own == map[]
      ensures forall b: nat {:trigger InUse(view, sb, b)} | b < sb.size :: InUse(view, sb, b) <==> b < used
      ensures forall i :: i in trees <==> 0 <= i < sb.ninodes
      ensures forall i | i in trees :: trees[i] == EmptyAddrs() && meta[i] == EMPTY_META
    {
      hide Wf;
      hide AllSynced;
      hide AllBacked;
      hide Tracked;
      hide Linked;
      hide Posted;
      hide OnDisk;
      hide Blank;
      hide SuperBlock;
      hide InUse;
      hide EmptyAddrs;
      var v := Mkfs(sb, logSize, used);
      var t: Trees := map i | i in UpTo(sb.ninodes) :: EmptyAddrs();
      var m := map i | i in UpTo(sb.ninodes) :: EMPTY_META;
      this.sb, this.logSize, devReaders, devWriters := sb, logSize, readers, writers;
      disk, view, trees, meta, lh := v, v, t, m, [];
      g := Opened(UpTo(used), map[]);
      OpenedTracked(UpTo(used), map[], sb);
      BlankWf(v, sb, t, used);
      BlankSynced(v, sb, t, m);
    }

    method LogWrite(sector: nat) returns (halt: Halt)
      requires Listing(lh, g, sb, logSize) && Loggable(sector, sb, g.reserved)
      modifies this`lh
      ensures halt == if |old(lh)| < LOGSIZE && |old(lh)| < logSize - 1 then Running else LogFull
      ensures lh == if halt.Running? then Absorb(old(lh), sector) else old(lh)
      ensures Listing(lh, g, sb, logSize)
    {
      var ok;
      ok, lh := Record(lh, logSize, sector);
      halt := if ok then Running else LogFull;
    }

    /** Finds the first free block, marks it, zeroes it; o is the slot it is for. */
    method Balloc(ghost o: Owner) returns (halt: Halt, b: Uint, ghost lh0: seq<nat>)
      requires Shape(view, sb, g.reserved) && Accounted(view, sb, g.reserved, g.own) && Logging()
      modifies this`view, this`lh, this`g
      ensures halt.Running? || halt.OutOfBlocks? || halt.LogFull?
      ensures Listing(lh, g, sb, logSize) && Sorted(lh0, g) && if halt.Running? then lh == Absorb(lh0, b) else lh == lh0
      ensures halt.OutOfBlocks? ==> view == old(view) && NoneFree(view, sb) && g == old(g)
      ensures !halt.OutOfBlocks? ==> FirstFit(old(view), sb, b)
      ensures halt.Running? ==>
                && view == Marked(old(view), sb, b)[b := ZeroBlock()]
                && g == Gave(old(g), sb, b, o) && Recorded(old(view), old(lh), view, lh)
      ensures halt.LogFull? ==> Full() && (g == old(g) || g == Gave(old(g), sb, b, o))
    {
      var found;
      found, b := FirstFree(view, sb);
      if !found {
        return OutOfBlocks, 0, lh;
      }
      RecordedMarked(view, lh, sb, b);
      view := Marked(view, sb, b);
      halt := LogWrite(BitmapSector(sb, b));
      lh0 := lh;
      if !halt.Running? {
        return;
      }
      g := Gave(g, sb, b, o);
      view := view[b := ZeroBlock()];
      halt := LogWrite(b);
    }

    /** balloc, with what it means for the trees: the new block is set aside. */
    method Fresh(ghost o: Owner) returns (halt: Halt, b: Uint, ghost lh0: seq<nat>)
      requires Valid() && LogOk() && Exact() && o !in g.base.Values && o !in g.filled
      modifies this`view, this`lh, this`g
      ensures halt.Running? || halt.OutOfBlocks? || halt.LogFull?
      ensures Listing(lh, g, sb, logSize) && Sorted(lh0, g) && if halt.Running? then lh == Absorb(lh0, b) else lh == lh0
      ensures Tracked(g, sb) && (g == old(g) || g == Gave(old(g), sb, b, o))
      ensures halt.Running? ==> |view| == |old(view)| && SetAside(old(view), view, sb, trees, g.reserved, g.own, b)
      ensures halt.Running? ==> g == Gave(old(g), sb, b, o) && Recorded(old(view), old(lh), view, lh)
      ensures halt.OutOfBlocks? ==> NoneFree(view, sb) && g == old(g) && |g.given| == |Pool(g, sb)|
      ensures halt.LogFull? ==> Full()
    {
      hide Tracked;
      hide Linked;
      hide Posted;
      hide Recorded;
      halt, b, lh0 := Balloc(o);
      if halt.OutOfBlocks? {
        NoneGiven(old(view), sb, old(g));
      } else {
        GaveTracked(old(view), sb, old(g), b, o);
      }
      if halt.Running? {
        assert SetAside(old(view), view, sb, trees, g.reserved, g.own, b) by {
          Reserve(old(view), sb, trees, g.reserved, g.own, b);
        }
      }
    }

    /** log_write of a block of inode i's tree. */
    method LogTreeBlock(i: nat, p: nat, ghost d: Slot) returns (halt: Halt)
      requires Valid() && LogOk() && i in trees && p in g.own && g.own[p].inum == i
      requires g.own[p] in g.wrote || g.own[p] in g.filled || g.own[p] in Above(g.filled)
      modifies this`lh, this`g
      ensures Valid() && LogOk() && Stepped(trees, old(g), trees, g, i, d)
      ensures g == old(g).(blocks := g.blocks) && (Linked(old(g)) ==> Linked(g))
      ensures halt.Running? ==> g.blocks.Keys == old(g).blocks.Keys + {g.own[p]} && lh == Absorb(old(lh), p)
      ensures halt.Running? || halt.LogFull?
      ensures halt.LogFull? ==> Full()
    {
      hide Wf;
      hide Listing;
      hide Sorted;
      hide Filed;
      hide Stepped;
      hide Absorb;
      hide Entered;
      hide Tracked;
      hide Linked;
      LoggedTree(view, sb, logSize, trees, g, lh, i, p, d);
      halt := LogWrite(p);
      if halt.Running? {
        g := Entered(g, g.own[p], p);
      }
    }

    /** An entry of `ip->addrs`, filled by balloc when it is empty. */
    method RootEntry(i: nat, r: Slot, ghost d: Slot) returns (halt: Halt, addr: Uint)
      requires Valid() && LogOk() && Exact() && i in trees && r.Valid() && r.IsRoot() && OnPath(r, d)
      modifies this`view, this`trees, this`lh, this`g
      ensures LogOk() && Stepped(old(trees), old(g), trees, g, i, d)
      ensures halt.Running? ==>
                Valid() && Exact() && g.reserved == old(g).reserved && addr == At(view, trees[i], r) != 0
      ensures halt.Running? ==>
                && Grown(old(view), old(trees), old(g).own, view, trees, g.own, i, d)
                && HeadKept(old(view), view, sb) && Recorded(old(view), old(lh), view, lh)
      ensures old(At(view, trees[i], r)) != 0 ==>
                halt.Running? && view == old(view) && trees == old(trees) && lh == old(lh) && g == old(g)
      ensures halt.Running? || halt.OutOfBlocks? || halt.LogFull?
      ensures halt.OutOfBlocks? ==> NoneFree(view, sb) && Starved(g, sb, i, PathSet(d))
      ensures halt.LogFull? ==> Full()
    {
      hide Wf;
      hide Grown;
      hide HeadKept;
      hide Listing;
      hide Sorted;
      hide Filed;
      hide Stepped;
      hide SetAside;
      hide NoneFree;
      hide FirstFit;
      hide Absorb;
      hide Tracked;
      hide Linked;
      hide Posted;
      hide PostedBut;
      hide Pool;
      hide Recorded;
      RecordedNone(view, lh);
      addr := trees[i][r.Root()];
      if addr != 0 {
        Still(view, sb, trees, g, i, d);
        return Running, addr;
      }
      EmptyUnfilled(view, sb, trees, g, i, r);
      ghost var lh0;
      halt, addr, lh0 := Fresh(Owner(i, r));
      SteppedGave(trees, old(g), sb, i, r, addr, d);
      if halt.Running? {
        FilledRoot(old(view), view, sb, logSize, trees, old(g), lh0, lh, i, r, addr, d);
        trees := trees[i := trees[i][r.Root() := addr]];
        g := Entered(g, Owner(i, r), addr);
      } else {
        FiledGave(old(g), g, sb, addr, Owner(i, r));
      }
    }

    /** A fresh block in an empty entry of index block p, before p is logged. */
    method FillEntry(i: nat, r: Slot, p: Uint, ghost d: Slot) returns (halt: Halt, addr: Uint)
      requires Valid() && LogOk() && Exact() && i in trees && r.Valid() && !r.IsRoot() && OnPath(r, d)
      requires p == At(view, trees[i], r.Parent()) != 0 && p < |view| && At(view, trees[i], r) == 0
      modifies this`view, this`lh, this`g
      ensures LogOk() && Stepped(old(trees), old(g), trees, g, i, d)
      ensures halt.Running? ==> Valid() && g.reserved == old(g).reserved && addr == At(view, trees[i], r) != 0
      ensures halt.Running? ==> Linked(g) && PostedBut(g, Owner(i, r)) && Owner(i, r.Parent()) in Above(g.filled)
      ensures halt.Running? ==>
                && Grown(old(view), old(trees), old(g).own, view, trees, g.own, i, d)
                && HeadKept(old(view), view, sb) && Recorded(old(view), old(lh), view, Absorb(lh, p))
      ensures halt.Running? || halt.OutOfBlocks? || halt.LogFull?
      ensures halt.OutOfBlocks? ==> NoneFree(view, sb) && Starved(g, sb, i, PathSet(d))
      ensures halt.LogFull? ==> Full()
    {
      hide Wf;
      hide Grown;
      hide HeadKept;
      hide Listing;
      hide Sorted;
      hide Filed;
      hide Stepped;
      hide SetAside;
      hide NoneFree;
      hide FirstFit;
      hide Absorb;
      hide Tracked;
      hide Linked;
      hide Posted;
      hide PostedBut;
      hide Pool;
      hide Recorded;
      EmptyUnfilled(view, sb, trees, g, i, r);
      ghost var lh0;
      halt, addr, lh0 := Fresh(Owner(i, r));
      SteppedGave(trees, old(g), sb, i, r, addr, d);
      if halt.Running? {
        ghost var v1 := view;
        RecordedOne(old(view), old(lh), view, lh, p, PutWord(view[p], r.Index(), addr));
        view := view[p := PutWord(view[p], r.Index(), addr)];
        FilledEntry(old(view), v1, view, sb, logSize, trees, old(g), lh0, lh, i, r, p, addr, d);
        EnteredAbove(old(g), sb, addr, Owner(i, r));
        g := Entered(g, Owner(i, r), addr);
      } else {
        FiledGave(old(g), g, sb, addr, Owner(i, r));
      }
    }

    /** An entry of index block p, filled by balloc when it is empty. */
    method IndexEntry(i: nat, r: Slot, p: Uint, ghost d: Slot) returns (halt: Halt, addr: Uint)
      requires Valid() && LogOk() && Exact() && i in trees && r.Valid() && !r.IsRoot() && OnPath(r, d)
      requires p == At(view, trees[i], r.Parent()) != 0
      modifies this`view, this`lh, this`g
      ensures LogOk() && Stepped(old(trees), old(g), trees, g, i, d)
      ensures halt.Running? ==>
                Valid() && Exact() && g.reserved == old(g).reserved && addr == At(view, trees[i], r) != 0
      ensures halt.Running? ==>
                && Grown(old(view), old(trees), old(g).own, view, trees, g.own, i, d)
                && HeadKept(old(view), view, sb) && Recorded(old(view), old(lh), view, lh)
      ensures old(At(view, trees[i], r)) != 0 ==>
                halt.Running? && view == old(view) && trees == old(trees) && lh == old(lh) && g == old(g)
      ensures halt.Running? || halt.OutOfBlocks? || halt.LogFull?
      ensures halt.OutOfBlocks? ==> NoneFree(view, sb) && Starved(g, sb, i, PathSet(d))
      ensures halt.LogFull? ==> Full()
    {
      hide Wf;
      hide Grown;
      hide HeadKept;
      hide Listing;
      hide Sorted;
      hide Filed;
      hide Stepped;
      hide NoneFree;
      hide Tracked;
      hide Linked;
      hide Posted;
      hide PostedBut;
      hide Starved;
      hide Above;
      hide Recorded;
      hide Absorb;
      RecordedNone(view, lh);
      IndexOwned(view, sb, trees, g.reserved, g.own, i, r.Parent());
      addr := Word(view[p], r.Index());
      if addr != 0 {
        Still(view, sb, trees, g, i, d);
        return Running, addr;
      }
      halt, addr := FillEntry(i, r, p, d);
      if halt.Running? {
        ghost var g1 := g;
        SteppedOwns(trees, old(g), trees, g, i, d, p);
        halt := LogTreeBlock(i, p, d);
        SteppedTrans(trees, old(g), trees, g1, trees, g, i, d);
        if halt.Running? {
          PostedParent(g1, g, Owner(i, r));
        }
      }
    }

    /** Growth after growth on the same path. */
    lemma Then(v0: Disk, t0: Trees, g0: Books, lh0: seq<nat>, v1: Disk, t1: Trees, g1: Books, lh1: seq<nat>, i: nat,
               d: Slot, running: bool)
      requires Stepped(t0, g0, t1, g1, i, d) && Stepped(t1, g1, trees, g, i, d)
      requires Grown(v0, t0, g0.own, v1, t1, g1.own, i, d) && HeadKept(v0, v1, sb)
      requires Recorded(v0, lh0, v1, lh1)
      requires running ==> Grown(v1, t1, g1.own, view, trees, g.own, i, d) && HeadKept(v1, view, sb)
      requires running ==> Recorded(v1, lh1, view, lh)
      ensures Stepped(t0, g0, trees, g, i, d)
      ensures running ==> Grown(v0, t0, g0.own, view, trees, g.own, i, d) && HeadKept(v0, view, sb)
      ensures running ==> Recorded(v0, lh0, view, lh)
    {
      SteppedTrans(t0, g0, t1, g1, trees, g, i, d);
      if running {
        GrownTrans(v0, t0, g0.own, v1, t1, g1.own, view, trees, g.own, i, d);
        RecordedThen(v0, lh0, v1, lh1, view, lh);
      }
    }

    /** bmap's second tier: the indirect block, then its entry j. */
    method Indirect(i: nat, j: nat) returns (halt: Halt, addr: Uint)
      requires Valid() && LogOk() && Exact() && i in trees && j < NINDIRECT
      modifies this`view, this`trees, this`lh, this`g
      ensures LogOk() && Stepped(old(trees), old(g), trees, g, i, IndData(j))
      ensures halt.Running? ==>
                Valid() && Exact() && g.reserved == old(g).reserved && addr == At(view, trees[i], IndData(j)) != 0
      ensures halt.Running? ==>
                && Grown(old(view), old(trees), old(g).own, view, trees, g.own, i, IndData(j))
                && HeadKept(old(view), view, sb) && Recorded(old(view), old(lh), view, lh)
      ensures old(At(view, trees[i], IndData(j))) != 0 ==>
                halt.Running? && view == old(view) && trees == old(trees) && lh == old(lh) && g == old(g)
      ensures halt.Running? || halt.OutOfBlocks? || halt.LogFull?
      ensures halt.OutOfBlocks? ==> NoneFree(view, sb) && Starved(g, sb, i, PathSet(IndData(j)))
      ensures halt.LogFull? ==> Full()
    {
      hide Tracked;
      hide Linked;
      hide Posted;
      hide Starved;
      hide PathSet;
      hide Wf;
      hide Grown;
      hide HeadKept;
      hide Listing;
      hide Sorted;
      hide Filed;
      hide Stepped;
      hide NoneFree;
      hide FirstFit;
      hide Recorded;
      ghost var d := IndData(j);
      halt, addr := RootEntry(i, Ind, d);
      if halt.Running? {
        ghost var v1, t1, g1, lh1 := view, trees, g, lh;
        halt, addr := IndexEntry(i, IndData(j), addr, d);
        Then(old(view), old(trees), old(g), old(lh), v1, t1, g1, lh1, i, d, halt.Running?);
      }
    }

    /** bmap's third tier: the doubly indirect block, its entry j, and entry k of that block. */
    method DoublyIndirect(i: nat, j: nat, k: nat) returns (halt: Halt, addr: Uint)
      requires Valid() && LogOk() && Exact() && i in trees && j < NINDIRECT && k < NINDIRECT
      modifies this`view, this`trees, this`lh, this`g
      ensures LogOk() && Stepped(old(trees), old(g), trees, g, i, DblData(j, k))
      ensures halt.Running? ==>
                Valid() && Exact() && g.reserved == old(g).reserved && addr == At(view, trees[i], DblData(j, k)) != 0
      ensures halt.Running? ==>
                && Grown(old(view), old(trees), old(g).own, view, trees, g.own, i, DblData(j, k))
                && HeadKept(old(view), view, sb) && Recorded(old(view), old(lh), view, lh)
      ensures old(At(view, trees[i], DblData(j, k))) != 0 ==>
                halt.Running? && view == old(view) && trees == old(trees) && lh == old(lh) && g == old(g)
      ensures halt.Running? || halt.OutOfBlocks? || halt.LogFull?
      ensures halt.OutOfBlocks? ==> NoneFree(view, sb) && Starved(g, sb, i, PathSet(DblData(j, k)))
      ensures halt.LogFull? ==> Full()
    {
      hide Tracked;
      hide Linked;
      hide Posted;
      hide Starved;
      hide PathSet;
      hide Wf;
      hide Grown;
      hide HeadKept;
      hide Listing;
      hide Sorted;
      hide Filed;
      hide Stepped;
      hide NoneFree;
      hide FirstFit;
      hide Recorded;
      ghost var d := DblData(j, k);
      ParentPresent(view, trees[i], d);
      ParentPresent(view, trees[i], DblMid(j));
      ParentOnPath(d, d);
      ParentOnPath(DblMid(j), d);
      halt, addr := RootEntry(i, Dbl, d);
      if halt.Running? {
        ghost var v1, t1, g1, lh1 := view, trees, g, lh;
        halt, addr := IndexEntry(i, DblMid(j), addr, d);
        Then(old(view), old(trees), old(g), old(lh), v1, t1, g1, lh1, i, d, halt.Running?);
        if halt.Running? {
          ghost var v2, t2, g2, lh2 := view, trees, g, lh;
          halt, addr := IndexEntry(i, DblData(j, k), addr, d);
          Then(old(view), old(trees), old(g), old(lh), v2, t2, g2, lh2, i, d, halt.Running?);
        }
      }
    }

    /** The disk block of file block bn, allocated with the index blocks above it where missing. */
    method Bmap(i: nat, bn: nat) returns (halt: Halt, addr: Uint)
      requires Valid() && LogOk() && Exact() && i in trees
      modifies this`view, this`trees, this`lh, this`g
      ensures halt.OutOfRange? <==> bn >= MAXFILE
      ensures bn >= MAXFILE ==> unchanged(this)
      ensures bn < MAXFILE ==> LogOk() && Stepped(old(trees), old(g), trees, g, i, DataSlot(bn))
      ensures halt.Running? ==>
                Valid() && Exact() && g.reserved == old(g).reserved && addr == At(view, trees[i], DataSlot(bn)) != 0
      ensures halt.Running? ==>
                && Grown(old(view), old(trees), old(g).own, view, trees, g.own, i, DataSlot(bn))
                && HeadKept(old(view), view, sb) && Recorded(old(view), old(lh), view, lh)
      ensures bn < MAXFILE && old(At(view, trees[i], DataSlot(bn))) != 0 ==>
                halt.Running? && view == old(view) && trees == old(trees) && lh == old(lh) && g == old(g)
      ensures halt.Running? || halt.OutOfBlocks? || halt.OutOfRange? || halt.LogFull?
      ensures halt.OutOfBlocks? ==> NoneFree(view, sb) && bn < MAXFILE && Starved(g, sb, i, PathSet(DataSlot(bn)))
      ensures halt.LogFull? ==> Full()
    {
      hide Tracked;
      hide Linked;
      hide Posted;
      hide Starved;
      hide PathSet;
      hide Wf;
      hide Grown;
      hide HeadKept;
      hide Listing;
      hide Sorted;
      hide Filed;
      hide Stepped;
      hide NoneFree;
      hide FirstFit;
      hide Recorded;
      if bn < NDIRECT {
        halt, addr := RootEntry(i, Direct(bn), Direct(bn));
      } else if bn - NDIRECT < NINDIRECT {
        halt, addr := Indirect(i, bn - NDIRECT);
      } else if bn < MAXFILE {
        var k := bn - NDIRECT - NINDIRECT;
        assert DataSlot(bn) == DblData(k / NINDIRECT, k % NINDIRECT);
        halt, addr := DoublyIndirect(i, k / NINDIRECT, k % NINDIRECT);
      } else {
        halt, addr := OutOfRange, 0;
      }
    }

    /** Clears the bit of block b, which must be set. */
    method Bfree(b: nat) returns (halt: Halt)
      requires Sized(view, sb) && b < sb.size && Logging()
      modifies this`view, this`lh, this`g
      ensures Logging() && old(g).others <= g.others && g == old(g).(others := g.others)
      ensures halt.FreeingFreeBlock? <==> !InUse(old(view), sb, b)
      ensures halt.Running? ==> view == Unmarked(old(view), sb, b) && Recorded(old(view), old(lh), view, lh)
      ensures halt.Running? || halt.LogFull? || halt.FreeingFreeBlock?
      ensures MapsLogged(old(lh), lh, sb) && (halt.LogFull? ==> Full())
    {
      if !Bit(view[BitmapSector(sb, b)], b % BPB) {
        return FreeingFreeBlock;
      }
      RecordedFirst(view, lh, BitmapSector(sb, b), Unmarked(view, sb, b)[BitmapSector(sb, b)]);
      view := Unmarked(view, sb, b);
      halt := LogWrite(BitmapSector(sb, b));
      if halt.Running? {
        g := g.(others := g.others + {BitmapSector(sb, b)});
      }
    }

    /** Copies inode i to its inode block. */
    method Iupdate(i: nat) returns (halt: Halt)
      requires Valid() && i in trees && Logging()
      modifies this`view, this`lh, this`g
      ensures InodeSector(i) < |old(view)|
      ensures Valid() && view == Stored(old(view), i, Inode(meta[i], trees[i]))
      ensures g == if halt.Running? then old(g).(others := old(g).others + {InodeSector(i)}) else old(g)
      ensures Logging()
      ensures halt == if |old(lh)| < LOGSIZE && |old(lh)| < logSize - 1 then Running else LogFull
      ensures lh == if halt.Running? then Absorb(old(lh), InodeSector(i)) else old(lh)
      ensures halt.Running? ==> Recorded(old(view), old(lh), view, lh)
      ensures old(LogOk() && Exact()) ==> LogOk() && Exact()
      ensures halt.LogFull? ==> Full()
    {
      hide Wf;
      hide Listing;
      hide Sorted;
      hide Absorb;
      hide Filed;
      hide Tracked;
      hide Linked;
      hide Posted;
      if LogOk() {
        TrackedOthers(g, sb, g.others + {InodeSector(i)});
      }
      InodeLogged(view, sb, trees, g, lh, logSize, i, Inode(meta[i], trees[i]));
      hide Recorded;
      RecordedFirst(view, lh, InodeSector(i), Stored(view, i, Inode(meta[i], trees[i]))[InodeSector(i)]);
      view := Stored(view, i, Inode(meta[i], trees[i]));
      halt := LogWrite(InodeSector(i));
      if halt.Running? {
        g := g.(others := g.others + {InodeSector(i)});
      }
    }

    /** One turn of itrunc's first loop. */
    method TruncEntry(i: nat, k: nat) returns (halt: Halt)
      requires Valid() && i in trees && k < NDIRECT && Logging()
      modifies this`view, this`trees, this`lh, this`g
      ensures Logging() && MapsLogged(old(lh), lh, sb)
      ensures halt.Running? || (halt.LogFull? && Full())
      ensures halt.Running? ==>
                && Valid() && OnlyMaps(old(view), view, sb) && g.reserved == old(g).reserved
                && Recorded(old(view), old(lh), view, lh)
                && trees == old(trees)[i := old(trees)[i][k := 0]]
                && g.own == old(g).own - Entry(old(g).own, i, k)
    {
      hide MapsLogged;
      hide Recorded;
      MapsLoggedRefl(lh, sb);
      RecordedNone(view, lh);
      var b := trees[i][k];
      if b == 0 {
        NoEntry(view, sb, trees, g.reserved, g.own, i, k);
        return Running;
      }
      UnlinkDirect(view, sb, trees, g.reserved, g.own, i, k);
      OneEntry(view, sb, trees, g.reserved, g.own, i, k);
      FreeAside(view, sb, trees[i := trees[i][k := 0]], g.reserved, g.own - {b}, b);
      halt := Bfree(b);
      if halt.Running? {
        trees := trees[i := trees[i][k := 0]];
        g := g.(own := g.own - {b});
      }
    }

    /** itrunc's first loop: the direct blocks. */
    method TruncDirect(i: nat) returns (halt: Halt)
      requires Valid() && i in trees && Logging()
      modifies this`view, this`trees, this`lh, this`g
      ensures Logging() && MapsLogged(old(lh), lh, sb)
      ensures halt.Running? || (halt.LogFull? && Full())
      ensures halt.Running? ==>
                && Valid() && OnlyMaps(old(view), view, sb) && g.reserved == old(g).reserved
                && Recorded(old(view), old(lh), view, lh)
                && trees == old(trees)[i := Cleared(old(trees)[i], NDIRECT)]
                && g.own == old(g).own - FirstTier(old(g).own, i, NDIRECT)
    {
      hide MapsLogged;
      hide Recorded;
      MapsLoggedRefl(lh, sb);
      RecordedNone(view, lh);
      var k := 0;
      ghost var a := trees[i];
      assert Cleared(a, 0) == a && FirstTier(g.own, i, 0) == {};
      while k < NDIRECT
        invariant 0 <= k <= NDIRECT
        invariant Valid() && OnlyMaps(old(view), view, sb) && g.reserved == old(g).reserved
        invariant trees == old(trees)[i := Cleared(a, k)]
        invariant g.own == old(g).own - FirstTier(old(g).own, i, k)
        invariant Logging() && MapsLogged(old(lh), lh, sb) && Recorded(old(view), old(lh), view, lh)
      {
        ghost var v1, lh1 := view, lh;
        halt := TruncEntry(i, k);
        MapsLoggedTrans(old(lh), lh1, lh, sb);
        if !halt.Running? {
          return;
        }
        RecordedThen(old(view), old(lh), v1, lh1, view, lh);
        TierStep(old(g).own, i, k);
        assert Cleared(a, k)[k := 0] == Cleared(a, k + 1);
        k := k + 1;
      }
      halt := Running;
    }

    /** bfree of one of the blocks held aside. */
    method FreeHeld(b: nat, ghost t: Trees, ghost own: map<nat, Owner>, ghost held: set<nat>) returns (halt: Halt)
      requires Wf(view, sb, t, g.reserved + held, own) && Logging()
      requires b in held && b !in g.reserved && DataStart(sb) <= b < sb.size
      modifies this`view, this`lh, this`g
      ensures Logging() && g == old(g).(others := g.others) && MapsLogged(old(lh), lh, sb)
      ensures halt.Running? || (halt.LogFull? && Full())
      ensures halt.Running? ==> Wf(view, sb, t, g.reserved + (held - {b}), own) && OnlyMaps(old(view), view, sb)
      ensures halt.Running? ==> Recorded(old(view), old(lh), view, lh)
    {
      hide Recorded;
      assert g.reserved + held == g.reserved + (held - {b}) + {b};
      FreeAside(view, sb, t, g.reserved + (held - {b}), own, b);
      halt := Bfree(b);
    }

    /**
    itrunc's second loop: the blocks named in the indirect block. The trees (t, own) are
    proved without the second tier from the start; what of it is not yet freed is held aside.
    */
    method TruncIndirectEntries(i: nat, ghost t: Trees, ghost own: map<nat, Owner>) returns (halt: Halt)
      requires Valid() && i in trees && trees[i][NDIRECT] != 0 && Logging()
      requires Wf(view, sb, t, g.reserved + SecondTier(g.own, i, 0), own)
      modifies this`view, this`lh, this`g
      ensures Logging() && g == old(g).(others := g.others) && MapsLogged(old(lh), lh, sb)
      ensures halt.Running? || (halt.LogFull? && Full())
      ensures halt.Running? ==>
                Wf(view, sb, t, g.reserved + SecondTier(g.own, i, NINDIRECT), own) && OnlyMaps(old(view), view, sb)
      ensures halt.Running? ==> Recorded(old(view), old(lh), view, lh)
    {
      hide MapsLogged;
      hide Listing;
      hide Sorted;
      hide Wf;
      hide SecondTier;
      MapsLoggedRefl(lh, sb);
      IndexOwned(view, sb, trees, g.reserved, g.own, i, Ind);
      var a := view[trees[i][NDIRECT]];
      var j := 0;
      while j < NINDIRECT
        invariant 0 <= j <= NINDIRECT
        invariant Wf(view, sb, t, g.reserved + SecondTier(g.own, i, j), own)
        invariant OnlyMaps(old(view), view, sb)
        invariant g == old(g).(others := g.others)
        invariant Logging() && MapsLogged(old(lh), lh, sb) && Recorded(old(view), old(lh), view, lh)
      {
        SecondTierStep(old(view), sb, trees, g.reserved, g.own, i, j);
        if Word(a, j) != 0 {
          ghost var v1, lh1 := view, lh;
          halt := FreeHeld(Word(a, j), t, own, SecondTier(g.own, i, j));
          MapsLoggedTrans(old(lh), lh1, lh, sb);
          if !halt.Running? {
            return;
          }
          RecordedThen(old(view), old(lh), v1, lh1, view, lh);
        }
        j := j + 1;
      }
      halt := Running;
    }

    /** itrunc's second part: the blocks named in the indirect block, then that block. */
    method TruncIndirect(i: nat) returns (halt: Halt)
      requires Valid() && i in trees && Logging()
      modifies this`view, this`trees, this`lh, this`g
      ensures Logging() && MapsLogged(old(lh), lh, sb)
      ensures halt.Running? || (halt.LogFull? && Full())
      ensures halt.Running? ==>
                && Valid() && OnlyMaps(old(view), view, sb) && g.reserved == old(g).reserved
                && Recorded(old(view), old(lh), view, lh)
                && trees == old(trees)[i := old(trees)[i][NDIRECT := 0]]
                && g.own == old(g).own - SecondTier(old(g).own, i, 0)
    {
      hide Wf;
      hide MapsLogged;
      hide Recorded;
      MapsLoggedRefl(lh, sb);
      RecordedNone(view, lh);
      ghost var t := trees[i := trees[i][NDIRECT := 0]];
      ghost var own := g.own - SecondTier(g.own, i, 0);
      var p := trees[i][NDIRECT];
      if p == 0 {
        NoSecondTier(view, sb, trees, g.reserved, g.own, i);
        return Running;
      }
      UnlinkSecondTier(view, sb, trees, g.reserved, g.own, i);
      SecondTierEnd(view, sb, trees, g.reserved, g.own, i);
      halt := TruncIndirectEntries(i, t, own);
      if halt.Running? {
        ghost var v1, lh1 := view, lh;
        halt := FreeHeld(p, t, own, {p});
        MapsLoggedTrans(old(lh), lh1, lh, sb);
        if halt.Running? {
          RecordedThen(old(view), old(lh), v1, lh1, view, lh);
          trees := trees[i := trees[i][NDIRECT := 0]];
          assert g.reserved + ({p} - {p}) == g.reserved;
          g := g.(own := own);
        }
      }
    }

    /** What holds between operations. */
    ghost predicate Consistent()
      reads this
    {
      && Valid() && LogOk() && Exact() && AllBacked(view, trees, meta) && AllSynced(view, sb, trees, meta)
      && DataStart(sb) + logSize <= sb.size && Recorded(disk, [], view, lh)
    }

    /** itrunc's two loops. */
    method TruncBlocks(i: nat) returns (halt: Halt)
      requires Valid() && LogOk() && i in trees
      modifies this`view, this`trees, this`lh, this`g
      ensures Listing(lh, g, sb, logSize) && MapsLogged(old(lh), lh, sb)
      ensures halt.Running? || (halt.LogFull? && Full())
      ensures halt.Running? ==>
                && Valid() && LogOk() && Exact()
                && OnlyMaps(old(view), view, sb) && Recorded(old(view), old(lh), view, lh)
                && trees == old(trees)[i := Cleared(old(trees)[i], NDIRECT + 1)]
                && g.reserved == old(g).reserved && g.own == old(g).own - UpperTiers(old(g).own, i)
    {
      hide Wf;
      hide Listing;
      hide Sorted;
      hide OnlyMaps;
      hide Cleared;
      hide Tracked;
      hide Linked;
      hide Posted;
      hide MapsLogged;
      hide Recorded;
      TiersCleared(view, sb, trees, g, i);
      halt := TruncDirect(i);
      if !halt.Running? {
        return;
      }
      ghost var v1, lh1 := view, lh;
      halt := TruncIndirect(i);
      MapsLoggedTrans(old(lh), lh1, lh, sb);
      if !halt.Running? {
        return;
      }
      OnlyMapsTrans(old(view), v1, view, sb);
      RecordedThen(old(view), old(lh), v1, lh1, view, lh);
      BlocksMoved(lh, g, sb, logSize);
      g := Shelved(g);
    }

    /** Frees the direct blocks and the second tier of inode i, and empties the file. */
    method Itrunc(i: nat) returns (halt: Halt)
      requires Consistent() && i in trees
      modifies this`view, this`trees, this`meta, this`lh, this`g
      ensures halt.Running? || (halt.LogFull? && Full())
      ensures Listing(lh, g, sb, logSize) && MapsLogged(old(lh) + [InodeSector(i)], lh, sb)
      ensures halt.Running? ==>
                && Consistent()
                && trees == old(trees)[i := Cleared(old(trees)[i], NDIRECT + 1)]
                && meta == old(meta)[i := old(meta)[i].(size := 0)]
                && g.reserved == old(g).reserved && g.own == old(g).own - UpperTiers(old(g).own, i)
                && Contents() == old(Contents())[i := []]
    {
      hide Wf;
      hide Listing;
      hide Sorted;
      hide OnlyMaps;
      hide Cleared;
      hide Filed;
      hide Tracked;
      hide Linked;
      hide Posted;
      hide AllSynced;
      hide AllBacked;
      hide FilesOf;
      hide MapsLogged;
      hide Recorded;
      halt := TruncBlocks(i);
      MapsLoggedMore(old(lh), lh, InodeSector(i), sb);
      if !halt.Running? {
        return;
      }
      ghost var v1, lh1 := view, lh;
      RecordedThen(disk, [], old(view), old(lh), view, lh);
      meta := meta[i := meta[i].(size := 0)];
      EmptiedFile(old(view), sb, old(trees), old(g), old(meta), view, i, trees[i], meta[i]);
      halt := Iupdate(i);
      if halt.Running? {
        RecordedThen(disk, [], v1, lh1, view, lh);
      }
    }

    /** Copies a chunk into the block bmap gave, and logs it. */
    method PatchBlock(i: nat, off: nat, chunk: seq<Byte>, addr: Uint) returns (halt: Halt)
      requires Valid() && LogOk() && Exact() && i in trees
      requires off / BSIZE < MAXFILE && off % BSIZE + |chunk| <= BSIZE
      requires addr == At(view, trees[i], DataSlot(off / BSIZE)) != 0
      modifies this`view, this`lh, this`g
      ensures halt.Running? || halt.LogFull?
      ensures LogOk() && LogSpan(old(g), g, i, off / BSIZE, off / BSIZE + 1)
      ensures Valid() && g.reserved == old(g).reserved && HeadKept(old(view), view, sb)
      ensures Wrote(old(view), trees, view, trees, i, off, chunk)
      ensures halt.Running? ==> Exact() && old(g).wrote <= g.wrote && Owner(i, DataSlot(off / BSIZE)) in g.wrote
      ensures halt.Running? ==> Recorded(old(view), old(lh), view, lh)
      ensures halt.LogFull? ==> Full()
    {
      hide Wf;
      hide Listing;
      hide Sorted;
      hide Filed;
      hide Stepped;
      hide LogSpan;
      hide HeadKept;
      hide Wrote;
      hide Tracked;
      hide Linked;
      hide Posted;
      hide Above;
      IndexOwned(view, sb, trees, g.reserved, g.own, i, DataSlot(off / BSIZE));
      hide Recorded;
      hide Absorb;
      RecordedFirst(view, lh, addr, Patch(view[addr], off % BSIZE, chunk));
      view := view[addr := Patch(view[addr], off % BSIZE, chunk)];
      PatchData(old(view), sb, trees, g.reserved, g.own, view, i, off, chunk, addr);
      ghost var o := Owner(i, DataSlot(off / BSIZE));
      TrackedWrote(lh, g, sb, logSize, o);
      g := g.(wrote := g.wrote + {o});
      ghost var g1 := g;
      halt := LogTreeBlock(i, addr, DataSlot(off / BSIZE));
      PatchSpan(old(g), g1, g, trees, i, off / BSIZE, halt.Running?);
    }

    /** One turn of writei's loop: the part of the source that lies in one file block. */
    method WriteBlock(i: nat, off: nat, chunk: seq<Byte>) returns (halt: Halt)
      requires Valid() && LogOk() && Exact() && i in trees
      requires off / BSIZE < MAXFILE && off % BSIZE + |chunk| <= BSIZE
      modifies this`view, this`trees, this`lh, this`g
      ensures halt.Running? || halt.OutOfBlocks? || halt.LogFull?
      ensures LogOk() && LogSpan(old(g), g, i, off / BSIZE, off / BSIZE + 1)
      ensures halt.Running? ==>
                && Valid() && g.reserved == old(g).reserved && HeadKept(old(view), view, sb)
                && trees.Keys == old(trees).Keys && trees == old(trees)[i := trees[i]]
                && Wrote(old(view), old(trees), view, trees, i, off, chunk)
      ensures halt.Running? && HasByte(old(view), old(trees)[i], off) ==> trees == old(trees)
      ensures halt.OutOfBlocks? ==> NoneFree(view, sb) && Starved(g, sb, i, SpanSet(off / BSIZE, off / BSIZE + 1))
      ensures halt.Running? ==> Exact() && old(g).wrote <= g.wrote && Owner(i, DataSlot(off / BSIZE)) in g.wrote
      ensures halt.Running? ==> Recorded(old(view), old(lh), view, lh)
      ensures halt.LogFull? ==> Full()
    {
      hide Wf;
      hide Listing;
      hide Sorted;
      hide Filed;
      hide Stepped;
      hide LogSpan;
      hide HeadKept;
      hide Wrote;
      hide Grown;
      hide NoneFree;
      hide FirstFit;
      hide Tracked;
      hide Linked;
      hide Posted;
      hide Starved;
      hide SpanSet;
      hide PathSet;
      hide Recorded;
      var addr;
      halt, addr := Bmap(i, off / BSIZE);
      SteppedSpan(old(trees), old(g), trees, g, i, off / BSIZE);
      if !halt.Running? {
        if halt.OutOfBlocks? {
          StarvedPath(g, sb, i, off / BSIZE);
        }
        return;
      }
      SteppedWrote(old(trees), old(g), trees, g, i, DataSlot(off / BSIZE));
      ghost var v1, g1, lh1 := view, g, lh;
      GrownWrote(old(view), sb, old(trees), old(g).reserved, old(g).own, view, trees, g.own, i, DataSlot(off / BSIZE),
                 off);
      halt := PatchBlock(i, off, chunk, addr);
      WroteThen(old(view), old(trees), old(g), v1, trees, g1, view, g, i, off, chunk);
      if halt.Running? {
        RecordedThen(old(view), old(lh), v1, lh1, view, lh);
      }
    }

    lemma WroteThen(v0: Disk, t0: Trees, g0: Books, v1: Disk, t1: Trees, g1: Books, v2: Disk, g2: Books, i: nat,
                    off: nat, chunk: seq<Byte>)
      requires Wrote(v0, t0, v1, t1, i, off, []) && Wrote(v1, t1, v2, t1, i, off, chunk)
      requires HeadKept(v0, v1, sb) && HeadKept(v1, v2, sb)
      requires LogSpan(g0, g1, i, off / BSIZE, off / BSIZE + 1) && LogSpan(g1, g2, i, off / BSIZE, off / BSIZE + 1)
      ensures Wrote(v0, t0, v2, t1, i, off, chunk) && HeadKept(v0, v2, sb)
      ensures LogSpan(g0, g2, i, off / BSIZE, off / BSIZE + 1)
    {
      WroteMore(v0, t0, v1, t1, v2, t1, i, off, [], chunk);
      assert [] + chunk == chunk;
      SpanTrans(g0, g1, g2, i, off / BSIZE, off / BSIZE + 1, off / BSIZE, off / BSIZE + 1);
    }

    /** The first `tot` bytes of src were written at `start`. */
    ghost predicate WrittenSoFar(v0: Disk, t0: Trees, g0: Books, lh0: seq<nat>, i: nat, start: nat, src: seq<Byte>,
                                 tot: nat)
      reads this
    {
      && tot <= |src| && Valid() && LogOk() && Exact() && g.reserved == g0.reserved && HeadKept(v0, view, sb)
      && LogSpan(g0, g, i, start / BSIZE, BlocksFor(start + tot))
      && (tot > 0 ==> WroteAll(g, i, start / BSIZE, BlocksFor(start + tot)))
      && i in trees && i in t0 && trees.Keys == t0.Keys && trees == t0[i := trees[i]]
      && Wrote(v0, t0, view, trees, i, start, src[..tot])
      && (Backed(v0, t0[i], start + |src|) ==> trees == t0) && Recorded(v0, lh0, view, lh)
    }

    /** One turn of writei's loop. */
    method WriteStep(i: nat, src: seq<Byte>, start: nat, tot: nat, ghost v0: Disk, ghost t0: Trees, ghost g0: Books,
                     ghost lh0: seq<nat>)
      returns (halt: Halt, m: nat)
      requires WrittenSoFar(v0, t0, g0, lh0, i, start, src, tot) && tot < |src| && start + |src| <= MAXFILE * BSIZE
      modifies this`view, this`trees, this`lh, this`g
      ensures halt.Running? || halt.OutOfBlocks? || halt.LogFull?
      ensures LogOk() && LogSpan(g0, g, i, start / BSIZE, BlocksFor(start + |src|))
      ensures 0 < m <= |src| - tot && (halt.Running? ==> WrittenSoFar(v0, t0, g0, lh0, i, start, src, tot + m))
      ensures halt.OutOfBlocks? ==>
                NoneFree(view, sb) && Starved(g, sb, i, SpanSet(start / BSIZE, BlocksFor(start + |src|)))
      ensures halt.LogFull? ==> Full()
    {
      hide Min;
      hide Wf;
      hide Wrote;
      hide LogSpan;
      hide HeadKept;
      hide Listing;
      hide Sorted;
      hide Filed;
      hide HasByte;
      hide BlocksFor;
      hide Backed;
      hide NoneFree;
      hide FirstFit;
      hide Tracked;
      hide Linked;
      hide Posted;
      hide Starved;
      hide SpanSet;
      hide WroteAll;
      hide Recorded;
      var off := start + tot;
      m := Min(|src| - tot, BSIZE - off % BSIZE);
      ChunkBounds(off, |src| - tot);
      HasNext(v0, t0, view, trees, i, start, src[..tot], start + |src|);
      halt := WriteBlock(i, off, src[tot..tot + m]);
      LoopSpan(g0, old(g), g, i, start, tot, m, |src|);
      LoopStarved(g, i, start, tot, m, |src|);
      if halt.Running? {
        UpdateTwice(t0, old(trees), trees, i);
        LoopWrote(v0, t0, old(view), old(trees), view, trees, i, start, src[..tot], off, src[tot..tot + m]);
        SliceMore(src, tot, m);
        LoopWroteAll(old(g), g, i, start, tot, m, |src|);
        RecordedThen(v0, lh0, old(view), old(lh), view, lh);
      }
    }

    lemma NothingWritten(i: nat, src: seq<Byte>, start: nat)
      requires Valid() && LogOk() && Exact() && i in trees
      ensures WrittenSoFar(view, trees, g, lh, i, start, src, 0)
    {
      WroteNothing(view, trees, i, start);
      assert src[..0] == [] && trees[i := trees[i]] == trees;
    }

    /** writei's loop, one file block at a time. */
    method WriteLoop(i: nat, src: seq<Byte>, start: nat) returns (halt: Halt)
      requires Valid() && LogOk() && Exact() && i in trees && start + |src| <= MAXFILE * BSIZE
      modifies this`view, this`trees, this`lh, this`g
      ensures halt.Running? || halt.OutOfBlocks? || halt.LogFull?
      ensures LogOk() && LogSpan(old(g), g, i, start / BSIZE, BlocksFor(start + |src|))
      ensures halt.Running? ==>
                && Valid() && g.reserved == old(g).reserved && HeadKept(old(view), view, sb)
                && trees.Keys == old(trees).Keys && trees == old(trees)[i := trees[i]]
                && Wrote(old(view), old(trees), view, trees, i, start, src) && Recorded(old(view), old(lh), view, lh)
      ensures halt.Running? && Backed(old(view), old(trees)[i], start + |src|) ==> trees == old(trees)
      ensures halt.OutOfBlocks? ==>
                NoneFree(view, sb) && Starved(g, sb, i, SpanSet(start / BSIZE, BlocksFor(start + |src|)))
      ensures halt.Running? ==> Exact() && (src != [] ==> WroteAll(g, i, start / BSIZE, BlocksFor(start + |src|)))
      ensures halt.LogFull? ==> Full()
    {
      hide Wf;
      hide Wrote;
      hide LogSpan;
      hide HeadKept;
      hide Listing;
      hide Sorted;
      hide Filed;
      hide BlocksFor;
      hide Backed;
      hide NoneFree;
      hide FirstFit;
      hide Tracked;
      hide Linked;
      hide Posted;
      hide Starved;
      hide SpanSet;
      hide WroteAll;
      hide Recorded;
      var tot := 0;
      NothingWritten(i, src, start);
      while tot < |src|
        invariant WrittenSoFar(old(view), old(trees), old(g), old(lh), i, start, src, tot)
      {
        var m;
        halt, m := WriteStep(i, src, start, tot, old(view), old(trees), old(g), old(lh));
        if !halt.Running? {
          return;
        }
        tot := tot + m;
      }
      assert src[..tot] == src;
      halt := Running;
    }

    lemma LoopSpan(g0: Books, g1: Books, g2: Books, i: nat, start: nat, tot: nat, m: nat, n: nat)
      requires 0 < m && tot + m <= n && start + n <= MAXFILE * BSIZE && m == Min(n - tot, BSIZE - (start + tot) % BSIZE)
      requires LogSpan(g0, g1, i, start / BSIZE, BlocksFor(start + tot))
      requires LogSpan(g1, g2, i, (start + tot) / BSIZE, (start + tot) / BSIZE + 1)
      ensures LogSpan(g0, g2, i, start / BSIZE, BlocksFor(start + (tot + m)))
      ensures LogSpan(g0, g2, i, start / BSIZE, BlocksFor(start + n))
    {
      ChunkBounds(start + tot, n - tot);
      SpanTrans(g0, g1, g2, i, start / BSIZE, BlocksFor(start + tot), (start + tot) / BSIZE,
                BlocksFor(start + tot + m));
      WidenSpan(g0, g2, i, start / BSIZE, BlocksFor(start + tot + m), BlocksFor(start + n));
    }

    lemma LoopStarved(g: Books, i: nat, start: nat, tot: nat, m: nat, n: nat)
      requires 0 < m && tot + m <= n && start + n <= MAXFILE * BSIZE && m == Min(n - tot, BSIZE - (start + tot) % BSIZE)
      ensures Starved(g, sb, i, SpanSet((start + tot) / BSIZE, (start + tot) / BSIZE + 1)) ==>
                Starved(g, sb, i, SpanSet(start / BSIZE, BlocksFor(start + n)))
    {
      ChunkBounds(start + tot, n - tot);
      StarvedWider(g, sb, i, (start + tot) / BSIZE, (start + tot) / BSIZE + 1, start / BSIZE, BlocksFor(start + n));
    }

    lemma LoopWroteAll(g: Books, g': Books, i: nat, start: nat, tot: nat, m: nat, n: nat)
      requires 0 < m && tot + m <= n && start + n <= MAXFILE * BSIZE && m == Min(n - tot, BSIZE - (start + tot) % BSIZE)
      requires (tot > 0 ==> WroteAll(g, i, start / BSIZE, BlocksFor(start + tot))) && g.wrote <= g'.wrote
      requires Owner(i, DataSlot((start + tot) / BSIZE)) in g'.wrote
      ensures WroteAll(g', i, start / BSIZE, BlocksFor(start + (tot + m)))
    {
      ChunkBounds(start + tot, n - tot);
    }

    lemma LoopWrote(v0: Disk, t0: Trees, v1: Disk, t1: Trees, v2: Disk, t2: Trees, i: nat, start: nat, done: seq<Byte>,
                    off: nat,
        chunk: seq<Byte>)
      requires off == start + |done| && Wrote(v0, t0, v1, t1, i, start, done) && Wrote(v1, t1, v2, t2, i, off, chunk)
      requires HeadKept(v0, v1, sb) && HeadKept(v1, v2, sb)
      ensures Wrote(v0, t0, v2, t2, i, start, done + chunk) && HeadKept(v0, v2, sb)
    {
      WroteMore(v0, t0, v1, t1, v2, t2, i, start, done, chunk);
    }

    /** In a file with blocks up to the end of the write, the next byte to write has one. */
    lemma HasNext(v0: Disk, t0: Trees, v1: Disk, t1: Trees, i: nat, start: nat, done: seq<Byte>, end: nat)
      requires start + |done| < end && Wrote(v0, t0, v1, t1, i, start, done)
      ensures Backed(v0, t0[i], end) ==> HasByte(v1, t1[i], start + |done|)
    {
    }

    /** writei past its checks: the loop, and the new size when the write ends past the old one. */
    method WriteFile(i: nat, src: seq<Byte>, off: Uint) returns (halt: Halt)
      requires Consistent() && i in trees && off <= meta[i].size && off + |src| <= MAXFILE * BSIZE
      modifies this`view, this`trees, this`meta, this`lh, this`g
      ensures LogOk() && WriteSpan(old(g), g, i, off, |src|)
      ensures halt.Running? || halt.OutOfBlocks? || halt.LogFull?
      ensures halt.OutOfBlocks? ==>
                NoneFree(view, sb) && Starved(g, sb, i, SpanSet(off / BSIZE, BlocksFor(off + |src|)))
      ensures halt.Running? ==> Exact() && (src != [] ==> WroteAll(g, i, off / BSIZE, BlocksFor(off + |src|)))
      ensures halt.Running? && off + |src| > old(meta)[i].size ==> InodeSector(i) in g.others
      ensures halt.LogFull? ==> Full() && g.others == old(g).others
      ensures i in meta && meta == old(meta)[i := meta[i]]
      ensures halt.Running? ==>
                && meta[i] == old(meta)[i].(size := Max(off + |src|, old(meta)[i].size))
                && Valid() && g.reserved == old(g).reserved && AllSynced(view, sb, trees, meta)
                && i in trees && trees == old(trees)[i := trees[i]] && Recorded(old(view), old(lh), view, lh)
                && Wrote(old(view), old(trees), view, trees, i, off, src)
    {
      hide Wf;
      hide Wrote;
      hide AllSynced;
      hide AllBacked;
      hide LogSpan;
      hide WriteSpan;
      hide HeadKept;
      hide Listing;
      hide Sorted;
      hide Filed;
      hide Backed;
      hide NoneFree;
      hide FirstFit;
      hide Tracked;
      hide Linked;
      hide Posted;
      hide Starved;
      hide SpanSet;
      hide WroteAll;
      hide BlocksFor;
      hide Recorded;
      halt := WriteLoop(i, src, off);
      ghost var v1, g1, lh1 := view, g, lh;
      SpanWrites(old(g), g, g, i, off, |src|);
      if !halt.Running? {
        return;
      }
      if |src| > 0 && off + |src| > meta[i].size {
        meta := meta[i := meta[i].(size := off + |src|)];
        StoredWrite(old(view), sb, old(trees), old(g), old(meta), view, trees, g, i, meta[i], off, src);
        halt := Iupdate(i);
        if halt.Running? {
          RecordedThen(old(view), old(lh), v1, lh1, view, lh);
        }
        WroteAllOthers(g1, g, i, off / BSIZE, BlocksFor(off + |src|));
        SpanWrites(old(g), g1, g, i, off, |src|);
      } else {
        SyncedWrite(old(view), sb, old(trees), old(g), old(meta), view, i, off + |src|);
      }
    }

    /** Writes src at off; extends the file when the write ends past its size. */
    method Writei(i: nat, src: seq<Byte>, off: Uint) returns (halt: Halt, r: Io)
      requires Consistent() && i in trees && |src| < TWO32
      modifies this`view, this`trees, this`meta, this`lh, this`g
      ensures i in meta
      ensures old(meta)[i].kind == T_DEV ==>
                && halt.Running? && unchanged(this)
                && r == if meta[i].major < NDEV && meta[i].major in devWriters then ToDevice(meta[i].major) else Refused
      ensures old(meta)[i].kind != T_DEV && (off > old(meta)[i].size || off + |src| > MAXFILE * BSIZE) ==>
                halt.Running? && r == Refused && unchanged(this)
      ensures old(meta)[i].kind != T_DEV && off <= old(meta)[i].size && off + |src| <= MAXFILE * BSIZE ==>
                && LogOk() && WriteSpan(old(g), g, i, off, |src|)
                && (halt.Running? || halt.OutOfBlocks? || (halt.LogFull? && Full() && g.others == old(g).others))
                && (halt.OutOfBlocks? ==>
                      NoneFree(view, sb) && Starved(g, sb, i, SpanSet(off / BSIZE, BlocksFor(off + |src|))))
                && (halt.Running? ==>
                      && Consistent() && r == Count(|src|) && g.reserved == old(g).reserved
                      && i in trees && trees == old(trees)[i := trees[i]]
                      && meta == old(meta)[i := old(meta)[i].(size := Max(off + |src|, old(meta)[i].size))]
                      && Contents() == old(Contents())[i := Written(old(Contents())[i], off, src)]
                      && (src != [] ==> WroteAll(g, i, off / BSIZE, BlocksFor(off + |src|)))
                      && (off + |src| > old(meta)[i].size ==> InodeSector(i) in g.others))
    {
      hide Wf;
      hide Listing;
      hide Sorted;
      hide Filed;
      hide Tracked;
      hide Linked;
      hide Posted;
      hide AllSynced;
      hide AllBacked;
      hide Starved;
      hide SpanSet;
      hide WriteSpan;
      hide WroteAll;
      hide NoneFree;
      hide FilesOf;
      hide Recorded;
      if meta[i].kind == T_DEV {
        return Running, if meta[i].major < NDEV && meta[i].major in devWriters then ToDevice(meta[i].major)
               else Refused;
      }
      if off > meta[i].size || off + |src| >= TWO32 {
        return Running, Refused;
      }
      if off + |src| > MAXFILE * BSIZE {
        return Running, Refused;
      }
      halt := WriteFile(i, src, off);
      r := Count(|src|);
      if halt.Running? {
        WroteFiles(old(view), old(trees), old(meta), view, trees, meta, i, off, src);
        RecordedThen(disk, [], old(view), old(lh), view, lh);
      }
    }

    /** readi's loop. No block is missing, so bmap changes nothing. */
    method ReadLoop(i: nat, start: nat, n: nat) returns (halt: Halt, dst: seq<Byte>)
      requires Valid() && LogOk() && Exact() && i in trees && i in meta && Backed(view, trees[i], meta[i].size)
      requires start + n <= meta[i].size
      modifies this`view, this`trees, this`lh, this`g
      ensures halt.Running? && view == old(view) && trees == old(trees) && lh == old(lh) && g == old(g)
      ensures dst == Content(view, trees[i], meta[i].size)[start..start + n]
    {
      hide Tracked;
      hide Linked;
      hide Posted;
      hide Starved;
      hide PathSet;
      hide Wf;
      hide Listing;
      hide Sorted;
      hide Filed;
      hide Stepped;
      hide Grown;
      hide HeadKept;
      hide NoneFree;
      hide FirstFit;
      hide HasByte;
      hide Backed;
      hide Min;
      hide At;
      hide DataSlot;
      var tot := 0;
      dst := [];
      ghost var file := Content(view, trees[i], meta[i].size);
      while tot < n
        invariant 0 <= tot <= n && dst == file[start..start + tot]
        invariant view == old(view) && trees == old(trees) && lh == old(lh) && g == old(g)
      {
        var off := start + tot;
        var m := Min(n - tot, BSIZE - off % BSIZE);
        ReadPlace(view, trees[i], meta[i].size, off, n - tot);
        var addr;
        halt, addr := Bmap(i, off / BSIZE);
        ReadSlice(view, sb, trees, g.reserved, g.own, i, meta[i].size, off, m, addr);
        SliceFrom(file, start, tot, m);
        dst := dst + view[addr][off % BSIZE..off % BSIZE + m];
        tot := tot + m;
      }
      halt := Running;
    }

    /** Reads up to n bytes at off: the part of the file there is. */
    method Readi(i: nat, off: Uint, n: Uint) returns (halt: Halt, r: Io, dst: seq<Byte>)
      requires Consistent() && i in trees
      modifies this`view, this`trees, this`lh, this`g
      ensures halt.Running? && view == old(view) && trees == old(trees) && lh == old(lh) && g == old(g)
      ensures meta[i].kind == T_DEV ==>
                r == if meta[i].major < NDEV && meta[i].major in devReaders then ToDevice(meta[i].major) else Refused
      ensures meta[i].kind != T_DEV && (off > meta[i].size || off + n >= TWO32) ==> r == Refused
      ensures meta[i].kind != T_DEV && off <= meta[i].size && off + n < TWO32 ==>
                r == Count(|dst|) && dst == Contents()[i][off..Min(off + n, meta[i].size)]
    {
      hide Wf;
      hide Listing;
      hide Sorted;
      hide Filed;
      hide Tracked;
      hide Linked;
      hide Posted;
      hide AllSynced;
      dst := [];
      if meta[i].kind == T_DEV {
        return Running, if meta[i].major < NDEV && meta[i].major in devReaders then ToDevice(meta[i].major)
               else Refused, [];
      }
      if off > meta[i].size || off + n >= TWO32 {
        return Running, Refused, [];
      }
      var len := if off + n > meta[i].size then meta[i].size - off else n;
      halt, dst := ReadLoop(i, off, len);
      r := Count(len);
    }

    /** No transaction has started: nothing is logged, and the disk is as it is seen. */
    ghost predicate Idle()
      reads this
    {
      lh == [] && g == Opened(g.reserved, g.own) && disk == view
    }

    /** Where the log begins. */
    function LogStart(): int { sb.size - logSize }

    /** bwrite: a sector is written to the disk as it is seen. */
    method Bwrite(s: nat)
      requires s < |view| == |disk|
      modifies this`disk
      ensures disk == old(disk)[s := view[s]]
    {
      disk := disk[s := view[s]];
    }

    /** The log header is written over what its sector held. */
    method WriteHead(ghost left: seq<nat>)
      requires Encodable(lh) && Sized(view, sb) && 0 < logSize <= sb.size && Recorded(disk, [], view, left)
      modifies this`view, this`disk
      ensures |disk| == |view|
      ensures view == old(view)[LogStart() := HeaderBlock(old(view)[LogStart()], lh, |lh|)]
      ensures Recorded(disk, [], view, left)
    {
      view := view[LogStart() := HeaderBlock(view[LogStart()], lh, |lh|)];
      Bwrite(LogStart());
    }

    /** One turn of install_trans: the copy in the log is made and written, then the sector itself. */
    method InstallOne(tail: nat)
      requires tail < |lh| && lh[tail] < |view| == |disk| && 0 <= LogStart() && LogStart() + tail + 1 < |view|
      requires Recorded(disk, [], view, lh[tail..])
      modifies this`view, this`disk
      ensures view == old(view)[LogStart() + tail + 1 := old(view)[lh[tail]]] && |disk| == |old(disk)|
      ensures Recorded(disk, [], view, lh[tail + 1..])
    {
      RecordedInstalled(disk, view, lh, tail, LogStart() + tail + 1, view[lh[tail]]);
      hide Recorded;
      view := view[LogStart() + tail + 1 := view[lh[tail]]];
      Bwrite(LogStart() + tail + 1);
      Bwrite(lh[tail]);
    }

    /** install_trans: each listed sector is copied to its place in the log, and both are written. */
    method InstallTrans()
      requires Listing(lh, g, sb, logSize) && Sized(view, sb) && |lh| < logSize <= sb.size
      requires |disk| == |view| && Recorded(disk, [], view, lh)
      modifies this`view, this`disk
      ensures |disk| == |view| && Recorded(disk, [], view, [])
      ensures |view| == |old(view)|
      ensures forall s: nat | s < |view| && !(LogStart() < s <= LogStart() + |lh|) :: view[s] == old(view)[s]
      ensures Outside(lh, LogStart(), logSize, |view|) ==> view == Copied(old(view), LogStart(), lh, |lh|)
    {
      hide Sorted;
      hide Recorded;
      assert lh[0..] == lh && lh[|lh|..] == [];
      var tail := 0;
      while tail < |lh|
        invariant 0 <= tail <= |lh| && |view| == |old(view)| == |disk|
        invariant forall s: nat | s < |view| && !(LogStart() < s <= LogStart() + tail) :: view[s] == old(view)[s]
        invariant Outside(lh, LogStart(), logSize, |view|) ==> view == Copied(old(view), LogStart(), lh, tail)
        invariant Recorded(disk, [], view, lh[tail..])
      {
        InstallOne(tail);
        tail := tail + 1;
      }
    }

    /** The writes of commit_trans: the header, the copies, the erased header. */
    method CommitWrites()
      requires Listing(lh, g, sb, logSize) && Sized(view, sb) && DataStart(sb) + logSize <= sb.size
      requires Recorded(disk, [], view, lh)
      modifies this`disk, this`view, this`lh
      ensures disk == view
      ensures lh == [] && |view| == |old(view)| && forall s: nat | s < LogStart() :: view[s] == old(view)[s]
      ensures old(lh) == [] ==> view == old(view)
      ensures old(lh) != [] ==> Headed(old(view)[LogStart()], old(lh), view[LogStart()])
    {
      hide HeaderBlock;
      hide Copied;
      hide Outside;
      hide Recorded;
      if |lh| > 0 {
        WriteHead(lh);
        InstallTrans();
        lh := [];
        WriteHead([]);
      }
      RecordedAll(disk, view);
    }

    /**
    commit_trans. Everything seen is then on the disk. The files survive when no logged sector is in
    the log, which holds of every transaction when the free map reserves the log.
    */
    method Commit() returns (halt: Halt)
      requires Consistent()
      modifies this`disk, this`view, this`lh, this`g
      ensures disk == view
      ensures |view| == |old(view)| && forall s: nat | s < LogStart() :: view[s] == old(view)[s]
      ensures old(lh) == [] ==> view == old(view)
      ensures old(lh) != [] ==> Headed(old(view)[LogStart()], old(lh), view[LogStart()])
      ensures halt == if Outside(old(lh), LogStart(), logSize, sb.size) then Running else LogOverrun
      ensures halt.LogOverrun? ==> exists k :: 0 <= k < |old(lh)| && LogStart() <= old(lh)[k]
      ensures LogReserved(g.reserved, LogStart(), sb) ==> halt.Running?
      ensures lh == [] && g == Opened(old(g).reserved, old(g).own)
      ensures halt.Running? ==> Consistent() && Idle() && Contents() == old(Contents())
    {
      hide Wf;
      hide Listing;
      hide Sorted;
      hide Filed;
      hide AllSynced;
      hide AllBacked;
      hide FilesOf;
      hide Headed;
      hide Sized;
      hide Tracked;
      hide Linked;
      hide Posted;
      hide Recorded;
      halt := if exists k :: 0 <= k < |lh| && LogStart() <= lh[k] then LogOverrun else Running;
      SizedOf(view, sb, trees, g);
      ReservedOutside(lh, g, sb, logSize);
      ghost var lo: nat := LogStart();
      CommitWrites();
      RecordedNone(view, []);
      g := Opened(g.reserved, g.own);
      if halt.Running? {
        ListEmptied(old(lh), old(g), sb, logSize);
        CommitKeeps(old(view), sb, trees, old(g), view, meta, lo);
      }
    }
  }
}
