/**
The block tree of an inode (eleven direct blocks, an indirect block and a doubly
indirect block) over a disk, and the free map that accounts for every block.
*/
module BlockTree {
  import opened Basics
  import opened Blocks

  const NDIRECT := 11
  const NINDIRECT := 128
  const MAXFILE := NDIRECT + NINDIRECT + NINDIRECT * NINDIRECT
  const NADDRS := NDIRECT + 2
  const IPB := 8
  const BPB := BITS

  datatype Super = Super(size: nat, ninodes: nat)

  /** The sector of the free-map block that holds the bit of block b. */
  function BitmapSector(sb: Super, b: nat): nat { b / BPB + sb.ninodes / IPB + 3 }

  /** The sector of the inode block that holds inode i. */
  function InodeSector(i: nat): nat { i / IPB + 2 }

  /** The first block after the inode blocks and the free map. */
  function DataStart(sb: Super): nat { sb.ninodes / IPB + 3 + sb.size / BPB + 1 }

  predicate InUse(v: Disk, sb: Super, b: nat)
    requires b < sb.size <= |v| && DataStart(sb) <= sb.size
  {
    Bit(v[BitmapSector(sb, b)], b % BPB)
  }

  /** A place in an inode's tree that can hold a block number. */
  datatype Slot =
    | Direct(i: nat)           // a data block named in the inode
    | Ind                      // the indirect block
    | IndData(j: nat)          // a data block named in the indirect block
    | Dbl                      // the doubly indirect block
    | DblMid(j: nat)           // an index block named in the doubly indirect block
    | DblData(j: nat, k: nat)  // a data block named in one of those
  {
    predicate Valid() {
      match this
      case Direct(i) => i < NDIRECT
      case Ind => true
      case IndData(j) => j < NINDIRECT
      case Dbl => true
      case DblMid(j) => j < NINDIRECT
      case DblData(j, k) => j < NINDIRECT && k < NINDIRECT
    }

    predicate IsRoot() { Direct? || Ind? || Dbl? }

    predicate IsData() { Direct? || IndData? || DblData? }

    function Root(): nat
      requires IsRoot()
    {
      match this
      case Direct(i) => i
      case Ind => NDIRECT
      case Dbl => NDIRECT + 1
    }

    function Parent(): (p: Slot)
      requires !IsRoot()
      ensures p.Depth() < Depth() && !p.IsData()
      ensures Valid() ==> p.Valid()
    {
      match this
      case IndData(_) => Ind
      case DblMid(_) => Dbl
      case DblData(j, _) => DblMid(j)
    }

    function Index(): nat
      requires !IsRoot()
    {
      match this
      case IndData(j) => j
      case DblMid(j) => j
      case DblData(_, k) => k
    }

    function Depth(): nat {
      match this
      case DblData(_, _) => 2
      case IndData(_) => 1
      case DblMid(_) => 1
      case _ => 0
    }
  }

  /** The slot of file block bn. */
  function DataSlot(bn: nat): (s: Slot)
    requires bn < MAXFILE
    ensures s.Valid() && s.IsData() && FileBlock(s) == bn
  {
    if bn < NDIRECT then Direct(bn)
    else if bn - NDIRECT < NINDIRECT then IndData(bn - NDIRECT)
    else var k := bn - NDIRECT - NINDIRECT; DblData(k / NINDIRECT, k % NINDIRECT)
  }

  /** The file block a data slot stands for. */
  function FileBlock(s: Slot): nat
    requires s.IsData()
  {
    match s
    case Direct(i) => i
    case IndData(j) => NDIRECT + j
    case DblData(j, k) => NDIRECT + NINDIRECT + NINDIRECT * j + k
  }

  datatype Owner = Owner(inum: nat, slot: Slot)

  type Addrs = a: seq<Uint> | |a| == NADDRS witness seq(NADDRS, i => 0)

  /** The block number held in a slot; 0 when the slot or an index block above it is empty. */
  function At(v: Disk, a: Addrs, s: Slot): Uint
    requires s.Valid()
    decreases s.Depth()
  {
    if s.IsRoot() then a[s.Root()]
    else
      var p := At(v, a, s.Parent());
      if p == 0 || p >= |v| then 0 else Word(v[p], s.Index())
  }

  lemma ParentPresent(v: Disk, a: Addrs, s: Slot)
    requires s.Valid() && !s.IsRoot()
    ensures At(v, a, s) != 0 ==> At(v, a, s.Parent()) != 0
  {
  }

  /** Every inode's tree, as one table from (inode, slot) to block number. */
  type Trees = map<nat, Addrs>

  predicate Sized(v: Disk, sb: Super)
  {
    |v| == sb.size < TWO32 && DataStart(sb) <= sb.size
  }

  ghost predicate Shape(v: Disk, sb: Super, reserved: set<nat>)
  {
    && Sized(v, sb)
    && (forall b :: 0 <= b < DataStart(sb) ==> b in reserved)
    && (forall b :: b in reserved ==> b < sb.size)
  }

  /** Each block number found in a slot belongs to that slot alone. */
  ghost predicate Held(v: Disk, t: Trees, own: map<nat, Owner>)
  {
    forall i, s: Slot {:trigger At(v, t[i], s)} | i in t && s.Valid() :: Names(own, At(v, t[i], s), i, s)
  }

  /** A nonzero block number is owned by the given slot. */
  ghost predicate Names(own: map<nat, Owner>, b: nat, i: nat, s: Slot)
  {
    b != 0 ==> b in own && own[b] == Owner(i, s)
  }

  /** Each owned block is an allocatable block with a proper owner. */
  ghost predicate Placed(sb: Super, t: Trees, reserved: set<nat>, own: map<nat, Owner>)
  {
    forall b | b in own ::
      DataStart(sb) <= b < sb.size && b !in reserved && own[b].inum in t && own[b].slot.Valid()
  }

  /** Each owned block is found in its owner's slot. */
  ghost predicate Found(v: Disk, t: Trees, own: map<nat, Owner>)
    requires forall b | b in own :: own[b].inum in t && own[b].slot.Valid()
  {
    forall b {:trigger At(v, t[own[b].inum], own[b].slot)} | b in own :: At(v, t[own[b].inum], own[b].slot) == b
  }

  /** The free map marks exactly the reserved blocks and the blocks of the trees. */
  ghost predicate Accounted(v: Disk, sb: Super, reserved: set<nat>, own: map<nat, Owner>)
    requires Shape(v, sb, reserved)
  {
    forall b: nat {:trigger InUse(v, sb, b)} | b < sb.size :: InUse(v, sb, b) <==> b in reserved || b in own
  }

  /** What every operation keeps: `own` lists the blocks of all trees, each with its one slot. */
  ghost predicate Wf(v: Disk, sb: Super, t: Trees, reserved: set<nat>, own: map<nat, Owner>)
  {
    && Shape(v, sb, reserved)
    && Held(v, t, own)
    && Placed(sb, t, reserved, own)
    && Found(v, t, own)
    && Accounted(v, sb, reserved, own)
  }

  /** Every index block of the trees is the same on both disks. */
  ghost predicate IndexKept(v: Disk, v': Disk, own: map<nat, Owner>)
  {
    |v'| == |v| && forall b | b in own && b < |v| && !own[b].slot.IsData() :: v'[b] == v[b]
  }

  /** Every data block of the trees is the same on both disks. */
  ghost predicate DataKept(v: Disk, v': Disk, own: map<nat, Owner>)
  {
    |v'| == |v| && forall b | b in own && b < |v| && own[b].slot.IsData() :: v'[b] == v[b]
  }

  /** The superblock and the inode blocks are the same on both disks. */
  ghost predicate HeadKept(v: Disk, v': Disk, sb: Super)
  {
    |v'| == |v| && forall c :: 0 <= c < BitmapSector(sb, 0) && c < |v| ==> v'[c] == v[c]
  }

  /** A tree only depends on its own index blocks. */
  lemma {:induction false} AtFrame(v: Disk, v': Disk, t: Trees, own: map<nat, Owner>, i: nat, s: Slot)
    requires i in t && s.Valid()
    requires Held(v, t, own) && IndexKept(v, v', own)
    ensures At(v', t[i], s) == At(v, t[i], s)
    decreases s.Depth()
  {
    if !s.IsRoot() {
      AtFrame(v, v', t, own, i, s.Parent());
      assert Names(own, At(v, t[i], s.Parent()), i, s.Parent());
    }
  }

  /** The table of all trees is the same. */
  ghost predicate SameTrees(v: Disk, t: Trees, v': Disk, t': Trees)
  {
    t'.Keys == t.Keys && forall i, s: Slot {:trigger At(v', t'[i], s)} | i in t && s.Valid() ::
        At(v', t'[i], s) == At(v, t[i], s)
  }

  /** The table of all trees changed in one place, from 0 to b. */
  ghost predicate OneMore(v: Disk, t: Trees, v': Disk, t': Trees, i: nat, r: Slot, b: nat)
  {
    && t'.Keys == t.Keys
    && forall j, s: Slot {:trigger At(v', t'[j], s)} | j in t && s.Valid() ::
         At(v', t'[j], s) == if j == i && s == r then b else At(v, t[j], s)
  }

  lemma FrameAll(v: Disk, v': Disk, t: Trees, own: map<nat, Owner>)
    requires Held(v, t, own) && IndexKept(v, v', own)
    ensures SameTrees(v, t, v', t)
  {
    forall i, s: Slot | i in t && s.Valid() ensures At(v', t[i], s) == At(v, t[i], s) {
      AtFrame(v, v', t, own, i, s);
    }
  }

  lemma HeldSame(v: Disk, t: Trees, v': Disk, t': Trees, own: map<nat, Owner>)
    requires Held(v, t, own) && SameTrees(v, t, v', t')
    ensures Held(v', t', own)
  {
    forall i, s: Slot | i in t' && s.Valid() ensures Names(own, At(v', t'[i], s), i, s) {
      assert At(v', t'[i], s) == At(v, t[i], s);
    }
  }

  lemma FoundSame(v: Disk, sb: Super, t: Trees, v': Disk, t': Trees, reserved: set<nat>, reserved': set<nat>,
                  own: map<nat, Owner>)
    requires Placed(sb, t, reserved, own) && Found(v, t, own) && SameTrees(v, t, v', t')
    requires forall b | b in own :: b !in reserved'
    ensures Placed(sb, t', reserved', own) && Found(v', t', own)
  {
    forall b | b in own ensures At(v', t'[own[b].inum], own[b].slot) == b {
      assert At(v, t[own[b].inum], own[b].slot) == b;
    }
  }

  lemma HeldMore(v: Disk, t: Trees, v': Disk, t': Trees, own: map<nat, Owner>, i: nat, r: Slot, b: nat)
    requires Held(v, t, own) && OneMore(v, t, v', t', i, r, b) && b !in own
    ensures Held(v', t', own[b := Owner(i, r)])
  {
    var own' := own[b := Owner(i, r)];
    forall j, s: Slot | j in t' && s.Valid() ensures Names(own', At(v', t'[j], s), j, s) {
      assert Names(own, At(v, t[j], s), j, s);
      assert At(v', t'[j], s) == if j == i && s == r then b else At(v, t[j], s);
    }
  }

  lemma FoundMore(v: Disk, sb: Super, t: Trees, v': Disk, t': Trees, reserved: set<nat>, own: map<nat, Owner>, i: nat,
                  r: Slot, b: nat)
    requires Placed(sb, t, reserved, own) && Found(v, t, own) && OneMore(v, t, v', t', i, r, b) && b !in own
    requires i in t && r.Valid() && At(v, t[i], r) == 0
    requires DataStart(sb) <= b < sb.size
    ensures Placed(sb, t', reserved - {b}, own[b := Owner(i, r)])
    ensures Found(v', t', own[b := Owner(i, r)])
  {
    var own' := own[b := Owner(i, r)];
    forall c | c in own' ensures At(v', t'[own'[c].inum], own'[c].slot) == c {
      if c != b {
        assert At(v, t[own[c].inum], own[c].slot) == c;
      }
    }
  }

  lemma WfSame(v: Disk, sb: Super, t: Trees, v': Disk, reserved: set<nat>, reserved': set<nat>, own: map<nat, Owner>)
    requires Wf(v, sb, t, reserved, own) && IndexKept(v, v', own)
    requires Shape(v', sb, reserved') && Accounted(v', sb, reserved', own)
    requires forall b | b in own :: b !in reserved'
    ensures Wf(v', sb, t, reserved', own) && SameTrees(v, t, v', t)
  {
    FrameAll(v, v', t, own);
    HeldSame(v, t, v', t, own);
    FoundSame(v, sb, t, v', t, reserved, reserved', own);
  }

  lemma WfMore(v: Disk, sb: Super, t: Trees, v': Disk, t': Trees, reserved: set<nat>, own: map<nat, Owner>, i: nat,
               r: Slot, b: nat)
    requires Wf(v, sb, t, reserved, own) && OneMore(v, t, v', t', i, r, b)
    requires i in t && r.Valid() && At(v, t[i], r) == 0
    requires b in reserved && DataStart(sb) <= b
    requires |v'| == |v| && forall c :: 0 <= c < DataStart(sb) ==> v'[c] == v[c]
    ensures Wf(v', sb, t', reserved - {b}, own[b := Owner(i, r)])
  {
    HeldMore(v, t, v', t', own, i, r, b);
    FoundMore(v, sb, t, v', t', reserved, own, i, r, b);
    assert Accounted(v', sb, reserved - {b}, own[b := Owner(i, r)]) by {
      forall c: nat | c < sb.size ensures InUse(v', sb, c) == InUse(v, sb, c) {
        assert BitmapSector(sb, c) < DataStart(sb);
      }
    }
  }

  /** The disk after the bit of block b was set. */
  function Marked(v: Disk, sb: Super, b: nat): Disk
    requires b < sb.size <= |v| && DataStart(sb) <= sb.size
    requires !InUse(v, sb, b)
  {
    v[BitmapSector(sb, b) := SetBit(v[BitmapSector(sb, b)], b % BPB)]
  }

  /** The disk after the bit of block b was cleared. */
  function Unmarked(v: Disk, sb: Super, b: nat): Disk
    requires b < sb.size <= |v| && DataStart(sb) <= sb.size
    requires InUse(v, sb, b)
  {
    v[BitmapSector(sb, b) := ClearBit(v[BitmapSector(sb, b)], b % BPB)]
  }

  /** Two blocks share a bit only when they are the same block. */
  lemma BitAddress(sb: Super, b: nat, c: nat)
    requires BitmapSector(sb, b) == BitmapSector(sb, c) && b % BPB == c % BPB
    ensures b == c
  {
  }

  lemma MarkedBits(v: Disk, sb: Super, b: nat, c: nat)
    requires b < sb.size <= |v| && c < sb.size && DataStart(sb) <= sb.size
    requires !InUse(v, sb, b)
    ensures InUse(Marked(v, sb, b), sb, c) == (c == b || InUse(v, sb, c))
  {
    if BitmapSector(sb, b) == BitmapSector(sb, c) && b % BPB == c % BPB {
      BitAddress(sb, b, c);
    }
  }

  lemma UnmarkedBits(v: Disk, sb: Super, b: nat, c: nat)
    requires b < sb.size <= |v| && c < sb.size && DataStart(sb) <= sb.size
    requires InUse(v, sb, b)
    ensures InUse(Unmarked(v, sb, b), sb, c) == (c != b && InUse(v, sb, c))
  {
    if BitmapSector(sb, b) == BitmapSector(sb, c) && b % BPB == c % BPB {
      BitAddress(sb, b, c);
    }
  }

  lemma ReserveBits(v: Disk, sb: Super, reserved: set<nat>, own: map<nat, Owner>, b: nat)
    requires Shape(v, sb, reserved) && Accounted(v, sb, reserved, own)
    requires b < sb.size && !InUse(v, sb, b)
    ensures b !in reserved && b !in own && DataStart(sb) <= b
    ensures Accounted(Marked(v, sb, b)[b := ZeroBlock()], sb, reserved + {b}, own)
  {
    var v' := Marked(v, sb, b)[b := ZeroBlock()];
    assert b !in reserved && b !in own;
    forall c: nat | c < sb.size ensures InUse(v', sb, c) == (c == b || InUse(v, sb, c)) {
      MarkedBits(v, sb, b, c);
      assert BitmapSector(sb, c) < DataStart(sb) <= b;
    }
  }

  /** Allocation: a free block is marked and zeroed; no tree changes, the block is held aside. */
  lemma Reserve(v: Disk, sb: Super, t: Trees, reserved: set<nat>, own: map<nat, Owner>, b: nat)
    requires Wf(v, sb, t, reserved, own)
    requires b < sb.size && !InUse(v, sb, b)
    ensures SetAside(v, Marked(v, sb, b)[b := ZeroBlock()], sb, t, reserved, own, b)
  {
    ReserveBits(v, sb, reserved, own, b);
    var p := BitmapSector(sb, b);
    assert p < DataStart(sb) && p !in own;
    var v' := v[p := SetBit(v[p], b % BPB)][b := ZeroBlock()];
    WfSame(v, sb, t, v', reserved, reserved + {b}, own);
  }

  /** Freeing a block held aside: no tree changes. */
  lemma Release(v: Disk, sb: Super, t: Trees, reserved: set<nat>, own: map<nat, Owner>, b: nat)
    requires Wf(v, sb, t, reserved, own)
    requires b in reserved && DataStart(sb) <= b
    ensures b < sb.size && InUse(v, sb, b)
    ensures var v' := Unmarked(v, sb, b);
            Wf(v', sb, t, reserved - {b}, own) && SameTrees(v, t, v', t) && DataKept(v, v', own)
  {
    var v' := Unmarked(v, sb, b);
    assert Accounted(v', sb, reserved - {b}, own) by {
      forall c: nat | c < sb.size ensures InUse(v', sb, c) == (c != b && InUse(v, sb, c)) {
        UnmarkedBits(v, sb, b, c);
      }
    }
    WfSame(v, sb, t, v', reserved, reserved - {b}, own);
  }

  /** A slot is determined by its parent and its index in it. */
  lemma SlotAddress(s: Slot, r: Slot)
    requires !s.IsRoot() && !r.IsRoot() && s.Parent() == r.Parent() && s.Index() == r.Index()
    ensures s == r
  {
  }

  lemma {:induction false} LinkRootAt(v: Disk, a: Addrs, r: Slot, b: Uint, s: Slot)
    requires r.Valid() && r.IsRoot() && s.Valid()
    requires a[r.Root()] == 0 && 0 < b < |v| && v[b] == ZeroBlock()
    ensures At(v, a[r.Root() := b], s) == if s == r then b else At(v, a, s)
    decreases s.Depth()
  {
    if !s.IsRoot() {
      LinkRootAt(v, a, r, b, s.Parent());
    }
  }

  /** Hooking a zeroed block into an empty slot of the inode itself. */
  lemma LinkRoot(v: Disk, sb: Super, t: Trees, reserved: set<nat>, own: map<nat, Owner>, i: nat, r: Slot, b: Uint)
    requires Wf(v, sb, t, reserved, own)
    requires i in t && r.Valid() && r.IsRoot() && At(v, t[i], r) == 0
    requires b in reserved && DataStart(sb) <= b && v[b] == ZeroBlock()
    ensures var t' := t[i := t[i][r.Root() := b]];
            Wf(v, sb, t', reserved - {b}, own[b := Owner(i, r)]) && OneMore(v, t, v, t', i, r, b)
  {
    var t' := t[i := t[i][r.Root() := b]];
    assert OneMore(v, t, v, t', i, r, b) by {
      forall j, s: Slot | j in t && s.Valid()
        ensures At(v, t'[j], s) == if j == i && s == r then b else At(v, t[j], s)
      {
        LinkRootAt(v, t[i], r, b, s);
      }
    }
    WfMore(v, sb, t, v, t', reserved, own, i, r, b);
  }

  lemma {:induction false} LinkChildAt(v: Disk, t: Trees, own: map<nat, Owner>, i: nat, r: Slot, b: Uint, j: nat,
                                       s: Slot)
    requires Held(v, t, own)
    requires i in t && r.Valid() && !r.IsRoot() && j in t && s.Valid()
    requires 0 < At(v, t[i], r.Parent()) < |v| && At(v, t[i], r) == 0
    requires 0 < b < |v| && b !in own && v[b] == ZeroBlock()
    ensures var p := At(v, t[i], r.Parent());
            At(v[p := PutWord(v[p], r.Index(), b)], t[j], s) == if j == i && s == r then b else At(v, t[j], s)
    decreases s.Depth()
  {
    var p := At(v, t[i], r.Parent());
    var v' := v[p := PutWord(v[p], r.Index(), b)];
    if !s.IsRoot() {
      LinkChildAt(v, t, own, i, r, b, j, s.Parent());
      var q := At(v, t[j], s.Parent());
      if q == p {
        assert own[p] == Owner(i, r.Parent()) && own[q] == Owner(j, s.Parent());
        if s.Index() == r.Index() {
          SlotAddress(s, r);
        }
      }
    }
  }

  /** Hooking a zeroed block into an empty entry of a present index block. */
  lemma LinkChild(v: Disk, sb: Super, t: Trees, reserved: set<nat>, own: map<nat, Owner>, i: nat, r: Slot, b: Uint)
    requires Wf(v, sb, t, reserved, own)
    requires i in t && r.Valid() && !r.IsRoot() && At(v, t[i], r) == 0 && At(v, t[i], r.Parent()) != 0
    requires b in reserved && DataStart(sb) <= b && v[b] == ZeroBlock()
    ensures At(v, t[i], r.Parent()) < |v|
    ensures var p := At(v, t[i], r.Parent());
            var v' := v[p := PutWord(v[p], r.Index(), b)];
            && Wf(v', sb, t, reserved - {b}, own[b := Owner(i, r)])
            && OneMore(v, t, v', t, i, r, b) && DataKept(v, v', own)
  {
    var p := At(v, t[i], r.Parent());
    assert Names(own, p, i, r.Parent());
    LinkChildAll(v, t, own, i, r, b);
    WfMore(v, sb, t, v[p := PutWord(v[p], r.Index(), b)], t, reserved, own, i, r, b);
  }

  lemma LinkChildAll(v: Disk, t: Trees, own: map<nat, Owner>, i: nat, r: Slot, b: Uint)
    requires Held(v, t, own)
    requires i in t && r.Valid() && !r.IsRoot()
    requires 0 < At(v, t[i], r.Parent()) < |v| && At(v, t[i], r) == 0
    requires 0 < b < |v| && b !in own && v[b] == ZeroBlock()
    ensures var p := At(v, t[i], r.Parent());
            OneMore(v, t, v[p := PutWord(v[p], r.Index(), b)], t, i, r, b)
  {
    var p := At(v, t[i], r.Parent());
    var v' := v[p := PutWord(v[p], r.Index(), b)];
    forall j, s: Slot | j in t && s.Valid()
      ensures At(v', t[j], s) == if j == i && s == r then b else At(v, t[j], s)
    {
      LinkChildAt(v, t, own, i, r, b, j, s);
    }
  }

  /** Whether slot s lies in the subtree of root slot r. */
  predicate Under(s: Slot, r: Slot)
    decreases s.Depth()
  {
    s == r || (!s.IsRoot() && Under(s.Parent(), r))
  }

  lemma {:induction false} UnlinkAt(v: Disk, a: Addrs, r: Slot, s: Slot)
    requires r.Valid() && r.IsRoot() && s.Valid()
    ensures At(v, a[r.Root() := 0], s) == if Under(s, r) then 0 else At(v, a, s)
    decreases s.Depth()
  {
    if !s.IsRoot() {
      UnlinkAt(v, a, r, s.Parent());
    }
  }

  /** The blocks of inode i at or below root slot r. */
  function Subtree(own: map<nat, Owner>, i: nat, r: Slot): set<nat>
  {
    set b | b in own && own[b].inum == i && Under(own[b].slot, r)
  }

  /** Clearing a root slot takes its whole subtree, and nothing else, out of the trees. */
  lemma Unlink(v: Disk, sb: Super, t: Trees, reserved: set<nat>, own: map<nat, Owner>, i: nat, r: Slot)
    requires Wf(v, sb, t, reserved, own)
    requires i in t && r.Valid() && r.IsRoot()
    ensures var gone := Subtree(own, i, r);
            Wf(v, sb, t[i := t[i][r.Root() := 0]], reserved + gone, own - gone)
  {
    var gone := Subtree(own, i, r);
    var t' := t[i := t[i][r.Root() := 0]];
    var own' := own - gone;
    forall s: Slot | s.Valid() ensures At(v, t'[i], s) == if Under(s, r) then 0 else At(v, t[i], s) {
      UnlinkAt(v, t[i], r, s);
    }
    assert Held(v, t', own') by {
      forall j, s: Slot | j in t' && s.Valid() ensures Names(own', At(v, t'[j], s), j, s) {
        assert Names(own, At(v, t[j], s), j, s);
      }
    }
    assert Found(v, t', own') by {
      forall b | b in own' ensures At(v, t'[own'[b].inum], own'[b].slot) == b {
        assert At(v, t[own[b].inum], own[b].slot) == b;
      }
    }
  }

  /** Slot s is d or an index block above it. */
  predicate OnPath(s: Slot, d: Slot)
    decreases d.Depth()
  {
    s == d || (!d.IsRoot() && OnPath(s, d.Parent()))
  }

  lemma {:induction false} ParentOnPath(s: Slot, d: Slot)
    requires OnPath(s, d) && !s.IsRoot()
    ensures OnPath(s.Parent(), d)
    decreases d.Depth()
  {
    if s != d {
      ParentOnPath(s, d.Parent());
    }
  }

  /** A later owner table keeps every earlier entry. */
  ghost predicate Extends(own: map<nat, Owner>, own': map<nat, Owner>)
  {
    own.Keys <= own'.Keys && forall b | b in own :: own'[b] == own[b]
  }

  /** Trees only grew, on the path to one data slot of one inode, and no data block changed. */
  ghost predicate Grown(v: Disk, t: Trees, own: map<nat, Owner>, v': Disk, t': Trees, own': map<nat, Owner>, i: nat,
                        d: Slot)
  {
    && t'.Keys == t.Keys
    && Extends(own, own')
    && DataKept(v, v', own)
    && forall j, s: Slot {:trigger At(v', t'[j], s)} | j in t && s.Valid() ::
         At(v', t'[j], s) == At(v, t[j], s) || (j == i && OnPath(s, d) && At(v, t[j], s) == 0)
  }

  lemma GrownTrans(v0: Disk, t0: Trees, own0: map<nat, Owner>, v1: Disk, t1: Trees, own1: map<nat, Owner>,
                   v2: Disk, t2: Trees, own2: map<nat, Owner>, i: nat, d: Slot)
    requires Grown(v0, t0, own0, v1, t1, own1, i, d)
    requires Grown(v1, t1, own1, v2, t2, own2, i, d)
    ensures Grown(v0, t0, own0, v2, t2, own2, i, d)
  {
    forall j, s: Slot {:trigger At(v2, t2[j], s)} | j in t0 && s.Valid()
      ensures At(v2, t2[j], s) == At(v0, t0[j], s) || (j == i && OnPath(s, d) && At(v0, t0[j], s) == 0)
    {
      assert At(v1, t1[j], s) == At(v0, t0[j], s) || (j == i && OnPath(s, d) && At(v0, t0[j], s) == 0);
    }
  }

  /** Overwriting an inode block changes no tree and no bit of the free map. */
  lemma InodeBlockWrite(v: Disk, sb: Super, t: Trees, reserved: set<nat>, own: map<nat, Owner>, i: nat, blk: Block)
    requires Wf(v, sb, t, reserved, own) && i < sb.ninodes
    ensures InodeSector(i) < |v|
    ensures var v' := v[InodeSector(i) := blk];
            Wf(v', sb, t, reserved, own) && SameTrees(v, t, v', t) && DataKept(v, v', own)
  {
    var v' := v[InodeSector(i) := blk];
    assert Accounted(v', sb, reserved, own) by {
      forall c: nat | c < sb.size ensures InUse(v', sb, c) == InUse(v, sb, c) {
        assert BitmapSector(sb, c) != InodeSector(i);
      }
    }
    WfSame(v, sb, t, v', reserved, reserved, own);
  }

  /** Overwriting a data block changes no tree and no bit of the free map. */
  lemma DataBlockWrite(v: Disk, sb: Super, t: Trees, reserved: set<nat>, own: map<nat, Owner>, b: nat, blk: Block)
    requires Wf(v, sb, t, reserved, own)
    requires b in own && own[b].slot.IsData()
    ensures b < |v|
    ensures var v' := v[b := blk];
            Wf(v', sb, t, reserved, own) && SameTrees(v, t, v', t)
  {
    var v' := v[b := blk];
    assert Accounted(v', sb, reserved, own) by {
      forall c: nat | c < sb.size ensures InUse(v', sb, c) == InUse(v, sb, c) {
        assert BitmapSector(sb, c) < DataStart(sb);
      }
    }
    WfSame(v, sb, t, v', reserved, reserved, own);
  }

  lemma GrownByOne(v: Disk, t: Trees, own: map<nat, Owner>, v1: Disk, v2: Disk, t': Trees, i: nat, r: Slot, b: nat,
                   d: Slot)
    requires SameTrees(v, t, v1, t) && OneMore(v1, t, v2, t', i, r, b)
    requires DataKept(v, v1, own) && DataKept(v1, v2, own)
    requires i in t && r.Valid() && OnPath(r, d) && At(v, t[i], r) == 0 && b !in own
    ensures Grown(v, t, own, v2, t', own[b := Owner(i, r)], i, d)
  {
    forall j, s: Slot {:trigger At(v2, t'[j], s)} | j in t && s.Valid()
      ensures At(v2, t'[j], s) == At(v, t[j], s) || (j == i && OnPath(s, d) && At(v, t[j], s) == 0)
    {
      assert At(v1, t[j], s) == At(v, t[j], s);
    }
  }

  lemma EmptySlotUnowned(v: Disk, sb: Super, t: Trees, reserved: set<nat>, own: map<nat, Owner>, i: nat, r: Slot)
    requires Placed(sb, t, reserved, own) && Found(v, t, own)
    requires i in t && r.Valid() && At(v, t[i], r) == 0
    ensures forall c | c in own :: own[c] != Owner(i, r)
  {
    forall c | c in own ensures own[c] != Owner(i, r) {
      assert At(v, t[own[c].inum], own[c].slot) == c;
    }
  }

  lemma SameOwner(v: Disk, sb: Super, t: Trees, reserved: set<nat>, own: map<nat, Owner>, b: nat, c: nat)
    requires Placed(sb, t, reserved, own) && Found(v, t, own)
    requires b in own && c in own && own[b] == own[c]
    ensures b == c
  {
    assert At(v, t[own[b].inum], own[b].slot) == b && At(v, t[own[c].inum], own[c].slot) == c;
  }

  /** Disk v1 is v after allocation set block b aside. */
  ghost predicate SetAside(v: Disk, v1: Disk, sb: Super, t: Trees, reserved: set<nat>, own: map<nat, Owner>, b: nat)
  {
    && DataStart(sb) <= b && b !in reserved && b !in own
    && Wf(v1, sb, t, reserved + {b}, own)
    && SameTrees(v, t, v1, t) && DataKept(v, v1, own) && HeadKept(v, v1, sb) && v1[b] == ZeroBlock()
  }

  /** Filling an empty slot of the inode itself with a fresh block. */
  lemma AllocRoot(v: Disk, v1: Disk, sb: Super, t: Trees, reserved: set<nat>, own: map<nat, Owner>, i: nat, r: Slot,
                  b: Uint, d: Slot)
    requires SetAside(v, v1, sb, t, reserved, own, b)
    requires i in t && r.Valid() && r.IsRoot() && At(v, t[i], r) == 0 && OnPath(r, d)
    ensures var t' := t[i := t[i][r.Root() := b]];
            var own' := own[b := Owner(i, r)];
            && Wf(v1, sb, t', reserved, own') && Grown(v, t, own, v1, t', own', i, d) && At(v1, t'[i], r) == b
            && forall c | c in own :: own[c] != Owner(i, r)
  {
    assert At(v1, t[i], r) == 0;
    EmptySlotUnowned(v1, sb, t, reserved + {b}, own, i, r);
    LinkRoot(v1, sb, t, reserved + {b}, own, i, r, b);
    assert reserved + {b} - {b} == reserved;
    GrownByOne(v, t, own, v1, v1, t[i := t[i][r.Root() := b]], i, r, b, d);
  }

  /** Filling an empty entry of a present index block with a fresh block. */
  lemma AllocChild(v: Disk, v1: Disk, v2: Disk, sb: Super, t: Trees, reserved: set<nat>, own: map<nat, Owner>, i: nat,
                   r: Slot,
                   p: nat, b: Uint, d: Slot)
    requires SetAside(v, v1, sb, t, reserved, own, b)
    requires i in t && r.Valid() && !r.IsRoot() && At(v, t[i], r) == 0 && OnPath(r, d)
    requires p == At(v, t[i], r.Parent()) != 0 && p < |v1| && v2 == v1[p := PutWord(v1[p], r.Index(), b)]
    ensures Wf(v2, sb, t, reserved, own[b := Owner(i, r)])
    ensures Grown(v, t, own, v2, t, own[b := Owner(i, r)], i, d) && HeadKept(v, v2, sb)
    ensures At(v2, t[i], r) == b
    ensures forall c | c in own :: own[c] != Owner(i, r)
  {
    assert At(v1, t[i], r.Parent()) == p && At(v1, t[i], r) == 0;
    EmptySlotUnowned(v1, sb, t, reserved + {b}, own, i, r);
    LinkChild(v1, sb, t, reserved + {b}, own, i, r, b);
    assert reserved + {b} - {b} == reserved;
    GrownByOne(v, t, own, v1, v2, t, i, r, b, d);
  }

  /** The index block above a filled slot is itself owned. */
  lemma IndexOwned(v: Disk, sb: Super, t: Trees, reserved: set<nat>, own: map<nat, Owner>, i: nat, s: Slot)
    requires Wf(v, sb, t, reserved, own)
    requires i in t && s.Valid() && At(v, t[i], s) != 0
    ensures var b := At(v, t[i], s);
            b in own && own[b] == Owner(i, s) && DataStart(sb) <= b < |v|
  {
    assert Names(own, At(v, t[i], s), i, s);
  }

  /** Only blocks of the free map differ. */
  ghost predicate OnlyMaps(v: Disk, v': Disk, sb: Super)
  {
    HeadKept(v, v', sb) && forall c :: DataStart(sb) <= c < |v| ==> v'[c] == v[c]
  }

  /** Freeing a block held aside, as bfree does it. */
  lemma FreeAside(v: Disk, sb: Super, t: Trees, reserved: set<nat>, own: map<nat, Owner>, b: nat)
    requires Wf(v, sb, t, reserved + {b}, own) && b !in reserved && DataStart(sb) <= b
    ensures b < sb.size && InUse(v, sb, b)
    ensures Wf(Unmarked(v, sb, b), sb, t, reserved, own) && OnlyMaps(v, Unmarked(v, sb, b), sb)
  {
    Release(v, sb, t, reserved + {b}, own, b);
    assert reserved + {b} - {b} == reserved;
  }

  /** A direct block leaves the tree. */
  lemma UnlinkDirect(v: Disk, sb: Super, t: Trees, reserved: set<nat>, own: map<nat, Owner>, i: nat, k: nat)
    requires Wf(v, sb, t, reserved, own) && i in t && k < NDIRECT && t[i][k] != 0
    ensures var b := t[i][k];
            && b in own && own[b] == Owner(i, Direct(k)) && DataStart(sb) <= b < sb.size && b !in reserved
            && Wf(v, sb, t[i := t[i][k := 0]], reserved + {b}, own - {b})
  {
    var b := t[i][k];
    assert At(v, t[i], Direct(k)) == b;
    assert Names(own, b, i, Direct(k));
    Unlink(v, sb, t, reserved, own, i, Direct(k));
    assert Subtree(own, i, Direct(k)) == {b} by {
      forall c | c in Subtree(own, i, Direct(k)) ensures c == b {
        UnderDirect(own[c].slot, k);
        SameOwner(v, sb, t, reserved, own, b, c);
      }
    }
  }

  lemma UnderDirect(s: Slot, k: nat)
    ensures Under(s, Direct(k)) <==> s == Direct(k)
    decreases s.Depth()
  {
    if !s.IsRoot() {
      UnderDirect(s.Parent(), k);
    }
  }

  lemma UnderInd(s: Slot)
    ensures Under(s, Ind) <==> s == Ind || s.IndData?
  {
  }

  /** The blocks of inode i's second tier from entry j on, with the indirect block itself. */
  ghost function SecondTier(own: map<nat, Owner>, i: nat, j: nat): set<nat>
  {
    set b | b in own && own[b].inum == i && (own[b].slot == Ind || (own[b].slot.IndData? && j <= own[b].slot.j))
  }

  /** The second tier leaves the tree. */
  lemma UnlinkSecondTier(v: Disk, sb: Super, t: Trees, reserved: set<nat>, own: map<nat, Owner>, i: nat)
    requires Wf(v, sb, t, reserved, own) && i in t
    ensures var gone := SecondTier(own, i, 0);
            Wf(v, sb, t[i := t[i][NDIRECT := 0]], reserved + gone, own - gone)
  {
    Unlink(v, sb, t, reserved, own, i, Ind);
    assert Subtree(own, i, Ind) == SecondTier(own, i, 0) by {
      forall b | b in own ensures Under(own[b].slot, Ind) <==> own[b].slot == Ind || own[b].slot.IndData? {
        UnderInd(own[b].slot);
      }
    }
  }

  /** Taking entry j out of what is left of the second tier. */
  lemma SecondTierStep(v: Disk, sb: Super, t: Trees, reserved: set<nat>, own: map<nat, Owner>, i: nat, j: nat)
    requires Wf(v, sb, t, reserved, own) && i in t && j < NINDIRECT && t[i][NDIRECT] != 0
    ensures t[i][NDIRECT] in own && DataStart(sb) <= t[i][NDIRECT] < |v|
    ensures var b := Word(v[t[i][NDIRECT]], j);
            if b == 0 then SecondTier(own, i, j) == SecondTier(own, i, j + 1)
            else
              && b !in reserved && DataStart(sb) <= b < sb.size
              && b in SecondTier(own, i, j) && SecondTier(own, i, j) - {b} == SecondTier(own, i, j + 1)
  {
    var p := t[i][NDIRECT];
    assert At(v, t[i], Ind) == p && Names(own, p, i, Ind);
    var b := At(v, t[i], IndData(j));
    assert b == Word(v[p], j) && Names(own, b, i, IndData(j));
    forall c | c in own && own[c] == Owner(i, IndData(j)) ensures c == b {
      assert At(v, t[own[c].inum], own[c].slot) == c;
    }
  }

  lemma SecondTierEnd(v: Disk, sb: Super, t: Trees, reserved: set<nat>, own: map<nat, Owner>, i: nat)
    requires Wf(v, sb, t, reserved, own) && i in t && t[i][NDIRECT] != 0
    ensures SecondTier(own, i, NINDIRECT) == {t[i][NDIRECT]}
    ensures t[i][NDIRECT] in own && t[i][NDIRECT] !in reserved && DataStart(sb) <= t[i][NDIRECT] < |v|
  {
    var p := t[i][NDIRECT];
    assert At(v, t[i], Ind) == p && Names(own, p, i, Ind);
    forall c | c in SecondTier(own, i, NINDIRECT) ensures c == p {
      assert At(v, t[own[c].inum], own[c].slot) == c;
    }
  }
}
