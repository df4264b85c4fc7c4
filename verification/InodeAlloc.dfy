/**
The life of an inode: ialloc takes the first free one, iput frees one that has no links, and what ialloc then wipes
stays marked in the free map without a file.
*/
module InodeAllocs {
  import opened Blocks
  import opened BlockTree
  import opened Inodes
  import opened Format
  import opened FileContent
  import opened LogHeader
  import opened LogBooks
  import opened FileSystems

  /** The blocks of inode i. */
  ghost function BlocksOf(own: map<nat, Owner>, i: nat): (r: set<nat>)
    ensures forall b :: b in r <==> b in own && own[b].inum == i
  {
    set b | b in own && own[b].inum == i
  }

  /** With inode i's addresses wiped its blocks are marked, and in no tree. */
  lemma WipedWf(v: Disk, sb: Super, t: Trees, reserved: set<nat>, own: map<nat, Owner>, i: nat)
    requires Wf(v, sb, t, reserved, own) && i in t
    ensures Wf(v, sb, t[i := EmptyAddrs()], reserved + BlocksOf(own, i), own - BlocksOf(own, i))
  {
    var gone := BlocksOf(own, i);
    var t' := t[i := EmptyAddrs()];
    var own' := own - gone;
    assert Held(v, t', own') by {
      forall j, s: Slot | j in t' && s.Valid() ensures Names(own', At(v, t'[j], s), j, s) {
        EmptyAt(v, s);
        assert Names(own, At(v, t[j], s), j, s);
      }
    }
    assert Placed(sb, t', reserved + gone, own');
    assert Found(v, t', own') by {
      forall b | b in own' ensures At(v, t'[own'[b].inum], own'[b].slot) == b {
        assert At(v, t[own[b].inum], own[b].slot) == b;
      }
    }
  }

  /** Only sectors before the data blocks are logged. */
  ghost predicate HeadOnly(lh: seq<nat>, sb: Super)
  {
    forall x | x in lh :: x < DataStart(sb)
  }

  /** The books after inode i's blocks left the trees. */
  ghost function Forgot(g: Books, i: nat): Books
  {
    var gone := BlocksOf(g.own, i);
    Opened(g.reserved + gone, g.own - gone).(others := g.others + g.blocks.Values + g.maps)
  }

  lemma ForgotBooks(lh: seq<nat>, g: Books, sb: Super, logSize: nat, i: nat)
    requires Listing(lh, g, sb, logSize) && Sorted(lh, g) && HeadOnly(lh, sb)
    ensures var g' := Forgot(g, i);
            && Listing(lh, g', sb, logSize) && Sorted(lh, g') && Filed(g'.own, g'.blocks) && Tracked(g', sb)
            && Linked(g') && Posted(g')
  {
    var g' := Forgot(g, i);
    OpenedTracked(g'.reserved, g'.own, sb);
    TrackedOthers(Opened(g'.reserved, g'.own), sb, g'.others);
    assert forall o | o in g.blocks :: g.blocks[o] in g.blocks.Values;
    forall k | 0 <= k < |lh| ensures Loggable(lh[k], sb, g'.reserved) {
      assert lh[k] in lh && Loggable(lh[k], sb, g.reserved);
    }
  }

  /** The disk and the inodes after fields of inode i other than its size were changed and stored. */
  lemma Relabelled(v: Disk, sb: Super, t: Trees, g: Books, m: map<nat, Meta>, i: nat, n: Meta)
    requires Wf(v, sb, t, g.reserved, g.own) && AllSynced(v, sb, t, m) && AllBacked(v, t, m) && i in t
    requires n.size == m[i].size
    ensures InodeSector(i) < |v|
    ensures var v', m' := Stored(v, i, Inode(n, t[i])), m[i := n];
            AllSynced(v', sb, t, m') && AllBacked(v', t, m') && FilesOf(v', t, m') == FilesOf(v, t, m)
  {
    StoreSynced(v, v, sb, t, m, i, t[i], n);
    assert t[i := t[i]] == t;
    StoredElsewhere(v, i, Inode(n, t[i]), sb);
    var v' := Stored(v, i, Inode(n, t[i]));
    RelabelledFiles(v, sb, t, g, m, v', i, n);
  }

  lemma RelabelledFiles(v: Disk, sb: Super, t: Trees, g: Books, m: map<nat, Meta>, v': Disk, i: nat, n: Meta)
    requires Wf(v, sb, t, g.reserved, g.own) && AllBacked(v, t, m) && i in t && n.size == m[i].size && |v'| == |v|
    requires forall c :: DataStart(sb) <= c < |v| ==> v'[c] == v[c]
    ensures AllBacked(v', t, m[i := n]) && FilesOf(v', t, m[i := n]) == FilesOf(v, t, m)
  {
    hide Content;
    hide Backed;
    forall j | j in t
      ensures Content(v', t[j], m[j].size) == Content(v, t[j], m[j].size)
      ensures Backed(v', t[j], m[j].size)
    {
      BodyKeptContent(v, sb, t, g.reserved, g.own, v', j, m[j].size);
    }
    assert FilesOf(v', t, m[i := n]) == FilesOf(v, t, m);
  }

  /** Sets the fields of an inode that create and the link calls set, and stores it. */
  method Label(fs: FileSystem, i: nat, major: Short, minor: Short, nlink: Short) returns (halt: Halt)
    requires fs.Consistent() && i in fs.trees
    modifies fs
    ensures halt.Running? || halt.LogFull?
    ensures i in fs.meta && fs.trees == old(fs.trees)
    ensures halt.Running? ==>
              && fs.Consistent() && fs.g.reserved == old(fs.g).reserved && fs.g.own == old(fs.g).own
              && fs.lh == Absorb(old(fs.lh), InodeSector(i))
              && fs.meta == old(fs.meta)[i := old(fs.meta)[i].(major := major, minor := minor, nlink := nlink)]
              && fs.Contents() == old(fs.Contents())
  {
    hide Wf;
    hide Listing;
    hide Sorted;
    hide Filed;
    hide Tracked;
    hide Linked;
    hide Posted;
    hide AllSynced;
    hide AllBacked;
    hide FilesOf;
    hide Absorb;
    hide Recorded;
    ghost var n := fs.meta[i].(major := major, minor := minor, nlink := nlink);
    Relabelled(fs.view, fs.sb, fs.trees, fs.g, fs.meta, i, n);
    fs.meta := fs.meta[i := fs.meta[i].(major := major, minor := minor, nlink := nlink)];
    halt := fs.Iupdate(i);
    if halt.Running? {
      RecordedThen(fs.disk, [], old(fs.view), old(fs.lh), fs.view, fs.lh);
    }
  }

  /** Frees inode i when no name refers to it and, as `last` says, no other use of it is left. */
  method Iput(fs: FileSystem, i: nat, last: bool) returns (halt: Halt)
    requires fs.Consistent() && i in fs.trees
    modifies fs
    ensures i in old(fs.meta)
    ensures !(last && old(fs.meta)[i].nlink == 0) ==> halt.Running? && unchanged(fs)
    ensures halt.Running? || (halt.LogFull? && fs.Full())
    ensures Listing(fs.lh, fs.g, fs.sb, fs.logSize) && MapsLogged(old(fs.lh) + [InodeSector(i)], fs.lh, fs.sb)
    ensures last && old(fs.meta)[i].nlink == 0 && halt.Running? ==>
              && fs.Consistent() && fs.trees == old(fs.trees)[i := Cleared(old(fs.trees)[i], NDIRECT + 1)]
              && fs.meta == old(fs.meta)[i := old(fs.meta)[i].(kind := 0, size := 0)]
              && fs.g.reserved == old(fs.g).reserved && fs.g.own == old(fs.g).own - UpperTiers(old(fs.g).own, i)
              && fs.Contents() == old(fs.Contents())[i := []]
  {
    hide Wf;
    hide Listing;
    hide Sorted;
    hide Filed;
    hide Tracked;
    hide Linked;
    hide Posted;
    hide AllSynced;
    hide AllBacked;
    hide FilesOf;
    hide Absorb;
    hide MapsLogged;
    hide Cleared;
    hide UpperTiers;
    hide Recorded;
    MapsLoggedRefl(fs.lh, fs.sb);
    MapsLoggedMore(fs.lh, fs.lh, InodeSector(i), fs.sb);
    if !(last && fs.meta[i].nlink == 0) {
      return Running;
    }
    halt := fs.Itrunc(i);
    if !halt.Running? {
      return;
    }
    ghost var v1, m1, lh1 := fs.view, fs.meta, fs.lh;
    Relabelled(fs.view, fs.sb, fs.trees, fs.g, fs.meta, i, fs.meta[i].(kind := 0));
    fs.meta := fs.meta[i := fs.meta[i].(kind := 0)];
    FreedMeta(old(fs.meta), m1, fs.meta, i);
    halt := fs.Iupdate(i);
    AbsorbedAgain(old(fs.lh), lh1, InodeSector(i), fs.sb);
    if halt.Running? {
      RecordedThen(fs.disk, [], v1, lh1, fs.view, fs.lh);
    }
  }

  lemma FreedMeta(m0: map<nat, Meta>, m1: map<nat, Meta>, m2: map<nat, Meta>, i: nat)
    requires i in m0 && m1 == m0[i := m0[i].(size := 0)] && m2 == m1[i := m1[i].(kind := 0)]
    ensures m2 == m0[i := m0[i].(kind := 0, size := 0)]
  {
  }

  lemma AbsorbedAgain(l0: seq<nat>, l1: seq<nat>, x: nat, sb: Super)
    requires MapsLogged(l0 + [x], l1, sb)
    ensures MapsLogged(l0 + [x], Absorb(l1, x), sb)
  {
  }

  /** The inode as it is in its inode block. */
  function OnBlock(v: Disk, i: nat): Inode
    requires InodeSector(i) < |v|
  {
    GetImage(v[InodeSector(i)], Base(i))
  }

  lemma KindOnBlock(v: Disk, sb: Super, t: Trees, m: map<nat, Meta>, i: nat)
    requires Sized(v, sb) && AllSynced(v, sb, t, m) && i in t
    ensures InodeSector(i) < |v| && OnBlock(v, i) == Inode(m[i], t[i])
  {
    assert OnDisk(v, i, Inode(m[i], t[i]));
    ImageRoundTrip(v[InodeSector(i)], Base(i), Inode(m[i], t[i]));
  }

  /** Inode i is the first after inode 0 that is free. */
  ghost predicate FirstFreeInode(m: map<nat, Meta>, i: nat)
  {
    1 <= i && i in m && m[i].kind == 0 && NoFreeInode(m, i)
  }

  /** No inode before n is free, but for inode 0. */
  ghost predicate NoFreeInode(m: map<nat, Meta>, n: nat)
  {
    forall j: nat :: 1 <= j < n && j in m ==> m[j].kind != 0
  }

  /** Looks for a free inode on the disk. */
  method FindInode(view: Disk, sb: Super, ghost t: Trees, ghost m: map<nat, Meta>) returns (found: bool, i: nat)
    requires Sized(view, sb) && AllSynced(view, sb, t, m) && t.Keys == UpTo(sb.ninodes)
    ensures found ==> i in t && FirstFreeInode(m, i)
    ensures !found ==> NoFreeInode(m, sb.ninodes)
  {
    hide OnBlock;
    found, i := false, 1;
    while i < sb.ninodes
      invariant 1 <= i && NoFreeInode(m, i)
    {
      KindOnBlock(view, sb, t, m, i);
      if OnBlock(view, i).meta.kind == 0 {
        return true, i;
      }
      i := i + 1;
    }
  }

  /** Wipes the inode, marks it as being of the given kind and logs its block. Blocks it still had are lost. */
  method Wipe(fs: FileSystem, i: nat, kind: Short) returns (halt: Halt)
    requires fs.Consistent() && i in fs.trees && HeadOnly(fs.lh, fs.sb)
    modifies fs
    ensures halt.Running? || halt.LogFull?
    ensures i in old(fs.meta)
    ensures halt == if |old(fs.lh)| < LOGSIZE && |old(fs.lh)| < fs.logSize - 1 then Running else LogFull
    ensures halt.Running? ==>
              && fs.Consistent() && fs.lh == Absorb(old(fs.lh), InodeSector(i))
              && fs.trees == old(fs.trees)[i := EmptyAddrs()] && fs.meta == old(fs.meta)[i := Meta(kind, 0, 0, 0, 0)]
              && fs.g.reserved == old(fs.g).reserved + BlocksOf(old(fs.g).own, i)
              && fs.g.own == old(fs.g).own - BlocksOf(old(fs.g).own, i)
              && fs.Contents() == old(fs.Contents())[i := []]
  {
    hide Wf;
    hide Listing;
    hide Sorted;
    hide Filed;
    hide Tracked;
    hide Linked;
    hide Posted;
    hide AllSynced;
    hide AllBacked;
    hide FilesOf;
    hide Absorb;
    hide BlocksOf;
    hide EmptyAddrs;
    hide HeadOnly;
    hide OnlyMaps;
    hide Recorded;
    OnlyMapsRefl(fs.view, fs.sb, fs.trees, fs.g);
    EmptiedFile(fs.view, fs.sb, fs.trees, fs.g, fs.meta, fs.view, i, EmptyAddrs(), Meta(kind, 0, 0, 0, 0));
    WipedWf(fs.view, fs.sb, fs.trees, fs.g.reserved, fs.g.own, i);
    ForgotBooks(fs.lh, fs.g, fs.sb, fs.logSize, i);
    fs.trees, fs.meta, fs.g := fs.trees[i := EmptyAddrs()], fs.meta[i := Meta(kind, 0, 0, 0, 0)], Forgot(fs.g, i);
    halt := fs.Iupdate(i);
    if halt.Running? {
      RecordedThen(fs.disk, [], old(fs.view), old(fs.lh), fs.view, fs.lh);
    }
  }

  lemma OnlyMapsRefl(v: Disk, sb: Super, t: Trees, g: Books)
    requires Wf(v, sb, t, g.reserved, g.own)
    ensures OnlyMaps(v, v, sb)
  {
  }

  /** Takes the first free inode for a file of the given kind. */
  method Ialloc(fs: FileSystem, kind: Short) returns (halt: Halt, i: nat)
    requires fs.Consistent() && fs.trees.Keys == UpTo(fs.sb.ninodes) && HeadOnly(fs.lh, fs.sb)
    modifies fs
    ensures halt.Running? || halt.LogFull? || halt.NoInodes?
    ensures halt.NoInodes? <==> NoFreeInode(old(fs.meta), fs.sb.ninodes)
    ensures halt.NoInodes? ==> unchanged(fs)
    ensures !halt.NoInodes? ==> i in old(fs.trees) && FirstFreeInode(old(fs.meta), i)
    ensures !halt.NoInodes? ==>
              halt == if |old(fs.lh)| < LOGSIZE && |old(fs.lh)| < fs.logSize - 1 then Running else LogFull
    ensures halt.Running? ==>
              && fs.Consistent() && fs.lh == Absorb(old(fs.lh), InodeSector(i))
              && fs.trees == old(fs.trees)[i := EmptyAddrs()] && fs.meta == old(fs.meta)[i := Meta(kind, 0, 0, 0, 0)]
              && fs.g.reserved == old(fs.g).reserved + BlocksOf(old(fs.g).own, i)
              && fs.g.own == old(fs.g).own - BlocksOf(old(fs.g).own, i)
              && fs.Contents() == old(fs.Contents())[i := []]
  {
    var found;
    SizedOf(fs.view, fs.sb, fs.trees, fs.g);
    found, i := FindInode(fs.view, fs.sb, fs.trees, fs.meta);
    if !found {
      return NoInodes, 0;
    }
    InodeBelow(fs, i);
    hide FileSystem.Consistent;
    hide FileSystem.Contents;
    halt := Wipe(fs, i, kind);
  }

  lemma InodeBelow(fs: FileSystem, i: nat)
    requires fs.Consistent() && i in fs.trees && FirstFreeInode(fs.meta, i)
    ensures !NoFreeInode(fs.meta, fs.sb.ninodes)
  {
    assert i < fs.sb.ninodes;
  }

  // ---- What is lost ----

  /** Outside the doubly indirect tier the inode has no block. */
  ghost predicate ThirdOnly(a: Addrs)
  {
    forall k :: 0 <= k <= NDIRECT ==> a[k] == 0
  }

  /** Wiping an inode loses blocks exactly when one of its addresses is set. */
  lemma WipeLoses(v: Disk, sb: Super, t: Trees, reserved: set<nat>, own: map<nat, Owner>, i: nat)
    requires Wf(v, sb, t, reserved, own) && i in t
    ensures BlocksOf(own, i) == {} <==> t[i] == EmptyAddrs()
  {
    if BlocksOf(own, i) == {} {
      forall k | 0 <= k < NADDRS ensures t[i][k] == 0 {
        var r := if k < NDIRECT then Direct(k) else if k == NDIRECT then Ind else Dbl;
        assert At(v, t[i], r) == t[i][k];
        assert Names(own, t[i][k], i, r);
      }
    }
    if t[i] == EmptyAddrs() {
      forall b | b in own ensures own[b].inum != i {
        assert At(v, t[own[b].inum], own[b].slot) == b;
        EmptyAt(v, own[b].slot);
      }
    }
  }

  /** iput leaves only the doubly indirect tier, so ialloc loses blocks exactly when the inode had one. */
  lemma ReuseLoses(v: Disk, sb: Super, t: Trees, reserved: set<nat>, own: map<nat, Owner>, i: nat)
    requires Wf(v, sb, t, reserved, own) && i in t && ThirdOnly(t[i])
    ensures BlocksOf(own, i) == {} <==> t[i][NDIRECT + 1] == 0
  {
    WipeLoses(v, sb, t, reserved, own, i);
    if t[i][NDIRECT + 1] == 0 {
      assert t[i] == EmptyAddrs();
    }
  }

  /** iput logs free-map blocks and the inode's block only. */
  lemma {:induction false} PutFits(lh: seq<nat>, sb: Super, x: nat)
    requires Distinct(lh) && MapsLogged([x], lh, sb)
    ensures |lh| <= sb.size / BPB + 2
  {
    var maps := Sectors(BitmapSector(sb, 0), DataStart(sb));
    DistinctBound(lh, maps + {x});
  }

  ghost function Sectors(lo: nat, hi: nat): (r: set<nat>)
    requires lo <= hi
    ensures |r| == hi - lo && forall x :: x in r <==> lo <= x < hi
    decreases hi
  {
    if lo == hi then {} else Sectors(lo, hi - 1) + {hi - 1}
  }

  /** A block that is lost is marked, in no tree, and was not reserved before. */
  lemma LostBlock(v: Disk, sb: Super, t: Trees, reserved: set<nat>, own: map<nat, Owner>, i: nat)
    requires Wf(v, sb, t, reserved, own) && i in t && t[i][NDIRECT + 1] != 0
    ensures t[i][NDIRECT + 1] in BlocksOf(own, i) && t[i][NDIRECT + 1] !in reserved
  {
    assert At(v, t[i], Dbl) == t[i][NDIRECT + 1];
    assert Names(own, t[i][NDIRECT + 1], i, Dbl);
  }
}
