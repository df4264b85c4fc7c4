/**
How much one write puts in the log, counted on the disk before it: the file blocks written, the index blocks that get
an entry, and the free-map blocks of the blocks first fit will hand out.
*/
module WriteLoads {
  import opened Blocks
  import opened BlockTree
  import opened LogHeader
  import opened Spans
  import opened LogBooks

  function Take<T>(s: seq<T>, n: nat): seq<T>
  {
    if n <= |s| then s[..n] else s
  }

  /** The sectors logged before the inode's own. */
  ghost function Load(sb: Super, empties: set<Slot>, free: seq<nat>, blocks: nat): nat
  {
    blocks + |Parents(empties)| + |MapsOf(sb, Take(free, |empties|))|
  }

  // ---- Counting ----

  lemma {:induction false} SeqBound<T>(s: seq<T>, bound: set<T>)
    requires (forall i, j :: 0 <= i < j < |s| ==> s[i] != s[j]) && forall x | x in s :: x in bound
    ensures |s| <= |bound|
  {
    if s != [] {
      var last, rest := s[|s| - 1], s[..|s| - 1];
      SeqBound(rest, bound - {last});
    }
  }

  lemma {:induction false} SetBound<T>(s: seq<T>, part: set<T>)
    requires forall x | x in part :: x in s
    ensures |part| <= |s|
    decreases |s|
  {
    if s == [] {
      assert part == {};
    } else {
      var last, rest := s[|s| - 1], s[..|s| - 1];
      forall x | x in part - {last} ensures x in rest {
        assert s == rest + [last];
      }
      SetBound(rest, part - {last});
    }
  }

  lemma SubsetSize<T>(a: set<T>, b: set<T>)
    requires a <= b
    ensures |a| <= |b|
  {
    assert b == a + (b - a);
  }

  lemma UnionSize<T>(a: set<T>, b: set<T>)
    ensures |a + b| <= |a| + |b| && (a !! b ==> |a + b| == |a| + |b|)
  {
    assert a + b == a + (b - a);
    SubsetSize(b - a, b);
    assert a !! b ==> b - a == b;
  }

  /** The owners of some slots of inode i. */
  ghost function Owners(i: nat, slots: set<Slot>): (r: set<Owner>)
    ensures forall o :: o in r <==> o.inum == i && o.slot in slots
  {
    set s | s in slots :: Owner(i, s)
  }

  lemma {:induction false} OwnersSize(i: nat, slots: set<Slot>)
    ensures |Owners(i, slots)| == |slots|
    decreases |slots|
  {
    if slots == {} {
      assert Owners(i, slots) == {};
    } else {
      var s :| s in slots;
      OwnersSize(i, slots - {s});
      assert Owners(i, slots) == Owners(i, slots - {s}) + {Owner(i, s)};
    }
  }

  /** The data slots of file blocks lo..hi. */
  ghost function DataSet(lo: nat, hi: nat): (r: set<Slot>)
    requires hi <= MAXFILE
    ensures forall s: Slot :: s in r ==> DataIn(s, lo, hi)
    ensures forall bn: nat {:trigger DataSlot(bn)} :: lo <= bn < hi ==> DataSlot(bn) in r
    ensures |r| == if lo <= hi then hi - lo else 0
    decreases hi
  {
    if hi <= lo then {} else DataSet(lo, hi - 1) + {DataSlot(hi - 1)}
  }

  lemma DataSetHas(s: Slot, lo: nat, hi: nat)
    requires hi <= MAXFILE && DataIn(s, lo, hi)
    ensures s in DataSet(lo, hi)
  {
    SlotOfBlock(s);
  }

  lemma SlotOfBlock(s: Slot)
    requires s.Valid() && s.IsData()
    ensures FileBlock(s) < MAXFILE && DataSlot(FileBlock(s)) == s
  {
  }

  lemma {:induction false} ValuesSize(own: map<nat, Owner>, m: map<Owner, nat>)
    requires Filed(own, m)
    ensures |m.Values| == |m.Keys|
    decreases |m.Keys|
  {
    if m.Keys != {} {
      var k :| k in m.Keys;
      var rest := m - {k};
      ValuesSize(own, rest);
      assert m.Keys == rest.Keys + {k};
      assert m[k] !in rest.Values;
      assert m.Values == rest.Values + {m[k]};
    }
  }

  // ---- One transaction ----

  /** The slots on the paths to file blocks lo..hi of inode i that have no block. */
  ghost function Wanted(own: map<nat, Owner>, i: nat, lo: nat, hi: nat): (r: set<Slot>)
    ensures forall s :: s in r <==> InSpan(s, lo, hi) && Owner(i, s) !in own.Values
  {
    set s | s in SpanSet(lo, hi) && Owner(i, s) !in own.Values
  }

  lemma WantedIs(v: Disk, sb: Super, t: Trees, reserved: set<nat>, own: map<nat, Owner>, i: nat, lo: nat, hi: nat)
    requires Wf(v, sb, t, reserved, own) && i in t
    ensures Wanted(own, i, lo, hi) == Empties(v, t[i], lo, hi)
  {
    forall s | InSpan(s, lo, hi) ensures s.Valid() && (At(v, t[i], s) == 0 <==> Owner(i, s) !in own.Values) {
      SpanValid(s, lo, hi);
      EmptyIff(v, sb, t, reserved, own, i, s);
    }
  }

  /** The books of a transaction that began with owners `own` and has worked on file blocks lo..hi of inode i only. */
  ghost predicate Working(g: Books, own: map<nat, Owner>, sb: Super, i: nat, lo: nat, hi: nat)
  {
    && g.base == own && Tracked(g, sb)
    && (forall o | o in g.filled :: o.inum == i && InSpan(o.slot, lo, hi))
    && (forall o | o in g.wrote :: o.inum == i && DataIn(o.slot, lo, hi))
  }

  lemma FilledWanted(g: Books, own: map<nat, Owner>, sb: Super, i: nat, lo: nat, hi: nat)
    requires Working(g, own, sb, i, lo, hi)
    ensures forall o | o in g.filled :: o in Owners(i, Wanted(own, i, lo, hi))
    ensures |g.given| == |g.filled| <= |Wanted(own, i, lo, hi)|
  {
    OwnersSize(i, Wanted(own, i, lo, hi));
    SeqBound(g.filled, Owners(i, Wanted(own, i, lo, hi)));
  }

  /** Above a slot with a block every index block is there. */
  lemma {:induction false} OwnedAbove(v: Disk, sb: Super, t: Trees, reserved: set<nat>, own: map<nat, Owner>, i: nat,
                                      s: Slot, d: Slot)
    requires Wf(v, sb, t, reserved, own) && i in t && d.Valid() && OnPath(s, d) && Owner(i, d) in own.Values
    ensures Owner(i, s) in own.Values
    decreases d.Depth()
  {
    if s != d {
      EmptyIff(v, sb, t, reserved, own, i, d);
      EmptyIff(v, sb, t, reserved, own, i, d.Parent());
      ParentPresent(v, t[i], d);
      OwnedAbove(v, sb, t, reserved, own, i, s, d.Parent());
    }
  }

  /** A missing index block names another missing block. */
  lemma IndexNames(v: Disk, sb: Super, t: Trees, reserved: set<nat>, own: map<nat, Owner>, i: nat, lo: nat, hi: nat,
                   s: Slot)
    requires Wf(v, sb, t, reserved, own) && i in t && s in Wanted(own, i, lo, hi) && !s.IsData()
    ensures s in Parents(Wanted(own, i, lo, hi))
  {
    var bn: nat :| lo <= bn < hi && bn < MAXFILE && OnPath(s, DataSlot(bn));
    var c := ChildOnPath(s, DataSlot(bn));
    assert InSpan(c, lo, hi);
    PathValid(c, DataSlot(bn));
    if Owner(i, c) in own.Values {
      assert OnPath(c.Parent(), c);
      OwnedAbove(v, sb, t, reserved, own, i, s, c);
      assert false;
    }
    assert c in Wanted(own, i, lo, hi) && c.Parent() == s;
  }

  /** The slots whose blocks a write logs. */
  ghost function Touched(own: map<nat, Owner>, i: nat, lo: nat, hi: nat): (r: set<Slot>)
    requires hi <= MAXFILE
  {
    DataSet(lo, hi) + Parents(Wanted(own, i, lo, hi))
  }

  lemma TouchedSize(own: map<nat, Owner>, i: nat, lo: nat, hi: nat)
    requires lo <= hi <= MAXFILE
    ensures |Owners(i, Touched(own, i, lo, hi))| == hi - lo + |Parents(Wanted(own, i, lo, hi))|
  {
    OwnersSize(i, Touched(own, i, lo, hi));
    var p := Parents(Wanted(own, i, lo, hi));
    forall s | s in p ensures !s.IsData() {
    }
    UnionSize(DataSet(lo, hi), p);
  }

  lemma ParentOf(A: set<Slot>, s: Slot)
    requires s in A && !s.IsRoot()
    ensures s.Parent() in Parents(A)
  {
  }

  /** No other tree block is logged. */
  lemma OnlyTouched(v: Disk, sb: Super, t: Trees, own: map<nat, Owner>, g: Books, i: nat, lo: nat, hi: nat, o: Owner)
    requires Wf(v, sb, t, g.reserved, own) && i in t && lo <= hi <= MAXFILE && Working(g, own, sb, i, lo, hi)
    requires o in g.blocks
    ensures o in Owners(i, Touched(own, i, lo, hi))
  {
    FilledWanted(g, own, sb, i, lo, hi);
    if o in g.wrote {
      DataSetHas(o.slot, lo, hi);
    } else if o in g.filled {
      if o.slot.IsData() {
        WantedData(own, i, lo, hi, o.slot);
      } else {
        IndexNames(v, sb, t, g.reserved, own, i, lo, hi, o.slot);
      }
    } else {
      var q :| q in g.filled && !q.slot.IsRoot() && Owner(q.inum, q.slot.Parent()) == o;
      ParentOf(Wanted(own, i, lo, hi), q.slot);
    }
  }

  lemma WantedData(own: map<nat, Owner>, i: nat, lo: nat, hi: nat, s: Slot)
    requires hi <= MAXFILE && s in Wanted(own, i, lo, hi) && s.IsData()
    ensures s in DataSet(lo, hi)
  {
    var bn: nat :| lo <= bn < hi && bn < MAXFILE && OnPath(s, DataSlot(bn));
    DataOnPath(s, DataSlot(bn));
  }

  lemma MapsWithin(sb: Super, given: seq<nat>, pool: seq<nat>, n: nat)
    requires given <= pool && |given| <= n
    ensures MapsOf(sb, given) <= MapsOf(sb, Take(pool, n))
  {
    forall x | x in MapsOf(sb, given) ensures x in MapsOf(sb, Take(pool, n)) {
      var b :| b in given && BitmapSector(sb, b) == x;
      var k :| 0 <= k < |given| && given[k] == b;
      assert Take(pool, n)[k] == b;
    }
  }

  /** At any time a transaction has logged at most its load, and the others. */
  lemma AtMost(v: Disk, sb: Super, t: Trees, own: map<nat, Owner>, g: Books, lh: seq<nat>, i: nat, lo: nat, hi: nat)
    requires Wf(v, sb, t, g.reserved, own) && i in t && lo <= hi <= MAXFILE && Working(g, own, sb, i, lo, hi)
    requires Filed(g.own, g.blocks) && Distinct(lh) && Sorted(lh, g)
    ensures |lh| <= Load(sb, Wanted(own, i, lo, hi), Pool(g, sb), hi - lo) + |g.others|
  {
    hide Wf;
    var W := Wanted(own, i, lo, hi);
    forall o | o in g.blocks ensures o in Owners(i, Touched(own, i, lo, hi)) {
      OnlyTouched(v, sb, t, own, g, i, lo, hi, o);
    }
    SubsetSize(g.blocks.Keys, Owners(i, Touched(own, i, lo, hi)));
    TouchedSize(own, i, lo, hi);
    ValuesSize(g.own, g.blocks);
    FilledWanted(g, own, sb, i, lo, hi);
    MapsWithin(sb, g.given, Pool(g, sb), |W|);
    SubsetSize(g.maps, MapsOf(sb, Take(Pool(g, sb), |W|)));
    SeqBound(lh, g.maps + g.blocks.Values + g.others);
    UnionSize(g.maps, g.blocks.Values);
    UnionSize(g.maps + g.blocks.Values, g.others);
  }

  /** When the write is through, every slot on its paths has a block. */
  lemma SpanOwned(v: Disk, sb: Super, t: Trees, g: Books, i: nat, lo: nat, hi: nat, s: Slot)
    requires Wf(v, sb, t, g.reserved, g.own) && i in t && Filed(g.own, g.blocks) && Posted(g) && WroteAll(g, i, lo, hi)
    requires InSpan(s, lo, hi)
    ensures Owner(i, s) in g.own.Values
  {
    var bn: nat :| lo <= bn < hi && bn < MAXFILE && OnPath(s, DataSlot(bn));
    var o := Owner(i, DataSlot(bn));
    assert o in g.wrote && o in g.blocks && g.own[g.blocks[o]] == o;
    OwnedAbove(v, sb, t, g.reserved, g.own, i, s, DataSlot(bn));
  }

  /** A transaction that is through, on the disk v and trees t it ends with. */
  ghost predicate Through(v: Disk, sb: Super, t: Trees, own: map<nat, Owner>, g: Books, i: nat, lo: nat, hi: nat)
  {
    && Wf(v, sb, t, g.reserved, g.own) && i in t && lo <= hi <= MAXFILE && Working(g, own, sb, i, lo, hi)
    && Filed(g.own, g.blocks) && Linked(g) && Posted(g) && WroteAll(g, i, lo, hi)
  }

  /** It has filled exactly the slots that were wanted, */
  lemma AllFilled(v: Disk, sb: Super, t: Trees, own: map<nat, Owner>, g: Books, i: nat, lo: nat, hi: nat)
    requires Through(v, sb, t, own, g, i, lo, hi)
    ensures forall o :: o in g.filled <==> o in Owners(i, Wanted(own, i, lo, hi))
    ensures |g.filled| == |Wanted(own, i, lo, hi)|
  {
    var W := Wanted(own, i, lo, hi);
    forall o | o in Owners(i, W) ensures o in g.filled {
      SpanOwned(v, sb, t, g, i, lo, hi, o.slot);
      var b :| b in g.own && g.own[b] == o;
    }
    FilledWanted(g, own, sb, i, lo, hi);
    OwnersSize(i, W);
    SetBound(g.filled, Owners(i, W));
  }

  /** with the first free blocks, */
  lemma FirstGiven(v: Disk, sb: Super, t: Trees, own: map<nat, Owner>, g: Books, i: nat, lo: nat, hi: nat)
    requires Through(v, sb, t, own, g, i, lo, hi)
    ensures var n := |Wanted(own, i, lo, hi)|;
            n <= |Pool(g, sb)| && g.given == Pool(g, sb)[..n]
                && FreeFrom(g.reserved + g.own.Keys, 0, sb.size) == Pool(g, sb)[n..]
  {
    AllFilled(v, sb, t, own, g, i, lo, hi);
    UsedNow(g, sb);
  }

  /** and has logged every block it touched. */
  lemma AllTouched(v: Disk, sb: Super, t: Trees, own: map<nat, Owner>, g: Books, i: nat, lo: nat, hi: nat, o: Owner)
    requires Through(v, sb, t, own, g, i, lo, hi) && o in Owners(i, Touched(own, i, lo, hi))
    ensures o in g.blocks
  {
    if o.slot in DataSet(lo, hi) {
      SlotOfBlock(o.slot);
      assert DataSlot(FileBlock(o.slot)) == o.slot;
    } else {
      var W := Wanted(own, i, lo, hi);
      var s :| s in W && !s.IsRoot() && s.Parent() == o.slot;
      AllFilled(v, sb, t, own, g, i, lo, hi);
      assert Owner(i, s) in Owners(i, W);
    }
  }

  lemma Apart(v: Disk, sb: Super, t: Trees, g: Books, i: nat)
    requires Wf(v, sb, t, g.reserved, g.own) && i < sb.ninodes && Filed(g.own, g.blocks) && MapSectors(g.maps, sb)
    requires g.others <= {InodeSector(i)}
    ensures g.maps !! g.blocks.Values && g.maps + g.blocks.Values !! g.others
  {
    forall x | x in g.blocks.Values ensures DataStart(sb) <= x {
      var o :| o in g.blocks && g.blocks[o] == x;
      assert x in g.own;
    }
  }

  /** So the list then has exactly the load and the others. */
  lemma AtLeast(v: Disk, sb: Super, t: Trees, own: map<nat, Owner>, g: Books, lh: seq<nat>, i: nat, lo: nat, hi: nat)
    requires Through(v, sb, t, own, g, i, lo, hi) && i < sb.ninodes && MapSectors(g.maps, sb)
    requires g.others <= {InodeSector(i)} && Sorted(lh, g)
    ensures Load(sb, Wanted(own, i, lo, hi), Pool(g, sb), hi - lo) + |g.others| <= |lh|
  {
    Apart(v, sb, t, g, i);
    FirstGiven(v, sb, t, own, g, i, lo, hi);
    var n := |Wanted(own, i, lo, hi)|;
    assert Take(Pool(g, sb), n) == g.given;
    forall o | o in Owners(i, Touched(own, i, lo, hi)) ensures o in g.blocks {
      AllTouched(v, sb, t, own, g, i, lo, hi, o);
    }
    SubsetSize(Owners(i, Touched(own, i, lo, hi)), g.blocks.Keys);
    hide Wf;
    TouchedSize(own, i, lo, hi);
    ValuesSize(g.own, g.blocks);
    SetBound(lh, g.maps + g.blocks.Values + g.others);
    UnionSize(g.maps, g.blocks.Values);
    UnionSize(g.maps + g.blocks.Values, g.others);
  }

  /** A kernel that stops for want of a block had fewer than it wanted. */
  lemma TooFew(g: Books, own: map<nat, Owner>, sb: Super, i: nat, lo: nat, hi: nat)
    requires Working(g, own, sb, i, lo, hi) && Starved(g, sb, i, SpanSet(lo, hi))
    ensures |Pool(g, sb)| < |Wanted(own, i, lo, hi)|
  {
    var W := Wanted(own, i, lo, hi);
    var s :| s in SpanSet(lo, hi) && Owner(i, s) !in g.base.Values && Owner(i, s) !in g.filled;
    assert s in W;
    FilledWanted(g, own, sb, i, lo, hi);
    OwnersSize(i, W);
    SeqBound(g.filled, Owners(i, W) - {Owner(i, s)});
  }
}
