/**
What the proofs of the file system keep books of during a transaction: the blocks that are in use, the sectors that
are logged, and the blocks that allocation has handed out so far.
*/
module LogBooks {
  import opened Blocks
  import opened BlockTree
  import opened LogHeader
  import opened Spans

  /** Every block is in use. */
  ghost predicate NoneFree(v: Disk, sb: Super)
  {
    Sized(v, sb) && forall c: nat | c < sb.size :: InUse(v, sb, c)
  }

  /** Block b is the first one that is not in use. */
  ghost predicate FirstFit(v: Disk, sb: Super, b: nat)
  {
    Sized(v, sb) && b < sb.size && !InUse(v, sb, b) && forall c: nat | c < b :: InUse(v, sb, c)
  }

  /**
  The blocks that belong to no tree and the owner of each block that does; the sectors of the log header by kind:
  free-map blocks of allocations, blocks of trees (each under its owner), and others; and since the transaction began:
  the owners it began with, the blocks handed out, the slots they were for, and the data blocks written.
  */
  datatype Books = Books(reserved: set<nat>, own: map<nat, Owner>, maps: set<nat>, blocks: map<Owner, nat>,
                         others: set<nat>,
                         base: map<nat, Owner>, given: seq<nat>, filled: seq<Owner>, wrote: set<Owner>)

  /** The books at the start of a transaction. */
  function Opened(reserved: set<nat>, own: map<nat, Owner>): Books
  {
    Books(reserved, own, {}, map[], {}, own, [], [], {})
  }

  // ---- The list ----

  /** A sector log_write may be given: one before the data blocks, or a block that can be allocated. */
  predicate Loggable(x: nat, sb: Super, reserved: set<nat>)
  {
    x < sb.size && (x < DataStart(sb) || x !in reserved)
  }

  /** Every tree block from sector lo on is in the list. */
  ghost predicate Spilt(own: map<nat, Owner>, lh: seq<nat>, lo: int)
  {
    forall b | b in own && lo <= b :: b in lh
  }

  /** Only sectors of the free map. */
  ghost predicate MapSectors(maps: set<nat>, sb: Super)
  {
    forall x | x in maps :: BitmapSector(sb, 0) <= x < DataStart(sb)
  }

  /** What holds of the list during a transaction; a tree block inside the log can only be there since it began. */
  ghost predicate Listing(lh: seq<nat>, g: Books, sb: Super, logSize: nat)
  {
    && Distinct(lh) && |lh| <= LOGSIZE && (lh == [] || |lh| < logSize)
    && (forall k :: 0 <= k < |lh| ==> Loggable(lh[k], sb, g.reserved))
    && MapSectors(g.maps, sb) && Spilt(g.own, lh, sb.size - logSize)
  }

  /** The list holds exactly the sectors the books have. */
  ghost predicate Sorted(lh: seq<nat>, g: Books)
  {
    && (forall x | x in lh :: x in g.maps || x in g.blocks.Values || x in g.others)
    && (forall x | x in g.maps :: x in lh) && (forall o | o in g.blocks :: g.blocks[o] in lh)
    && (forall x | x in g.others :: x in lh)
  }

  /** The tree blocks of the log header are under their owners. */
  ghost predicate Filed(own: map<nat, Owner>, blocks: map<Owner, nat>)
  {
    forall o | o in blocks :: blocks[o] in own && own[blocks[o]] == o
  }

  /** Every sector of the log, which runs from lo to the end of the disk, is reserved in the free map. */
  ghost predicate LogReserved(reserved: set<nat>, lo: int, sb: Super)
  {
    forall b: nat :: lo <= b < sb.size ==> b in reserved
  }

  /** A log that the free map reserves is never logged itself. */
  lemma ReservedOutside(lh: seq<nat>, g: Books, sb: Super, logSize: nat)
    requires Listing(lh, g, sb, logSize) && DataStart(sb) + logSize <= sb.size
    ensures LogReserved(g.reserved, sb.size - logSize, sb) ==> Outside(lh, sb.size - logSize, logSize, sb.size)
    ensures Outside(lh, sb.size - logSize, logSize, sb.size) <==>
            forall k :: 0 <= k < |lh| ==> lh[k] < sb.size - logSize
  {
  }

  /** Every sector that differs from v0 is in the list, which still has the sectors of lh0. */
  ghost predicate Recorded(v0: Disk, lh0: seq<nat>, v: Disk, lh: seq<nat>)
  {
    && |v| == |v0| && (forall x | x in lh0 :: x in lh)
    && forall s: nat {:trigger v[s]} | s < |v| && v[s] != v0[s] :: s in lh
  }

  lemma RecordedNone(v: Disk, lh: seq<nat>)
    ensures Recorded(v, lh, v, lh)
  {
  }

  lemma RecordedThen(v0: Disk, lh0: seq<nat>, v1: Disk, lh1: seq<nat>, v2: Disk, lh2: seq<nat>)
    requires Recorded(v0, lh0, v1, lh1) && Recorded(v1, lh1, v2, lh2)
    ensures Recorded(v0, lh0, v2, lh2)
  {
    forall s: nat | s < |v2| && v2[s] != v0[s] ensures s in lh2 {
      assert v1[s] != v0[s] || v2[s] != v1[s];
    }
  }

  /** Sector s is changed, and logged. */
  lemma RecordedOne(v0: Disk, lh0: seq<nat>, v: Disk, lh: seq<nat>, s: nat, b: Block)
    requires Recorded(v0, lh0, v, lh) && s < |v|
    ensures Recorded(v0, lh0, v[s := b], Absorb(lh, s))
  {
  }

  lemma RecordedFirst(v: Disk, lh: seq<nat>, s: nat, b: Block)
    requires s < |v|
    ensures Recorded(v, lh, v[s := b], Absorb(lh, s))
  {
    RecordedNone(v, lh);
    RecordedOne(v, lh, v, lh, s, b);
  }

  /** One turn of install_trans: sector `at` is changed and written, then the first sector of the list is written. */
  lemma RecordedInstalled(d: Disk, v: Disk, lh: seq<nat>, k: nat, at: nat, b: Block)
    requires k < |lh| && lh[k] < |v| && at < |v| && Recorded(d, [], v, lh[k..])
    ensures var v', d' := v[at := b], d[at := b]; Recorded(d'[lh[k] := v'[lh[k]]], [], v', lh[k + 1..])
  {
    var v', d' := v[at := b], d[at := b];
    var d2 := d'[lh[k] := v'[lh[k]]];
    forall s: nat | s < |v'| && v'[s] != d2[s] ensures s in lh[k + 1..] {
      assert v[s] != d[s] && lh[k..] == [lh[k]] + lh[k + 1..];
    }
  }

  /** With nothing logged nothing has changed. */
  lemma RecordedAll(v0: Disk, v: Disk)
    requires Recorded(v0, [], v, [])
    ensures v == v0
  {
    assert forall s: nat | s < |v| :: v[s] == v0[s];
  }

  // ---- Allocation ----

  /** What was free when the transaction began, in order. */
  ghost function Pool(g: Books, sb: Super): seq<nat>
  {
    FreeFrom(g.reserved + g.base.Keys, 0, sb.size)
  }

  /** The slots that name the slots of `filled`. */
  ghost function Above(filled: seq<Owner>): (r: set<Owner>)
    ensures forall o | o in filled && !o.slot.IsRoot() :: Owner(o.inum, o.slot.Parent()) in r
  {
    set o | o in filled && !o.slot.IsRoot() :: Owner(o.inum, o.slot.Parent())
  }

  /** No slot twice, and none that had a block before. */
  ghost predicate Fills(base: map<nat, Owner>, filled: seq<Owner>)
  {
    && (forall i, j :: 0 <= i < j < |filled| ==> filled[i] != filled[j])
    && forall o | o in filled :: o !in base.Values
  }

  /**
  The blocks handed out are the first that were free, one for each slot; the free-map sectors logged are theirs; a tree
  block is logged only if it was written, given to a slot, or names such a slot.
  */
  ghost predicate Tracked(g: Books, sb: Super)
  {
    && |g.given| == |g.filled| && g.given <= Pool(g, sb) && g.maps == MapsOf(sb, g.given)
    && (forall o | o in g.blocks :: o in g.wrote || o in g.filled || o in Above(g.filled))
    && Extends(g.base, g.own) && (forall b | b in g.own :: b in g.base || (b in g.given && g.own[b] in g.filled))
    && Fills(g.base, g.filled)
  }

  /** Every block handed out is in its slot. */
  ghost predicate Linked(g: Books)
  {
    (forall b | b in g.given :: b in g.own) && forall o | o in g.filled :: o in g.own.Values
  }

  /** Every tree block that must be logged is; `but` is the slot whose index block still is to be. */
  ghost predicate PostedBut(g: Books, but: Owner)
  {
    && (forall o | o in g.filled ::
          o in g.blocks && (!o.slot.IsRoot() && o != but ==> Owner(o.inum, o.slot.Parent()) in g.blocks))
    && forall o | o in g.wrote :: o in g.blocks
  }

  ghost predicate Posted(g: Books)
  {
    && (forall o | o in g.filled :: o in g.blocks && (!o.slot.IsRoot() ==> Owner(o.inum, o.slot.Parent()) in g.blocks))
    && forall o | o in g.wrote :: o in g.blocks
  }

  lemma OpenedTracked(reserved: set<nat>, own: map<nat, Owner>, sb: Super)
    ensures var g := Opened(reserved, own); Tracked(g, sb) && Linked(g) && Posted(g)
  {
  }

  /** The books after block b was handed out for slot o. */
  ghost function Gave(g: Books, sb: Super, b: nat, o: Owner): Books
  {
    g.(maps := g.maps + {BitmapSector(sb, b)}, given := g.given + [b], filled := g.filled + [o])
  }

  lemma UsedNow(g: Books, sb: Super)
    requires Tracked(g, sb) && Linked(g)
    ensures g.reserved + g.own.Keys == g.reserved + g.base.Keys + Elements(Pool(g, sb)[..|g.given|])
    ensures FreeFrom(g.reserved + g.own.Keys, 0, sb.size) == Pool(g, sb)[|g.given|..]
  {
    var used, now := g.reserved + g.base.Keys, g.reserved + g.own.Keys;
    assert Pool(g, sb)[..|g.given|] == g.given;
    assert now == used + Elements(g.given);
    FreeDrop(used, sb.size, |g.given|);
  }

  /** First fit takes the next block of the pool; */
  lemma NextGiven(v: Disk, sb: Super, g: Books, b: nat)
    requires Shape(v, sb, g.reserved) && Accounted(v, sb, g.reserved, g.own) && Tracked(g, sb) && Linked(g)
    requires FirstFit(v, sb, b)
    ensures |g.given| < |Pool(g, sb)| && Pool(g, sb)[|g.given|] == b
  {
    UsedNow(g, sb);
    var now := g.reserved + g.own.Keys;
    forall x: nat | x < b ensures x in now {
      assert InUse(v, sb, x);
    }
    assert !InUse(v, sb, b);
    FreeHead(now, 0, sb.size, b);
    assert Pool(g, sb)[|g.given|..][0] == b;
  }

  /** and finds none only when the pool is used up. */
  lemma NoneGiven(v: Disk, sb: Super, g: Books)
    requires Shape(v, sb, g.reserved) && Accounted(v, sb, g.reserved, g.own) && Tracked(g, sb) && Linked(g)
    requires NoneFree(v, sb)
    ensures |g.given| == |Pool(g, sb)|
  {
    UsedNow(g, sb);
    var now := g.reserved + g.own.Keys;
    forall x: nat | x < sb.size ensures x in now {
      assert InUse(v, sb, x);
    }
    FreeNone(now, 0, sb.size);
  }

  lemma MapsMore(sb: Super, bs: seq<nat>, b: nat)
    ensures MapsOf(sb, bs + [b]) == MapsOf(sb, bs) + {BitmapSector(sb, b)}
  {
    assert b in bs + [b];
    forall x | x in MapsOf(sb, bs) ensures x in MapsOf(sb, bs + [b]) {
      var c :| c in bs && BitmapSector(sb, c) == x;
      assert c in bs + [b];
    }
  }

  lemma AboveMore(filled: seq<Owner>, o: Owner)
    ensures Above(filled) <= Above(filled + [o])
    ensures !o.slot.IsRoot() ==> Owner(o.inum, o.slot.Parent()) in Above(filled + [o])
  {
    forall x | x in Above(filled) ensures x in Above(filled + [o]) {
      var q :| q in filled && !q.slot.IsRoot() && Owner(q.inum, q.slot.Parent()) == x;
      assert q in filled + [o];
    }
    assert o in filled + [o];
  }

  lemma FillsMore(base: map<nat, Owner>, filled: seq<Owner>, o: Owner)
    requires Fills(base, filled) && o !in base.Values && o !in filled
    ensures Fills(base, filled + [o])
  {
  }

  lemma GaveTracked(v: Disk, sb: Super, g: Books, b: nat, o: Owner)
    requires Shape(v, sb, g.reserved) && Accounted(v, sb, g.reserved, g.own) && Tracked(g, sb) && Linked(g)
    requires FirstFit(v, sb, b)
    requires o !in g.base.Values && o !in g.filled
    ensures Tracked(Gave(g, sb, b, o), sb)
  {
    hide Shape;
    hide Accounted;
    hide FirstFit;
    hide Linked;
    hide MapsOf;
    hide Above;
    hide Fills;
    hide Extends;
    hide FreeFrom;
    NextGiven(v, sb, g, b);
    MapsMore(sb, g.given, b);
    AboveMore(g.filled, o);
    FillsMore(g.base, g.filled, o);
    var g' := Gave(g, sb, b, o);
    var pool := Pool(g, sb);
    assert Pool(g', sb) == pool && pool[..|g.given|] == g.given;
    assert g'.given == pool[..|g.given| + 1];
    assert forall x | x in g.given :: x in g'.given;
    assert forall x | x in g.filled :: x in g'.filled;
  }

  /** Some slot of the set has no block, nor is one left for it. */
  ghost predicate Starved(g: Books, sb: Super, i: nat, slots: set<Slot>)
  {
    |g.given| == |Pool(g, sb)| && exists s | s in slots :: Owner(i, s) !in g.base.Values && Owner(i, s) !in g.filled
  }

  /** An empty slot had no block and was given none. */
  lemma EmptyUnfilled(v: Disk, sb: Super, t: Trees, g: Books, i: nat, s: Slot)
    requires Wf(v, sb, t, g.reserved, g.own) && Tracked(g, sb) && Linked(g) && i in t && s.Valid()
    requires At(v, t[i], s) == 0
    ensures Owner(i, s) !in g.base.Values && Owner(i, s) !in g.filled
  {
    EmptyIff(v, sb, t, g.reserved, g.own, i, s);
    ExtendsValues(g.base, g.own, Owner(i, s));
  }

  lemma ExtendsValues(own: map<nat, Owner>, own': map<nat, Owner>, o: Owner)
    requires Extends(own, own')
    ensures o in own.Values ==> o in own'.Values
  {
    if o in own.Values {
      var b :| b in own && own[b] == o;
      assert b in own' && own'[b] == o;
    }
  }

  // ---- Logging tree blocks ----

  /** The books after tree block b was logged under owner o. */
  function Entered(g: Books, o: Owner, b: nat): Books
  {
    g.(own := g.own[b := o], blocks := g.blocks[o := b])
  }

  /** Logging tree block b under owner o. */
  lemma EnteredSorted(lh: seq<nat>, lh': seq<nat>, g: Books, o: Owner, b: nat, sb: Super, logSize: nat)
    requires Sorted(lh, g) && (o in g.blocks ==> g.blocks[o] == b) && lh' == Absorb(lh, b)
    requires Listing(lh', g, sb, logSize)
    ensures Sorted(lh', Entered(g, o, b)) && Listing(lh', Entered(g, o, b), sb, logSize)
  {
    var g' := Entered(g, o, b);
    assert o in g'.blocks && g'.blocks[o] == b;
    forall x | x in lh' ensures x in g'.maps || x in g'.blocks.Values || x in g'.others {
      if x in lh && x in g.blocks.Values {
        var q :| q in g.blocks && g.blocks[q] == x;
        assert q in g'.blocks && g'.blocks[q] == x;
      }
    }
  }

  /** The block just handed out goes into the slot it is for. */
  lemma EnteredTracked(g: Books, sb: Super, b: nat, o: Owner)
    requires Tracked(Gave(g, sb, b, o), sb) && Linked(g) && Posted(g) && b !in g.own
    ensures var g' := Entered(Gave(g, sb, b, o), o, b); Tracked(g', sb) && Linked(g') && PostedBut(g', o)
  {
    var g1 := Gave(g, sb, b, o);
    var g' := Entered(g1, o, b);
    hide Above;
    hide MapsOf;
    hide Fills;
    hide FreeFrom;
    assert Pool(g', sb) == Pool(g1, sb);
    assert b in g'.given && o in g'.filled && g'.own[b] == o;
    EnteredLinked(g, sb, b, o);
  }

  lemma EnteredLinked(g: Books, sb: Super, b: nat, o: Owner)
    requires Linked(g) && b !in g.own
    ensures Linked(Entered(Gave(g, sb, b, o), o, b))
  {
    var g' := Entered(Gave(g, sb, b, o), o, b);
    assert g'.own[b] == o;
    forall q | q in g'.filled ensures q in g'.own.Values {
      if q in g.filled {
        var c :| c in g.own && g.own[c] == q;
        assert c in g'.own && g'.own[c] == q;
      }
    }
  }

  lemma FiledGave(g: Books, g': Books, sb: Super, b: nat, o: Owner)
    requires Filed(g.own, g.blocks) && (g' == g || g' == Gave(g, sb, b, o))
    ensures Filed(g'.own, g'.blocks)
  {
  }

  lemma EnteredAbove(g: Books, sb: Super, b: nat, o: Owner)
    requires !o.slot.IsRoot()
    ensures Owner(o.inum, o.slot.Parent()) in Above(Entered(Gave(g, sb, b, o), o, b).filled)
  {
    AboveMore(g.filled, o);
  }

  lemma PostedRoot(g: Books, o: Owner)
    requires PostedBut(g, o) && o.slot.IsRoot()
    ensures Posted(g)
  {
  }

  /** The index block of the slot is logged too. */
  lemma PostedParent(g: Books, g': Books, o: Owner)
    requires PostedBut(g, o) && !o.slot.IsRoot() && g' == g.(blocks := g'.blocks)
    requires g.blocks.Keys <= g'.blocks.Keys && Owner(o.inum, o.slot.Parent()) in g'.blocks
    ensures Posted(g')
  {
  }

  /** Logging a tree block that has its owner already. */
  lemma LoggedTracked(g: Books, sb: Super, o: Owner, p: nat)
    requires Tracked(g, sb) && p in g.own && g.own[p] == o && (o in g.wrote || o in g.filled || o in Above(g.filled))
    ensures var g' := Entered(g, o, p); Tracked(g', sb) && (Linked(g) ==> Linked(g'))
  {
    var g' := Entered(g, o, p);
    assert g'.own == g.own;
    assert Pool(g', sb) == Pool(g, sb);
  }

  lemma TrackedOthers(g: Books, sb: Super, others: set<nat>)
    requires Tracked(g, sb)
    ensures var g' := g.(others := others);
            Tracked(g', sb) && (Linked(g) ==> Linked(g')) && (Posted(g) ==> Posted(g'))
  {
    assert Pool(g.(others := others), sb) == Pool(g, sb);
  }

  /** A data block is about to be written. */
  lemma TrackedWrote(lh: seq<nat>, g: Books, sb: Super, logSize: nat, o: Owner)
    requires Tracked(g, sb) && Listing(lh, g, sb, logSize) && Sorted(lh, g)
    ensures var g' := g.(wrote := g.wrote + {o});
            Tracked(g', sb) && (Linked(g) ==> Linked(g')) && Listing(lh, g', sb, logSize) && Sorted(lh, g')
  {
    assert Pool(g.(wrote := g.wrote + {o}), sb) == Pool(g, sb);
  }

  // ---- What one operation adds ----

  /** What allocation on the path to slot d of inode i may do, even when it stops halfway. */
  ghost predicate Stepped(t: Trees, g: Books, t': Trees, g': Books, i: nat, d: Slot)
  {
    && i in t && t'.Keys == t.Keys && t' == t[i := t'[i]]
    && Extends(g.own, g'.own) && g'.others == g.others && g'.base == g.base && g'.wrote == g.wrote
    && g'.reserved == g.reserved
    && (forall o | o in g'.filled :: o in g.filled || (o.inum == i && OnPath(o.slot, d)))
  }

  lemma SteppedTrans(t0: Trees, g0: Books, t1: Trees, g1: Books, t2: Trees, g2: Books, i: nat, d: Slot)
    requires Stepped(t0, g0, t1, g1, i, d) && Stepped(t1, g1, t2, g2, i, d)
    ensures Stepped(t0, g0, t2, g2, i, d)
  {
  }

  lemma SteppedOwns(t: Trees, g: Books, t': Trees, g': Books, i: nat, d: Slot, p: nat)
    requires Stepped(t, g, t', g', i, d) && p in g.own
    ensures p in g'.own && g'.own[p] == g.own[p]
  {
  }

  lemma SteppedGave(t: Trees, g: Books, sb: Super, i: nat, r: Slot, b: nat, d: Slot)
    requires i in t && OnPath(r, d)
    ensures Stepped(t, g, t, g, i, d) && Stepped(t, g, t, Gave(g, sb, b, Owner(i, r)), i, d)
  {
    assert t == t[i := t[i]];
  }

  /** Logging a block that is new in the trees. */
  lemma EnterNew(t: Trees, g: Books, i: nat, r: Slot, b: nat, a: Addrs, d: Slot)
    requires i in t && Filed(g.own, g.blocks) && b !in g.own && OnPath(r, d)
    requires forall c | c in g.own :: g.own[c] != Owner(i, r)
    ensures Owner(i, r) !in g.blocks
    ensures var g' := Entered(g, Owner(i, r), b);
            Filed(g'.own, g'.blocks) && Stepped(t, g, t[i := a], g', i, d)
  {
  }

  /** A data slot of the file blocks lo..hi. */
  predicate DataIn(s: Slot, lo: nat, hi: nat)
  {
    s.Valid() && s.IsData() && lo <= FileBlock(s) < hi
  }

  /** Only slots on paths to file blocks lo..hi of inode i were filled, and only those file blocks written. */
  ghost predicate LogSpan(g: Books, g': Books, i: nat, lo: nat, hi: nat)
  {
    && g'.others == g.others && g'.base == g.base && g'.reserved == g.reserved
    && (forall o | o in g'.filled :: o in g.filled || (o.inum == i && InSpan(o.slot, lo, hi)))
    && (forall o | o in g'.wrote :: o in g.wrote || (o.inum == i && DataIn(o.slot, lo, hi)))
  }

  lemma SteppedSpan(t: Trees, g: Books, t': Trees, g': Books, i: nat, bn: nat)
    requires bn < MAXFILE && Stepped(t, g, t', g', i, DataSlot(bn))
    ensures LogSpan(g, g', i, bn, bn + 1) && i in t && t'.Keys == t.Keys && t' == t[i := t'[i]]
  {
    forall o | o in g'.filled && o !in g.filled ensures InSpan(o.slot, bn, bn + 1) {
      assert OnPath(o.slot, DataSlot(bn));
    }
  }

  lemma WiderSpan(s: Slot, lo: nat, hi: nat, lo': nat, hi': nat)
    requires InSpan(s, lo, hi) && lo' <= lo && hi <= hi'
    ensures InSpan(s, lo', hi')
  {
    var bn: nat :| lo <= bn < hi && bn < MAXFILE && OnPath(s, DataSlot(bn));
  }

  lemma SpanTrans(g0: Books, g1: Books, g2: Books, i: nat, lo: nat, mid: nat, at: nat, hi: nat)
    requires LogSpan(g0, g1, i, lo, mid) && LogSpan(g1, g2, i, at, hi) && lo <= at && mid <= hi
    ensures LogSpan(g0, g2, i, lo, hi)
  {
    forall o | o in g2.filled && o !in g0.filled ensures o.inum == i && InSpan(o.slot, lo, hi) {
      if o in g1.filled {
        WiderSpan(o.slot, lo, mid, lo, hi);
      } else {
        WiderSpan(o.slot, at, hi, lo, hi);
      }
    }
  }

  lemma WidenSpan(g: Books, g': Books, i: nat, lo: nat, mid: nat, hi: nat)
    requires LogSpan(g, g', i, lo, mid) && mid <= hi
    ensures LogSpan(g, g', i, lo, hi)
  {
    forall o | o in g'.filled && o !in g.filled ensures InSpan(o.slot, lo, hi) {
      WiderSpan(o.slot, lo, mid, lo, hi);
    }
  }

  /** Every one of the file blocks lo..hi of inode i has been written. */
  ghost predicate WroteAll(g: Books, i: nat, lo: nat, hi: nat)
  {
    forall bn: nat {:trigger DataSlot(bn)} :: lo <= bn < hi && bn < MAXFILE ==> Owner(i, DataSlot(bn)) in g.wrote
  }

  lemma WroteAllOthers(g: Books, g': Books, i: nat, lo: nat, hi: nat)
    requires WroteAll(g, i, lo, hi) && g'.wrote == g.wrote
    ensures WroteAll(g', i, lo, hi)
  {
  }

  lemma SteppedWrote(t: Trees, g: Books, t': Trees, g': Books, i: nat, d: Slot)
    requires Stepped(t, g, t', g', i, d)
    ensures g'.wrote == g.wrote
  {
  }

  /** A data block is written and, unless the log is full, logged. */
  lemma PatchSpan(g0: Books, g1: Books, g: Books, t: Trees, i: nat, bn: nat, running: bool)
    requires bn < MAXFILE && g1 == g0.(wrote := g0.wrote + {Owner(i, DataSlot(bn))}) && g == g1.(blocks := g.blocks)
    requires Posted(g0) && (running ==> g.blocks.Keys == g1.blocks.Keys + {Owner(i, DataSlot(bn))})
    ensures LogSpan(g0, g, i, bn, bn + 1) && (running ==> Posted(g))
  {
  }

  lemma StarvedWider(g: Books, sb: Super, i: nat, lo: nat, hi: nat, lo': nat, hi': nat)
    requires lo' <= lo && hi <= hi'
    ensures Starved(g, sb, i, SpanSet(lo, hi)) ==> Starved(g, sb, i, SpanSet(lo', hi'))
  {
    if Starved(g, sb, i, SpanSet(lo, hi)) {
      var s :| s in SpanSet(lo, hi) && Owner(i, s) !in g.base.Values && Owner(i, s) !in g.filled;
      WiderSpan(s, lo, hi, lo', hi');
      assert s in SpanSet(lo', hi');
    }
  }

  lemma StarvedPath(g: Books, sb: Super, i: nat, bn: nat)
    requires bn < MAXFILE && Starved(g, sb, i, PathSet(DataSlot(bn)))
    ensures Starved(g, sb, i, SpanSet(bn, bn + 1))
  {
    var s :| s in PathSet(DataSlot(bn)) && Owner(i, s) !in g.base.Values && Owner(i, s) !in g.filled;
    assert InSpan(s, bn, bn + 1);
    assert s in SpanSet(bn, bn + 1);
  }

  /** The first file block past byte n. */
  function BlocksFor(n: nat): nat { (n + BSIZE - 1) / BSIZE }

  /** What writei may add: the slots and blocks of the file blocks it writes, and the inode block. */
  ghost predicate WriteSpan(g: Books, g': Books, i: nat, off: nat, n: nat)
  {
    && LogSpan(g, g'.(others := g.others), i, off / BSIZE, BlocksFor(off + n))
    && g.others <= g'.others <= g.others + {InodeSector(i)}
  }

  /** What writei logged: the loop's sectors, then perhaps the inode block. */
  lemma SpanWrites(g0: Books, g1: Books, g: Books, i: nat, off: nat, n: nat)
    requires LogSpan(g0, g1, i, off / BSIZE, BlocksFor(off + n))
    requires g == g1 || g == g1.(others := g1.others + {InodeSector(i)})
    ensures WriteSpan(g0, g, i, off, n) && g1.others == g0.others
  {
    assert g.(others := g0.others) == g1;
  }

  // ---- The end of a transaction ----

  /** After a transaction that did not log the log, no tree block is in it. */
  lemma ListEmptied(lh: seq<nat>, g: Books, sb: Super, logSize: nat)
    requires DataStart(sb) + logSize <= sb.size && Listing(lh, g, sb, logSize)
    requires Outside(lh, sb.size - logSize, logSize, sb.size)
    ensures forall b | b in g.own :: b < sb.size - logSize
    ensures var g' := Opened(g.reserved, g.own);
            Listing([], g', sb, logSize) && Sorted([], g') && Filed(g'.own, g'.blocks) && Tracked(g', sb) && Linked(g')
                && Posted(g')
  {
    OpenedTracked(g.reserved, g.own, sb);
  }

  /** The books after a truncation: what is logged stays in the list, and nothing more is said of it. */
  function Shelved(g: Books): Books
  {
    Opened(g.reserved, g.own).(others := g.others + g.blocks.Values + g.maps)
  }

  lemma BlocksMoved(lh: seq<nat>, g: Books, sb: Super, logSize: nat)
    requires Listing(lh, g, sb, logSize) && Sorted(lh, g)
    ensures Listing(lh, Shelved(g), sb, logSize) && Sorted(lh, Shelved(g)) && Tracked(Shelved(g), sb)
    ensures Linked(Shelved(g)) && Posted(Shelved(g))
  {
    var g' := Shelved(g);
    OpenedTracked(g.reserved, g.own, sb);
    TrackedOthers(Opened(g.reserved, g.own), sb, g'.others);
    assert forall o | o in g.blocks :: g.blocks[o] in g.blocks.Values;
  }
}
