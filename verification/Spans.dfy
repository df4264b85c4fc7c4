/**
What a write of some file blocks touches: the slots on their paths, which of them are empty, and the blocks that
first fit will put there.
*/
module Spans {
  import opened Blocks
  import opened BlockTree

  // ---- Free blocks ----

  /** The blocks from c on that are not in `used`, in order. */
  ghost function FreeFrom(used: set<nat>, c: nat, size: nat): (f: seq<nat>)
    ensures forall x: nat :: x in f <==> c <= x < size && x !in used
    decreases size - c
  {
    if c >= size then [] else (if c in used then [] else [c]) + FreeFrom(used, c + 1, size)
  }

  /** The free blocks of a disk from c on, in order: what balloc hands out one after the other. */
  function FreeOn(v: Disk, sb: Super, c: nat): (f: seq<nat>)
    requires Sized(v, sb)
    decreases sb.size - c
  {
    if c >= sb.size then [] else (if InUse(v, sb, c) then [] else [c]) + FreeOn(v, sb, c + 1)
  }

  lemma {:induction false} FreeOnIs(v: Disk, sb: Super, reserved: set<nat>, own: map<nat, Owner>, c: nat)
    requires Shape(v, sb, reserved) && Accounted(v, sb, reserved, own)
    ensures FreeOn(v, sb, c) == FreeFrom(reserved + own.Keys, c, sb.size)
    decreases sb.size - c
  {
    if c < sb.size {
      FreeOnIs(v, sb, reserved, own, c + 1);
      assert InUse(v, sb, c) <==> c in reserved || c in own;
    }
  }

  /** The first free block. */
  lemma {:induction false} FreeHead(used: set<nat>, c: nat, size: nat, b: nat)
    requires c <= b < size && b !in used && forall x: nat :: c <= x < b ==> x in used
    ensures FreeFrom(used, c, size) != [] && FreeFrom(used, c, size)[0] == b
    decreases b - c
  {
    if c < b {
      FreeHead(used, c + 1, size, b);
    }
  }

  lemma {:induction false} FreeNone(used: set<nat>, c: nat, size: nat)
    requires forall x: nat :: c <= x < size ==> x in used
    ensures FreeFrom(used, c, size) == []
    decreases size - c
  {
    if c < size {
      FreeNone(used, c + 1, size);
    }
  }

  /** Using the first free block takes it off the list. */
  lemma {:induction false} FreeTail(used: set<nat>, c: nat, size: nat)
    requires FreeFrom(used, c, size) != []
    ensures FreeFrom(used + {FreeFrom(used, c, size)[0]}, c, size) == FreeFrom(used, c, size)[1..]
    decreases size - c
  {
    if c in used {
      FreeTail(used, c + 1, size);
      assert FreeFrom(used, c, size) == FreeFrom(used, c + 1, size);
    } else {
      assert FreeFrom(used, c, size)[1..] == FreeFrom(used, c + 1, size);
      FreeAbove(used, c, c + 1, size);
    }
  }

  /** A block before c makes no difference from c on. */
  lemma {:induction false} FreeAbove(used: set<nat>, b: nat, c: nat, size: nat)
    requires b < c
    ensures FreeFrom(used + {b}, c, size) == FreeFrom(used, c, size)
    decreases size - c
  {
    if c < size {
      FreeAbove(used, b, c + 1, size);
    }
  }

  ghost function Elements(s: seq<nat>): set<nat>
  {
    set x | x in s
  }

  lemma ElementsMore(used: set<nat>, s: seq<nat>, p: nat)
    requires 0 < p <= |s|
    ensures used + Elements(s[..p]) == used + Elements(s[..p - 1]) + {s[p - 1]} && s[p - 1..][0] == s[p - 1]
    ensures s[p - 1..][1..] == s[p..]
  {
    assert s[..p] == s[..p - 1] + [s[p - 1]];
  }

  /** Using the first p free blocks leaves the others. */
  lemma {:induction false} FreeDrop(used: set<nat>, size: nat, p: nat)
    requires p <= |FreeFrom(used, 0, size)|
    ensures FreeFrom(used + Elements(FreeFrom(used, 0, size)[..p]), 0, size) == FreeFrom(used, 0, size)[p..]
    decreases p
  {
    var f := FreeFrom(used, 0, size);
    hide FreeFrom;
    if p == 0 {
      assert used + Elements(f[..0]) == used;
    } else {
      FreeDrop(used, size, p - 1);
      ElementsMore(used, f, p);
      FreeTail(used + Elements(f[..p - 1]), 0, size);
    }
  }

  // ---- Slots ----

  /** Slot d and the index blocks above it. */
  ghost function PathSet(d: Slot): (r: set<Slot>)
    ensures forall s :: s in r <==> OnPath(s, d)
    decreases d.Depth()
  {
    if d.IsRoot() then {d} else {d} + PathSet(d.Parent())
  }

  /** Slot s is on the path to one of the file blocks lo..hi. */
  ghost predicate InSpan(s: Slot, lo: nat, hi: nat)
  {
    exists bn: nat {:trigger DataSlot(bn)} :: lo <= bn < hi && bn < MAXFILE && OnPath(s, DataSlot(bn))
  }

  /** The slots on the paths to file blocks lo..hi. */
  ghost function SpanSet(lo: nat, hi: nat): (r: set<Slot>)
    ensures forall s :: s in r <==> InSpan(s, lo, hi)
    decreases hi
  {
    if hi <= lo then {}
    else
      var r := SpanSet(lo, hi - 1) + (if hi - 1 < MAXFILE then PathSet(DataSlot(hi - 1)) else {});
      assert forall s :: s in r <==> InSpan(s, lo, hi) by {
        forall s ensures s in r <==> InSpan(s, lo, hi) {
          SpanGrows(s, lo, hi - 1);
        }
      }
      r
  }

  lemma SpanGrows(s: Slot, lo: nat, hi: nat)
    requires lo <= hi
    ensures InSpan(s, lo, hi + 1) <==> InSpan(s, lo, hi) || (hi < MAXFILE && OnPath(s, DataSlot(hi)))
  {
    if InSpan(s, lo, hi + 1) {
      var bn: nat :| lo <= bn < hi + 1 && bn < MAXFILE && OnPath(s, DataSlot(bn));
      assert bn == hi || InSpan(s, lo, hi);
    }
    if InSpan(s, lo, hi) {
      var bn: nat :| lo <= bn < hi && bn < MAXFILE && OnPath(s, DataSlot(bn));
      assert InSpan(s, lo, hi + 1);
    }
  }

  lemma {:induction false} PathValid(s: Slot, d: Slot)
    requires OnPath(s, d) && d.Valid()
    ensures s.Valid()
    decreases d.Depth()
  {
    if s != d {
      PathValid(s, d.Parent());
    }
  }

  lemma SpanValid(s: Slot, lo: nat, hi: nat)
    requires InSpan(s, lo, hi)
    ensures s.Valid()
  {
    var bn: nat :| lo <= bn < hi && bn < MAXFILE && OnPath(s, DataSlot(bn));
    PathValid(s, DataSlot(bn));
  }

  /** A data slot is on no path but its own. */
  lemma {:induction false} DataOnPath(s: Slot, d: Slot)
    requires OnPath(s, d) && s.IsData()
    ensures s == d
    decreases d.Depth()
  {
    if s != d {
      DataOnPath(s, d.Parent());
      assert false;
    }
  }

  /** Below an index slot on the path to d there is one of its entries on that path. */
  lemma {:induction false} ChildOnPath(s: Slot, d: Slot) returns (c: Slot)
    requires OnPath(s, d) && s != d
    ensures OnPath(c, d) && !c.IsRoot() && c.Parent() == s
    decreases d.Depth()
  {
    if s == d.Parent() {
      c := d;
    } else {
      c := ChildOnPath(s, d.Parent());
    }
  }

  /** The index blocks that name the slots of A. */
  ghost function Parents(A: set<Slot>): set<Slot>
  {
    set s | s in A && !s.IsRoot() :: s.Parent()
  }

  /** The slots on the paths to file blocks lo..hi that are empty. */
  ghost function Empties(v: Disk, a: Addrs, lo: nat, hi: nat): (r: set<Slot>)
    ensures forall s :: s in r <==> InSpan(s, lo, hi) && s.Valid() && At(v, a, s) == 0
  {
    set s | s in SpanSet(lo, hi) && s.Valid() && At(v, a, s) == 0
  }

  /** A slot is empty exactly when no block of the trees is its. */
  lemma EmptyIff(v: Disk, sb: Super, t: Trees, reserved: set<nat>, own: map<nat, Owner>, i: nat, s: Slot)
    requires Wf(v, sb, t, reserved, own) && i in t && s.Valid()
    ensures At(v, t[i], s) == 0 <==> Owner(i, s) !in own.Values
  {
    assert Names(own, At(v, t[i], s), i, s);
    if Owner(i, s) in own.Values {
      var b :| b in own && own[b] == Owner(i, s);
      assert At(v, t[own[b].inum], own[b].slot) == b;
    }
  }

  /** The free-map sectors of some blocks. */
  ghost function MapsOf(sb: Super, bs: seq<nat>): (r: set<nat>)
    ensures forall b | b in bs :: BitmapSector(sb, b) in r
    ensures forall x | x in r :: exists b | b in bs :: BitmapSector(sb, b) == x
  {
    set b | b in bs :: BitmapSector(sb, b)
  }
}
