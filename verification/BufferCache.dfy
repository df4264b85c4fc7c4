/**
The buffer cache of bio.c over the disk of memide.c. Buffers are numbered; the list
links them around HEAD, most recently released first.
*/
module BufferCache {
  import opened Basics
  import opened Blocks
  import opened Rings

  const NBUF := 10
  const HEAD := NBUF
  const DISK_DEV := 1
  const NO_DEV := -1


  datatype Buf = Buf(busy: bool, valid: bool, dirty: bool, dev: int, sector: nat, data: Block)

  /** The buffer is for this sector. */
  predicate Names(b: Buf, dev: int, sector: nat)
  {
    b.dev == dev && b.sector == sector
  }

  predicate Clean(b: Buf) { !b.busy && !b.dirty }

  /** No two buffers are for the same sector of a real device. */
  ghost predicate Unique(buf: seq<Buf>)
  {
    forall i, j {:trigger buf[i], buf[j]} ::
      0 <= i < |buf| && 0 <= j < |buf| && buf[i].dev != NO_DEV && Names(buf[j], buf[i].dev, buf[i].sector) ==> i == j
  }

  /** What one buffer's flags promise. */
  ghost predicate Honest(b: Buf, disk: Disk)
  {
    && (b.valid ==> b.dev == DISK_DEV && b.sector < |disk|)
    && (b.dirty ==> b.valid)
    && (!b.busy ==> b.dev == NO_DEV || b.valid)
    && (b.valid && Clean(b) ==> b.sector < |disk| && b.data == disk[b.sector])
  }

  ghost predicate Sound(buf: seq<Buf>, disk: Disk)
  {
    |buf| == NBUF && Unique(buf) && forall k :: 0 <= k < NBUF ==> Honest(buf[k], disk)
  }

  /** What bread would return for sector s: the buffer's data when it is valid, else the disk's. */
  ghost function View(buf: seq<Buf>, disk: Disk, s: nat): (d: Block)
    requires s < |disk|
  {
    if exists k :: 0 <= k < |buf| && Names(buf[k], DISK_DEV, s) && buf[k].valid then
      var k :| 0 <= k < |buf| && Names(buf[k], DISK_DEV, s) && buf[k].valid;
      buf[k].data
    else disk[s]
  }

  /** The disk as the rest of the kernel sees it. */
  ghost function Look(buf: seq<Buf>, disk: Disk): (v: Disk)
    ensures |v| == |disk|
    ensures forall s :: 0 <= s < |disk| ==> v[s] == View(buf, disk, s)
  {
    seq(|disk|, s requires 0 <= s < |disk| => View(buf, disk, s))
  }

  lemma ViewIs(buf: seq<Buf>, disk: Disk, k: nat)
    requires Unique(buf) && k < |buf| && buf[k].valid && buf[k].dev == DISK_DEV && buf[k].sector < |disk|
    ensures View(buf, disk, buf[k].sector) == buf[k].data
  {
    assert Names(buf[k], DISK_DEV, buf[k].sector);
  }

  lemma ViewDisk(buf: seq<Buf>, disk: Disk, s: nat)
    requires s < |disk| && forall k :: 0 <= k < |buf| && Names(buf[k], DISK_DEV, s) ==> !buf[k].valid
    ensures View(buf, disk, s) == disk[s]
  {
  }

  /** Two caches agree on a sector when they agree on its valid buffer, or neither has one. */
  lemma ViewSame(buf: seq<Buf>, disk: Disk, buf': seq<Buf>, disk': Disk, s: nat, k: nat)
    requires Unique(buf) && Unique(buf') && |buf'| == |buf| && s < |disk| && s < |disk'| && k < |buf|
    requires forall j :: 0 <= j < |buf| && j != k ==> buf'[j] == buf[j]
    requires !(Names(buf[k], DISK_DEV, s) && buf[k].valid) && !(Names(buf'[k], DISK_DEV, s) && buf'[k].valid)
    requires disk'[s] == disk[s]
    ensures View(buf', disk', s) == View(buf, disk, s)
  {
    if j :| 0 <= j < |buf| && Names(buf[j], DISK_DEV, s) && buf[j].valid {
      ViewIs(buf, disk, j);
      assert buf'[j] == buf[j];
      ViewIs(buf', disk', j);
    } else {
      ViewDisk(buf, disk, s);
      forall j | 0 <= j < |buf| && Names(buf'[j], DISK_DEV, s) ensures !buf'[j].valid {
        assert j != k ==> buf'[j] == buf[j];
      }
      ViewDisk(buf', disk', s);
    }
  }

  /** Every buffer number is in the ring. */
  ghost predicate Whole(ring: seq<nat>)
  {
    |ring| == NBUF + 1 && ring[0] == HEAD && forall b :: 0 <= b < NBUF ==> b in ring
  }

  /** bget's first loop: from the most recently released buffer on. */
  method FindCached(buf: seq<Buf>, next: seq<nat>, ghost prev: seq<nat>, ghost ring: seq<nat>, dev: int, sector: nat)
    returns (b: nat)
    requires |buf| == NBUF && Linked(ring, next, prev) && Whole(ring) && |next| == NBUF + 1
    ensures b <= HEAD
    ensures b < HEAD ==> Names(buf[b], dev, sector)
    ensures b == HEAD ==> forall k :: 0 <= k < NBUF ==> !Names(buf[k], dev, sector)
  {
    b := next[HEAD];
    ghost var k := Succ(0, |ring|);
    assert next[ring[0]] == ring[k];
    while b != HEAD
      invariant 0 <= k < |ring| && b == ring[k]
      invariant forall j :: 0 < j < k ==> !Names(buf[ring[j]], dev, sector)
      invariant k == 0 ==> forall j :: 0 < j < |ring| ==> !Names(buf[ring[j]], dev, sector)
      decreases if k == 0 then 0 else |ring| - k
    {
      assert b != ring[0];
      if Names(buf[b], dev, sector) {
        return;
      }
      assert next[ring[k]] == ring[Succ(k, |ring|)];
      b := next[b];
      k := Succ(k, |ring|);
    }
    assert k == 0;
    forall q | 0 <= q < NBUF ensures !Names(buf[q], dev, sector) {
      assert q in ring;
    }
  }

  /** bget's second loop: from the least recently released buffer back. */
  method FindVictim(buf: seq<Buf>, prev: seq<nat>, ghost next: seq<nat>, ghost ring: seq<nat>)
    returns (b: nat, ghost k: nat)
    requires |buf| == NBUF && Linked(ring, next, prev) && Whole(ring) && |prev| == NBUF + 1
    ensures b <= HEAD && k < |ring| && b == ring[k]
    ensures b < HEAD ==> Clean(buf[b]) && forall j :: k < j < |ring| ==> !Clean(buf[ring[j]])
    ensures b == HEAD ==> forall q :: 0 <= q < NBUF ==> !Clean(buf[q])
  {
    b := prev[HEAD];
    k := Pred(0, |ring|);
    assert prev[ring[0]] == ring[k];
    while b != HEAD
      invariant 0 <= k < |ring| && b == ring[k]
      invariant forall j :: k < j < |ring| ==> !Clean(buf[ring[j]])
      decreases k
    {
      assert b != ring[0];
      if Clean(buf[b]) {
        return;
      }
      assert prev[ring[k]] == ring[Pred(k, |ring|)];
      b := prev[b];
      k := Pred(k, |ring|);
    }
    assert k == 0;
    forall q | 0 <= q < NBUF ensures !Clean(buf[q]) {
      assert q in ring;
    }
  }

  /** brelse's list work: unlink b, then link it in after the head. */
  method MoveToFront(next: seq<nat>, prev: seq<nat>, ghost ring: seq<nat>, b: nat)
    returns (next': seq<nat>, prev': seq<nat>, ghost k: nat)
    requires Linked(ring, next, prev) && Whole(ring) && |next| == NBUF + 1 && b < NBUF
    ensures 0 < k < |ring| && ring[k] == b
    ensures Linked(ToFront(ring, k), next', prev') && Whole(ToFront(ring, k)) && |next'| == NBUF + 1
  {
    assert b in ring;
    k :| 0 <= k < |ring| && ring[k] == b;
    Unlinked(ring, next, prev, k);
    next', prev' := next, prev;
    prev' := prev'[next'[b] := prev'[b]];
    next' := next'[prev'[b] := next'[b]];
    LinkedIn(Without(ring, k), next', prev', b);
    next' := next'[b := next'[HEAD]];
    prev' := prev'[b := HEAD];
    prev' := prev'[next'[HEAD] := b];
    next' := next'[HEAD := b];
    MovedToFront(ring, k);
    ToFrontHas(ring, k);
  }

  datatype Got =
    | Buffer(b: nat)     // a busy buffer
    | MustSleep(b: nat)  // another process holds it
    | NoBuffers          // panic in bget
    | BadRequest         // panic in iderw

  /** A write the disk has seen. */
  datatype Write = Write(sector: nat, data: Block)

  /** The disk after a list of sector writes, in order. */
  function Apply(disk: Disk, ws: seq<Write>): (d: Disk)
    ensures |d| == |disk|
  {
    if ws == [] then disk
    else
      var d := Apply(disk, ws[..|ws| - 1]);
      var w := ws[|ws| - 1];
      if w.sector < |d| then d[w.sector := w.data] else d
  }

  lemma ApplyOne(disk: Disk, ws: seq<Write>, t: nat)
    requires t < |ws| && ws[t].sector < |disk|
    ensures Apply(disk, ws[..t + 1]) == Apply(disk, ws[..t])[ws[t].sector := ws[t].data]
  {
    var front := ws[..t + 1];
    assert front[..|front| - 1] == ws[..t];
  }

  lemma ApplySnoc(disk: Disk, ws: seq<Write>, w: Write)
    ensures Apply(disk, ws + [w]) == if w.sector < |disk| then Apply(disk, ws)[w.sector := w.data] else Apply(disk, ws)
  {
    var all := ws + [w];
    assert all[..|all| - 1] == ws;
  }

  lemma {:induction false} ApplyAppend(disk: Disk, a: seq<Write>, b: seq<Write>)
    ensures Apply(disk, a + b) == Apply(Apply(disk, a), b)
  {
    if b == [] {
      assert a + b == a;
    } else {
      var front, w := b[..|b| - 1], b[|b| - 1];
      ApplyAppend(disk, a, front);
      assert a + b == (a + front) + [w];
      ApplySnoc(disk, a + front, w);
    }
  }

  class Cache {
    ghost const image: Disk  // the disk when the kernel started
    var buf: seq<Buf>
    var next: seq<nat>
    var prev: seq<nat>
    var disk: Disk
    ghost var ring: seq<nat>
    ghost var writes: seq<Write>
    ghost var released: seq<nat>  // the buffers brelse has been called for, in order

    ghost predicate Valid()
      reads this
    {
      && Linked(ring, next, prev) && Whole(ring) && |next| == NBUF + 1
      && Sound(buf, disk) && disk == Apply(image, writes) && ByAge(ring, released)
    }

    ghost function Seen(): Disk
      reads this
    {
      Look(buf, disk)
    }

    /** binit, on a disk image; every buffer starts for no device. */
    constructor (image: Disk)
      ensures Valid() && disk == image == this.image && writes == [] && Seen() == image
      ensures forall k :: 0 <= k < NBUF ==> !buf[k].busy && !buf[k].dirty && !buf[k].valid
    {
      this.image := image;
      disk, writes := image, [];
      var nx: seq<nat>, pv: seq<nat> := seq(NBUF + 1, _ => HEAD), seq(NBUF + 1, _ => HEAD);
      var bufs := seq(NBUF, _ => Buf(false, false, false, NO_DEV, 0, ZeroBlock()));
      ghost var r: seq<nat> := [HEAD];
      var b := 0;
      while b < NBUF
        invariant 0 <= b <= NBUF && |nx| == |pv| == NBUF + 1
        invariant Linked(r, nx, pv) && |r| == b + 1 && r[0] == HEAD
        invariant forall q :: 0 <= q < NBUF ==> (q in r <==> q < b)
      {
        LinkedIn(r, nx, pv, b);
        nx, pv := nx[b := nx[HEAD]][HEAD := b], pv[b := HEAD][nx[HEAD] := b];
        PushedHas(r, b);
        r := Pushed(r, b);
        b := b + 1;
      }
      buf, next, prev, ring, released := bufs, nx, pv, r, [];
      new;
      assert forall s :: 0 <= s < |disk| ==> View(buf, disk, s) == disk[s];
    }

    /** bget: the sector's buffer, or the least recently released clean one, made busy. */
    method Bget(dev: int, sector: nat) returns (got: Got)
      requires Valid() && dev != NO_DEV
      modifies this`buf
      ensures |buf| == NBUF && !got.BadRequest?
      ensures got.Buffer? ==>
                && got.b < NBUF && !old(buf)[got.b].busy
                && (if Names(old(buf)[got.b], dev, sector)
                    then buf == old(buf)[got.b := old(buf)[got.b].(busy := true)]
                    else
                      && Uncached(old(buf), dev, sector)
                      && Oldest(old(buf), released, got.b)
                      && buf == old(buf)[got.b := Buf(true, false, false, dev, sector, old(buf)[got.b].data)])
      ensures got.MustSleep? ==> got.b < NBUF && Names(buf[got.b], dev, sector) && buf[got.b].busy && buf == old(buf)
      ensures got.NoBuffers? ==>
                buf == old(buf) && Uncached(buf, dev, sector) && forall k :: 0 <= k < NBUF ==> !Clean(buf[k])
    {
      var b := FindCached(buf, next, prev, ring, dev, sector);
      if b != HEAD {
        if !buf[b].busy {
          buf := buf[b := buf[b].(busy := true)];
          return Buffer(b);
        }
        return MustSleep(b);
      }
      ghost var k;
      b, k := FindVictim(buf, prev, next, ring);
      if b == HEAD {
        return NoBuffers;
      }
      LastIsOldest(buf, ring, released, k);
      buf := buf[b := Buf(true, false, false, dev, sector, buf[b].data)];
      return Buffer(b);
    }

    /** Synchronizes a busy buffer with the disk: writes it when dirty, else reads it when not valid. */
    method Iderw(b: nat) returns (ok: bool)
      requires b < NBUF == |buf|
      modifies this`buf, this`disk, this`writes
      ensures ok <==>
                && old(buf)[b].busy && (!old(buf)[b].valid || old(buf)[b].dirty)
                && old(buf)[b].dev == DISK_DEV && old(buf)[b].sector < |old(disk)|
      ensures !ok ==> unchanged(this)
      ensures ok ==>
                var x := old(buf)[b];
                if x.dirty
                then
                  && buf == old(buf)[b := x.(dirty := false, valid := true)]
                  && disk == old(disk)[x.sector := x.data] && writes == old(writes) + [Write(x.sector, x.data)]
                else
                  && buf == old(buf)[b := x.(valid := true, data := old(disk)[x.sector])]
                  && disk == old(disk) && writes == old(writes)
    {
      var x := buf[b];
      if !x.busy || (x.valid && !x.dirty) || x.dev != DISK_DEV || x.sector >= |disk| {
        return false;
      }
      if x.dirty {
        buf := buf[b := x.(dirty := false, valid := true)];
        disk := disk[x.sector := x.data];
        writes := writes + [Write(x.sector, x.data)];
      } else {
        buf := buf[b := x.(valid := true, data := disk[x.sector])];
      }
      return true;
    }

    /** A busy, valid buffer with what the kernel sees in the sector; nothing the kernel sees changes. */
    method Bread(dev: int, sector: nat) returns (got: Got)
      requires Valid() && dev != NO_DEV
      modifies this`buf, this`disk, this`writes
      ensures |buf| == NBUF
      ensures got.Buffer? ==>
                && Valid() && disk == old(disk) && writes == old(writes) && Seen() == old(Seen())
                && got.b < NBUF && sector < |disk| && Holds(buf[got.b], sector, Seen())
                && !old(buf)[got.b].busy
                && (forall k :: 0 <= k < NBUF && k != got.b ==> buf[k] == old(buf)[k])
                && buf[got.b].dirty == (Names(old(buf)[got.b], dev, sector) && old(buf)[got.b].dirty)
                && (Names(old(buf)[got.b], dev, sector) || (Clean(old(buf)[got.b]) && Uncached(old(buf), dev, sector)))
      ensures got.MustSleep? ==> got.b < NBUF && Names(buf[got.b], dev, sector) && buf[got.b].busy && unchanged(this)
      ensures got.NoBuffers? ==>
                unchanged(this) && Uncached(buf, dev, sector) && forall k :: 0 <= k < NBUF ==> !Clean(buf[k])
      ensures got.BadRequest? ==> dev != DISK_DEV || sector >= |old(disk)|
    {
      got := Bget(dev, sector);
      if got.Buffer? {
        var b := got.b;
        if !buf[b].valid {
          var ok := Iderw(b);
          if !ok {
            return BadRequest;
          }
        }
        assert buf == old(buf)[b := buf[b]];
        ReadSound(old(buf), disk, b, dev, sector, buf[b]);
      }
    }

    /** Writes a busy buffer through; answers false where bwrite panics. */
    method Bwrite(b: nat) returns (ok: bool)
      requires Valid() && b < NBUF && buf[b].valid
      modifies this`buf, this`disk, this`writes
      ensures ok <==> old(buf)[b].busy
      ensures !ok ==> unchanged(this)
      ensures ok ==>
                var x := old(buf)[b];
                && Valid() && buf == old(buf)[b := x.(dirty := false)] && x.sector < |old(disk)|
                && disk == old(disk)[x.sector := x.data] && writes == old(writes) + [Write(x.sector, x.data)]
                && Seen() == old(Seen())
    {
      if !buf[b].busy {
        return false;
      }
      buf := buf[b := buf[b].(dirty := true)];
      ok := Iderw(b);
      assert buf == old(buf)[b := old(buf)[b].(dirty := false)];
      WriteSound(old(buf), old(disk), b);
      ApplySnoc(image, old(writes), Write(old(buf)[b].sector, old(buf)[b].data));
    }

    /** The holder of a busy buffer changes its data. */
    method Fill(b: nat, data: Block)
      requires Valid() && b < NBUF && buf[b].busy && buf[b].valid
      modifies this`buf
      ensures Valid() && buf == old(buf)[b := old(buf)[b].(data := data)]
      ensures old(buf)[b].sector < |disk| && Seen() == old(Seen())[old(buf)[b].sector := data]
    {
      buf := buf[b := buf[b].(data := data)];
      FillSound(old(buf), disk, b, data);
    }

    /** log_write's pin: the holder of a busy buffer marks it dirty. */
    method MarkDirty(b: nat)
      requires Valid() && b < NBUF && buf[b].busy && buf[b].valid
      modifies this`buf
      ensures Valid() && buf == old(buf)[b := old(buf)[b].(dirty := true)] && Seen() == old(Seen())
    {
      buf := buf[b := buf[b].(dirty := true)];
      FlagSound(old(buf), disk, b, buf[b]);
    }

    /** Gives a busy buffer back, as the most recently released; answers false where brelse panics. */
    method Brelse(b: nat) returns (ok: bool, ghost k: nat)
      requires Valid() && b < NBUF
      requires buf[b].busy ==> buf[b].valid && (buf[b].dirty || buf[b].data == disk[buf[b].sector])
      modifies this`buf, this`next, this`prev, this`ring, this`released
      ensures ok <==> old(buf)[b].busy
      ensures !ok ==> unchanged(this)
      ensures ok ==>
                && Valid() && buf == old(buf)[b := old(buf)[b].(busy := false)] && Seen() == old(Seen())
                && 0 < k < |old(ring)| && old(ring)[k] == b && ring == ToFront(old(ring), k)
                && released == old(released) + [b]
    {
      k := 0;
      if !buf[b].busy {
        return false, k;
      }
      next, prev, k := MoveToFront(next, prev, ring, b);
      ReleasedByAge(ring, released, k);
      ring, released := ToFront(ring, k), released + [b];
      buf := buf[b := buf[b].(busy := false)];
      FlagSound(old(buf), disk, b, buf[b]);
      return true, k;
    }
  }

  ghost predicate Uncached(buf: seq<Buf>, dev: int, sector: nat)
  {
    forall k :: 0 <= k < |buf| ==> !Names(buf[k], dev, sector)
  }

  /** Buffer b is clean, and no clean buffer was last released before it. */
  ghost predicate Oldest(buf: seq<Buf>, released: seq<nat>, b: nat)
  {
    && |buf| == NBUF && b < NBUF && Clean(buf[b])
    && forall c: nat {:trigger buf[c]} :: c < NBUF && Clean(buf[c]) ==> LastAt(released, b) <= LastAt(released, c)
  }

  /** The last clean buffer of the ring is the oldest. */
  lemma LastIsOldest(buf: seq<Buf>, ring: seq<nat>, released: seq<nat>, k: nat)
    requires |buf| == NBUF && Whole(ring) && ByAge(ring, released) && 0 < k < |ring| && ring[k] < NBUF
    requires Clean(buf[ring[k]]) && forall j :: k < j < |ring| ==> ring[j] < NBUF && !Clean(buf[ring[j]])
    ensures Oldest(buf, released, ring[k])
  {
    forall c: nat {:trigger buf[c]} | c < NBUF && Clean(buf[c])
      ensures LastAt(released, ring[k]) <= LastAt(released, c)
    {
      assert c in ring;
      var j :| 0 <= j < |ring| && ring[j] == c;
      assert j < k ==> Older(ring, released, j, k);
    }
  }

  lemma PushedHas(ring: seq<nat>, b: nat)
    requires |ring| > 0
    ensures forall q :: q in Pushed(ring, b) <==> q == b || q in ring
  {
    var r := Pushed(ring, b);
    assert r[1] == b && r[0] == ring[0];
    forall q | q in ring ensures q in r {
      var k :| 0 <= k < |ring| && ring[k] == q;
      assert r[if k == 0 then 0 else k + 1] == q;
    }
    forall q | q in r && q != b ensures q in ring {
      var k :| 0 <= k < |r| && r[k] == q;
      assert ring[if k == 0 then 0 else k - 1] == q;
    }
  }

  /** A busy buffer with the kernel's view of a sector. */
  ghost predicate Holds(b: Buf, sector: nat, seen: Disk)
  {
    b.busy && b.valid && Names(b, DISK_DEV, sector) && sector < |seen| && b.data == seen[sector]
  }

  lemma UpdateSound(buf: seq<Buf>, disk: Disk, b: nat, x: Buf)
    requires Sound(buf, disk) && b < NBUF && Honest(x, disk)
    requires x.dev == NO_DEV || Names(buf[b], x.dev, x.sector) || Uncached(buf, x.dev, x.sector)
    ensures Sound(buf[b := x], disk)
  {
  }

  /** bread: whether the buffer was there or was filled from the disk, the view stands. */
  lemma ReadSound(buf: seq<Buf>, disk: Disk, b: nat, dev: int, sector: nat, x: Buf)
    requires Sound(buf, disk) && b < NBUF && !buf[b].busy && dev != NO_DEV
    requires if Names(buf[b], dev, sector) then x == buf[b].(busy := true) && x.valid
             else Uncached(buf, dev, sector) && Clean(buf[b]) && dev == DISK_DEV && sector < |disk|
                  && x == Buf(true, true, false, dev, sector, disk[sector])
    ensures Sound(buf[b := x], disk) && Look(buf[b := x], disk) == Look(buf, disk)
    ensures sector < |disk| && Holds(x, sector, Look(buf, disk))
  {
    var buf' := buf[b := x];
    UpdateSound(buf, disk, b, x);
    forall s | 0 <= s < |disk| ensures View(buf', disk, s) == View(buf, disk, s) {
      if s == sector {
        ViewIs(buf', disk, b);
        if Names(buf[b], dev, sector) {
          ViewIs(buf, disk, b);
        } else {
          ViewDisk(buf, disk, s);
        }
      } else if Names(buf[b], DISK_DEV, s) && buf[b].valid {
        ViewIs(buf, disk, b);
        ViewGone(buf, disk, b, x, s);
      } else {
        ViewSame(buf, disk, buf', disk, s, b);
      }
    }
    assert Look(buf', disk) == Look(buf, disk);
    ViewIs(buf', disk, b);
  }

  /** Taking a clean buffer away from a sector uncovers the same data on the disk. */
  lemma ViewGone(buf: seq<Buf>, disk: Disk, b: nat, x: Buf, s: nat)
    requires Sound(buf, disk) && b < NBUF && Names(buf[b], DISK_DEV, s) && buf[b].valid && s < |disk|
    requires !Names(x, DISK_DEV, s)
    ensures View(buf[b := x], disk, s) == disk[s]
  {
    var buf' := buf[b := x];
    forall k | 0 <= k < |buf'| ensures !Names(buf'[k], DISK_DEV, s) {
      if k != b {
        assert buf'[k] == buf[k] && buf[b].dev != NO_DEV;
      }
    }
    ViewDisk(buf', disk, s);
  }

  lemma ToFrontHas(ring: seq<nat>, k: nat)
    requires 0 < k < |ring|
    ensures forall q :: q in ring <==> q in ToFront(ring, k)
  {
    var r := ToFront(ring, k);
    forall q | q in ring ensures q in r {
      var j :| 0 <= j < |ring| && ring[j] == q;
      assert r[if j == 0 then 0 else if j == k then 1 else if j < k then j + 1 else j] == q;
    }
    forall q | q in r ensures q in ring {
      var j :| 0 <= j < |r| && r[j] == q;
      assert ring[if j == 0 then 0 else if j == 1 then k else if j <= k then j - 1 else j] == q;
    }
  }

  /** Changing flags of a buffer that stays valid and honest changes nothing the kernel sees. */
  lemma FlagSound(buf: seq<Buf>, disk: Disk, b: nat, x: Buf)
    requires Sound(buf, disk) && b < NBUF && buf[b].valid && x.valid && Honest(x, disk)
    requires Names(x, buf[b].dev, buf[b].sector) && x.data == buf[b].data
    ensures Sound(buf[b := x], disk) && Look(buf[b := x], disk) == Look(buf, disk)
  {
    var buf' := buf[b := x];
    UpdateSound(buf, disk, b, x);
    forall s | 0 <= s < |disk| ensures View(buf', disk, s) == View(buf, disk, s) {
      if s == x.sector {
        ViewIs(buf, disk, b);
        ViewIs(buf', disk, b);
      } else {
        ViewSame(buf, disk, buf', disk, s, b);
      }
    }
    assert Look(buf', disk) == Look(buf, disk);
  }

  lemma FillSound(buf: seq<Buf>, disk: Disk, b: nat, data: Block)
    requires Sound(buf, disk) && b < NBUF && buf[b].valid && buf[b].busy
    ensures var x := buf[b].(data := data);
            && Sound(buf[b := x], disk) && x.sector < |disk|
            && Look(buf[b := x], disk) == Look(buf, disk)[x.sector := data]
  {
    var x := buf[b].(data := data);
    var buf' := buf[b := x];
    assert Honest(buf[b], disk);
    UpdateSound(buf, disk, b, x);
    forall s | 0 <= s < |disk| ensures View(buf', disk, s) == Look(buf, disk)[x.sector := data][s] {
      if s == x.sector {
        ViewIs(buf', disk, b);
      } else {
        ViewSame(buf, disk, buf', disk, s, b);
      }
    }
    assert Look(buf', disk) == Look(buf, disk)[x.sector := data];
  }

  lemma WriteSound(buf: seq<Buf>, disk: Disk, b: nat)
    requires Sound(buf, disk) && b < NBUF && buf[b].valid && buf[b].busy
    ensures buf[b].sector < |disk|
    ensures var x := buf[b].(dirty := false);
            var disk' := disk[x.sector := x.data];
            Sound(buf[b := x], disk') && Look(buf[b := x], disk') == Look(buf, disk)
  {
    assert Honest(buf[b], disk);
    var x := buf[b].(dirty := false);
    var buf', disk' := buf[b := x], disk[x.sector := x.data];
    assert Sound(buf', disk') by {
      forall k | 0 <= k < NBUF ensures Honest(buf'[k], disk') {
        assert Honest(buf[k], disk);
        assert k != b && buf[k].valid ==> buf[k].sector != x.sector;
      }
    }
    forall s | 0 <= s < |disk| ensures View(buf', disk', s) == View(buf, disk, s) {
      if s == x.sector {
        ViewIs(buf, disk, b);
        ViewIs(buf', disk', b);
      } else {
        ViewSame(buf, disk, buf', disk', s, b);
      }
    }
    assert Look(buf', disk') == Look(buf, disk);
  }
}