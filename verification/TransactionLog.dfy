/**
The transaction log of log.c over the buffer cache: modified blocks stay pinned in
dirty buffers until commit_trans writes the header, installs them and erases the header.
*/
module TransactionLog {
  import opened Basics
  import opened Blocks
  import opened LogHeader
  import opened BufferCache
  import opened CrashLog

  /** Nobody holds a buffer. */
  ghost predicate Quiet(buf: seq<Buf>)
  {
    forall k :: 0 <= k < |buf| ==> !buf[k].busy
  }

  /** Nobody holds a buffer but b. */
  ghost predicate OnlyBusy(buf: seq<Buf>, b: nat)
  {
    b < |buf| && buf[b].busy && forall k :: 0 <= k < |buf| && k != b ==> !buf[k].busy
  }

  /** Every dirty buffer is for a sector of the list. */
  ghost predicate DirtyIn(buf: seq<Buf>, pins: seq<nat>)
  {
    forall k :: 0 <= k < |buf| && buf[k].dirty ==> buf[k].sector in pins
  }

  /** The dirty buffers are exactly those of the sectors of the list. */
  ghost predicate Pinned(buf: seq<Buf>, pins: seq<nat>)
  {
    && DirtyIn(buf, pins)
    && forall s | s in pins :: exists k :: 0 <= k < |buf| && Names(buf[k], DISK_DEV, s) && buf[k].dirty
  }

  ghost function ToSet(s: seq<nat>): (r: set<nat>)
    ensures |r| <= |s|
  {
    if s == [] then {} else var r := ToSet(s[1..]); r + {s[0]}
  }

  lemma {:induction false} ToSetHas(s: seq<nat>, x: nat)
    requires x in s
    ensures x in ToSet(s)
  {
    if x != s[0] {
      ToSetHas(s[1..], x);
    }
  }

  /** Too few pins to cover all buffers: some buffer is clean, or is the one held. */
  lemma SomeClean(buf: seq<Buf>, disk: Disk, pins: seq<nat>, b: nat)
    requires Sound(buf, disk) && DirtyIn(buf, pins) && b <= NBUF
    requires forall k :: 0 <= k < NBUF && k != b ==> !buf[k].busy
    requires |pins| < if b < NBUF then NBUF - 1 else NBUF
    ensures exists k :: 0 <= k < NBUF && Clean(buf[k])
  {
    if forall k :: 0 <= k < NBUF ==> !Clean(buf[k]) {
      var n := if b < NBUF then NBUF - 1 else NBUF;
      var sectors := seq(n, k requires 0 <= k < n => buf[if k < b then k else k + 1].sector);
      forall k | 0 <= k < n ensures sectors[k] in ToSet(pins) {
        var j := if k < b then k else k + 1;
        assert !Clean(buf[j]) && Honest(buf[j], disk);
        ToSetHas(pins, sectors[k]);
      }
      forall i, j | 0 <= i < j < n ensures sectors[i] != sectors[j] {
        var (p, q) := (if i < b then i else i + 1, if j < b then j else j + 1);
        assert !Clean(buf[p]) && !Clean(buf[q]) && Honest(buf[p], disk) && Honest(buf[q], disk);
        assert p != q;
      }
      DistinctBound(sectors, ToSet(pins));
      assert false;
    }
  }

  /** Away from the pins, what the kernel sees is on the disk. */
  lemma SeenIsDisk(buf: seq<Buf>, disk: Disk, pins: seq<nat>, s: nat)
    requires Sound(buf, disk) && Quiet(buf) && DirtyIn(buf, pins) && s < |disk| && s !in pins
    ensures Look(buf, disk)[s] == disk[s]
  {
    if k :| 0 <= k < NBUF && Names(buf[k], DISK_DEV, s) && buf[k].valid {
      assert Honest(buf[k], disk);
      ViewIs(buf, disk, k);
    } else {
      ViewDisk(buf, disk, s);
    }
  }

  /** bread of a sector while nobody holds a buffer and few are pinned: bget finds a buffer. */
  method Grab(cache: Cache, s: nat, ghost pins: seq<nat>) returns (b: nat)
    requires cache.Valid() && Quiet(cache.buf) && DirtyIn(cache.buf, pins) && |pins| < NBUF && s < |cache.disk|
    modifies cache
    ensures cache.Valid() && b < NBUF && OnlyBusy(cache.buf, b) && Holds(cache.buf[b], s, cache.Seen())
    ensures DirtyIn(cache.buf, pins) && (cache.buf[b].dirty ==> s in pins)
    ensures cache.Seen() == old(cache.Seen()) && cache.disk == old(cache.disk) && cache.writes == old(cache.writes)
  {
    SomeClean(cache.buf, cache.disk, pins, NBUF);
    var got := cache.Bread(DISK_DEV, s);
    assert got.Buffer?;
    b := got.b;
  }

  /** bread of the first pinned sector while a buffer for an unpinned sector is held. */
  method GrabSecond(cache: Cache, s: nat, l: nat, ghost pins: seq<nat>) returns (b: nat)
    requires cache.Valid() && l < NBUF && OnlyBusy(cache.buf, l) && DirtyIn(cache.buf, pins)
    requires cache.buf[l].sector != s && cache.buf[l].sector !in pins
    requires 0 < |pins| < NBUF && pins[0] == s && s < |cache.disk|
    modifies cache
    ensures cache.Valid() && b < NBUF && b != l && Holds(cache.buf[b], s, cache.Seen())
    ensures cache.buf[l] == old(cache.buf)[l]
    ensures forall k :: 0 <= k < NBUF && k != l && k != b ==> !cache.buf[k].busy
    ensures DirtyIn(cache.buf, pins)
    ensures cache.Seen() == old(cache.Seen()) && cache.disk == old(cache.disk) && cache.writes == old(cache.writes)
  {
    if Uncached(cache.buf, DISK_DEV, s) {
      NotFirst(cache.buf, cache.disk, pins);
      SomeClean(cache.buf, cache.disk, pins[1..], l);
    }
    var got := cache.Bread(DISK_DEV, s);
    assert got.Buffer?;
    b := got.b;
  }

  lemma NotFirst(buf: seq<Buf>, disk: Disk, pins: seq<nat>)
    requires Sound(buf, disk) && DirtyIn(buf, pins) && |pins| > 0 && Uncached(buf, DISK_DEV, pins[0])
    ensures DirtyIn(buf, pins[1..])
  {
    forall k | 0 <= k < |buf| && buf[k].dirty ensures buf[k].sector in pins[1..] {
      assert Honest(buf[k], disk);
      assert pins == [pins[0]] + pins[1..];
    }
  }

  /** Writes a held buffer through and gives it back. */
  method PutBack(cache: Cache, b: nat)
    requires cache.Valid() && b < NBUF && cache.buf[b].busy && cache.buf[b].valid
    modifies cache
    ensures cache.Valid() && cache.buf == old(cache.buf)[b := old(cache.buf)[b].(busy := false, dirty := false)]
    ensures cache.Seen() == old(cache.Seen()) && old(cache.buf)[b].sector < |old(cache.disk)|
    ensures cache.disk == old(cache.disk)[old(cache.buf)[b].sector := old(cache.buf)[b].data]
    ensures cache.writes == old(cache.writes) + [Write(old(cache.buf)[b].sector, old(cache.buf)[b].data)]
  {
    var ok := cache.Bwrite(b);
    ghost var k;
    ok, k := cache.Brelse(b);
    assert cache.buf == old(cache.buf)[b := old(cache.buf)[b].(busy := false, dirty := false)];
  }

  /** install_trans's two writes, log copy first. */
  method WriteBoth(cache: Cache, l: nat, d: nat)
    requires cache.Valid() && l < NBUF && d < NBUF && l != d
    requires cache.buf[l].busy && cache.buf[l].valid && cache.buf[d].busy && cache.buf[d].valid
    modifies cache
    ensures cache.Valid() && cache.Seen() == old(cache.Seen()) && |cache.disk| == |old(cache.disk)|
    ensures cache.buf == old(cache.buf)[l := old(cache.buf)[l].(dirty := false)]
                                      [d := old(cache.buf)[d].(dirty := false)]
    ensures cache.writes == old(cache.writes)
              + [Write(old(cache.buf)[l].sector, old(cache.buf)[l].data),
                 Write(old(cache.buf)[d].sector, old(cache.buf)[d].data)]
    ensures cache.buf[l].sector < |cache.disk| && cache.disk[cache.buf[l].sector] == cache.buf[l].data
    ensures cache.buf[d].sector < |cache.disk| && cache.disk[cache.buf[d].sector] == cache.buf[d].data
  {
    TwoHeld(cache.buf, cache.disk, l, d);
    hide Cache.Valid;
    hide Cache.Seen;
    ghost var buf0, disk0 := cache.buf, cache.disk;
    var ok := cache.Bwrite(l);
    ghost var buf1, disk1 := cache.buf, cache.disk;
    ok := cache.Bwrite(d);
    TwoWritten(buf0, disk0, buf1, disk1, cache.buf, cache.disk, l, d);
  }

  lemma TwoHeld(buf: seq<Buf>, disk: Disk, l: nat, d: nat)
    requires Sound(buf, disk) && l < NBUF && d < NBUF && l != d && buf[l].valid && buf[d].valid
    ensures buf[l].sector < |disk| && buf[d].sector < |disk| && buf[l].sector != buf[d].sector
  {
    assert Honest(buf[l], disk) && Honest(buf[d], disk);
  }

  lemma TwoWritten(buf0: seq<Buf>, disk0: Disk, buf1: seq<Buf>, disk1: Disk, buf2: seq<Buf>, disk2: Disk, l: nat,
                   d: nat)
    requires l < |buf0| && d < |buf0| && l != d
    requires buf0[l].sector < |disk0| && buf0[d].sector < |disk0| && buf0[l].sector != buf0[d].sector
    requires buf1 == buf0[l := buf0[l].(dirty := false)] && disk1 == disk0[buf0[l].sector := buf0[l].data]
    requires buf2 == buf1[d := buf1[d].(dirty := false)] && disk2 == disk1[buf1[d].sector := buf1[d].data]
    ensures buf2 == buf0[l := buf0[l].(dirty := false)][d := buf0[d].(dirty := false)] && |disk2| == |disk0|
    ensures buf2[l].sector < |disk2| && disk2[buf2[l].sector] == buf2[l].data == buf0[l].data
    ensures buf2[d].sector < |disk2| && disk2[buf2[d].sector] == buf2[d].data == buf0[d].data
    ensures buf1[d] == buf0[d]
  {
  }

  method ReleaseBoth(cache: Cache, l: nat, d: nat)
    requires cache.Valid() && l < NBUF && d < NBUF && l != d
    requires cache.buf[l].busy && cache.buf[l].valid && cache.buf[d].busy && cache.buf[d].valid
    requires cache.buf[l].sector < |cache.disk| && cache.disk[cache.buf[l].sector] == cache.buf[l].data
    requires cache.buf[d].sector < |cache.disk| && cache.disk[cache.buf[d].sector] == cache.buf[d].data
    modifies cache
    ensures cache.Valid() && cache.Seen() == old(cache.Seen()) && cache.disk == old(cache.disk)
    ensures cache.writes == old(cache.writes)
    ensures cache.buf == old(cache.buf)[l := old(cache.buf)[l].(busy := false)][d := old(cache.buf)[d].(busy := false)]
  {
    var ok;
    ghost var k;
    ok, k := cache.Brelse(l);
    ok, k := cache.Brelse(d);
  }

  /** Copies buffer d into buffer l, writes both, gives both back. */
  method Transfer(cache: Cache, l: nat, d: nat)
    requires cache.Valid() && l < NBUF && d < NBUF && l != d
    requires cache.buf[l].busy && cache.buf[l].valid && cache.buf[d].busy && cache.buf[d].valid
    modifies cache
    ensures cache.Valid() && |cache.disk| == |old(cache.disk)| && old(cache.buf)[l].sector < |cache.disk|
    ensures cache.Seen() == old(cache.Seen())[old(cache.buf)[l].sector := old(cache.buf)[d].data]
    ensures cache.buf == old(cache.buf)[l := old(cache.buf)[l].(busy := false, dirty := false,
                                                                data := old(cache.buf)[d].data)]
                                      [d := old(cache.buf)[d].(busy := false, dirty := false)]
    ensures cache.writes == old(cache.writes)
              + [Write(old(cache.buf)[l].sector, old(cache.buf)[d].data),
                 Write(old(cache.buf)[d].sector, old(cache.buf)[d].data)]
  {
    cache.Fill(l, cache.buf[d].data);
    WriteBoth(cache, l, d);
    ReleaseBoth(cache, l, d);
  }

  lemma AppendMore(a: seq<Write>, b: seq<Write>, c: seq<Write>)
    ensures a + b + c == a + (b + c)
  {
  }

  lemma SameCopied(v: Disk, start: nat, lh: seq<nat>, k: nat)
    requires k < |lh| && start + |lh| < |v| && Outside(lh, start, |lh| + 1, |v|)
    ensures Copied(v, start, lh, k)[lh[k]] == v[lh[k]]
    ensures Copied(v, start, lh, k + 1) == Copied(v, start, lh, k)[start + k + 1 := v[lh[k]]]
    ensures InstallWrites(v, start, lh, k + 1) ==
            InstallWrites(v, start, lh, k) + [Write(start + k + 1, v[lh[k]]), Write(lh[k], v[lh[k]])]
  {
  }

  datatype Outcome = Done | TooBig | OutsideTransaction | NoBuffer

  class Log {
    const cache: Cache
    const start: nat
    const size: nat
    var lh: seq<nat>
    var busy: bool

    constructor (cache: Cache, start: nat, size: nat)
      ensures this.cache == cache && this.start == start && this.size == size && lh == [] && !busy
    {
      this.cache, this.start, this.size, lh, busy := cache, start, size, [], false;
    }

    /** The log is on the disk, fits the cache, and lists distinct home sectors. */
    ghost predicate Fits()
      reads this, cache
    {
      && cache.Valid() && start + size <= |cache.disk| <= TWO32 && 0 < size <= NBUF
      && |lh| < size && |lh| <= LOGSIZE && Distinct(lh) && Outside(lh, start, size, |cache.disk|)
    }

    /** What every operation of a transaction keeps: the dirty buffers are exactly the logged sectors. */
    ghost predicate Valid()
      reads this, cache
    {
      Fits() && Pinned(cache.buf, lh) && (lh != [] ==> busy) && Lists(cache.disk[start], [])
    }

    /** write_head's loop. */
    method EncodeHeader(b: Block) returns (h: Block)
      requires |lh| <= LOGSIZE && forall i :: 0 <= i < |lh| ==> lh[i] < TWO32
      ensures h == HeaderBlock(b, lh, |lh|)
    {
      h := PutWord(b, 0, |lh|);
      var i := 0;
      while i < |lh|
        invariant 0 <= i <= |lh| && h == HeaderBlock(b, lh, i)
      {
        h := PutWord(h, i + 1, lh[i]);
        i := i + 1;
      }
    }

    method WriteHead(ghost pins: seq<nat>) returns (ghost h: Block)
      requires Fits() && Quiet(cache.buf) && DirtyIn(cache.buf, pins) && |pins| < NBUF && start !in pins
      modifies cache
      ensures Fits() && Quiet(cache.buf) && DirtyIn(cache.buf, pins)
      ensures Lists(h, lh) && cache.Seen() == old(cache.Seen())[start := h] && cache.disk == old(cache.disk)[start := h]
      ensures cache.writes == old(cache.writes) + [Write(start, h)]
    {
      var b := Grab(cache, start, pins);
      var block := EncodeHeader(cache.buf[b].data);
      HeaderRoundTrip(cache.buf[b].data, lh);
      h := block;
      cache.Fill(b, block);
      PutBack(cache, b);
    }

    /** One turn of install_trans: home sector lh[tail] to the log, then home. */
    method InstallOne(tail: nat)
      requires Fits() && Quiet(cache.buf) && tail < |lh| && DirtyIn(cache.buf, lh[tail..])
      modifies cache
      ensures Fits() && Quiet(cache.buf) && DirtyIn(cache.buf, lh[tail + 1..])
      ensures cache.Seen() == old(cache.Seen())[start + tail + 1 := old(cache.Seen())[lh[tail]]]
      ensures cache.writes == old(cache.writes)
                + [Write(start + tail + 1, old(cache.Seen())[lh[tail]]), Write(lh[tail], old(cache.Seen())[lh[tail]])]
    {
      ghost var v, pins := cache.Seen(), lh[tail..];
      assert start + tail + 1 !in pins;
      var l := Grab(cache, start + tail + 1, pins);
      var d := GrabSecond(cache, lh[tail], l, pins);
      Transfer(cache, l, d);
      DropFirst(cache.buf, cache.disk, lh, tail, d);
    }

    /** The first `tail` listed sectors are installed; v is what the kernel saw before, w0 the writes before. */
    ghost predicate Installing(v: Disk, w0: seq<Write>, tail: nat)
      reads this, cache
    {
      && Fits() && tail <= |lh| && |v| == |cache.disk|
      && Quiet(cache.buf) && DirtyIn(cache.buf, lh[tail..])
      && cache.Seen() == Copied(v, start, lh, tail)
      && cache.writes == w0 + InstallWrites(v, start, lh, tail)
    }

    method InstallTurn(tail: nat, ghost v: Disk, ghost w0: seq<Write>)
      requires Installing(v, w0, tail) && tail < |lh|
      modifies cache
      ensures Installing(v, w0, tail + 1)
    {
      SameCopied(v, start, lh, tail);
      InstallOne(tail);
      AppendMore(w0, InstallWrites(v, start, lh, tail),
                 [Write(start + tail + 1, v[lh[tail]]), Write(lh[tail], v[lh[tail]])]);
    }

    method InstallTrans()
      requires Fits() && Quiet(cache.buf) && DirtyIn(cache.buf, lh)
      modifies cache
      ensures Fits() && Quiet(cache.buf) && DirtyIn(cache.buf, [])
      ensures |old(cache.Seen())| == |cache.Seen()| && cache.Seen() == Copied(old(cache.Seen()), start, lh, |lh|)
      ensures cache.writes == old(cache.writes) + InstallWrites(old(cache.Seen()), start, lh, |lh|)
    {
      var tail := 0;
      assert lh[0..] == lh;
      while tail < |lh|
        invariant tail <= |lh| && Installing(old(cache.Seen()), old(cache.writes), tail)
      {
        InstallTurn(tail, old(cache.Seen()), old(cache.writes));
        tail := tail + 1;
      }
      assert lh[tail..] == [];
    }

    /** begin_trans, for the process that gets the log; others wait while busy. */
    method BeginTrans() returns (ok: bool)
      requires Valid()
      modifies this
      ensures Valid() && ok == !old(busy) && busy && lh == old(lh)
    {
      ok := !busy;
      busy := true;
    }

    /** bread in a transaction: no pinned buffer is given away. */
    method Read(s: nat) returns (got: Got)
      requires Valid()
      modifies cache
      ensures got.Buffer? ==>
                && Valid() && cache.Seen() == old(cache.Seen()) && cache.disk == old(cache.disk)
                && got.b < NBUF && Holds(cache.buf[got.b], s, cache.Seen())
                && forall k :: 0 <= k < NBUF && old(cache.buf)[k].dirty ==>
                  Names(cache.buf[k], old(cache.buf)[k].dev, old(cache.buf)[k].sector) && cache.buf[k].dirty
      ensures got.Buffer? ==>
                !old(cache.buf)[got.b].busy && forall k :: 0 <= k < NBUF && k != got.b ==>
                    cache.buf[k] == old(cache.buf)[k]
      ensures !got.Buffer? && s < |old(cache.disk)| ==> unchanged(cache)
      ensures got.MustSleep? ==>
                exists k :: 0 <= k < NBUF && old(cache.buf)[k].busy && Names(old(cache.buf)[k], DISK_DEV, s)
      ensures got.NoBuffers? ==> forall k :: 0 <= k < NBUF ==> !Clean(old(cache.buf)[k])
      ensures got.BadRequest? ==> s >= |old(cache.disk)|
    {
      got := cache.Bread(DISK_DEV, s);
      if got.Buffer? {
        PinsKept(old(cache.buf), old(cache.disk), cache.buf, lh, got.b, s);
      }
    }

    /** log_write: records the sector of a held buffer and pins the buffer. */
    method LogWrite(b: nat) returns (o: Outcome)
      requires Valid() && b < NBUF && cache.buf[b].busy && cache.buf[b].valid
      requires !(start <= cache.buf[b].sector < start + size)
      modifies this, cache
      ensures o == if |old(lh)| >= LOGSIZE || |old(lh)| >= size - 1 then TooBig
              else if !old(busy) then OutsideTransaction else Done
      ensures Valid() && busy == old(busy) && cache.Seen() == old(cache.Seen()) && cache.disk == old(cache.disk)
      ensures lh == if o.Done? then Absorb(old(lh), cache.buf[b].sector) else old(lh)
      ensures cache.buf == if o.Done? then old(cache.buf)[b := old(cache.buf)[b].(dirty := true)] else old(cache.buf)
    {
      var ok, list := Record(lh, size, cache.buf[b].sector);
      if !ok {
        return TooBig;
      }
      if !busy {
        return OutsideTransaction;
      }
      assert Honest(cache.buf[b], cache.disk);
      lh := list;
      cache.MarkDirty(b);
      PinOne(old(cache.buf), old(lh), b);
      return Done;
    }

    /** brelse in a transaction: changed data must have been logged. */
    method Release(b: nat) returns (ok: bool)
      requires Valid() && b < NBUF
      requires cache.buf[b].busy ==>
                cache.buf[b].valid && (cache.buf[b].dirty || cache.buf[b].data == cache.disk[cache.buf[b].sector])
      modifies cache
      ensures ok == old(cache.buf)[b].busy
      ensures Valid() && cache.Seen() == old(cache.Seen()) && cache.disk == old(cache.disk)
      ensures cache.buf == old(cache.buf)[b := old(cache.buf)[b].(busy := false)]
    {
      ghost var k;
      ok, k := cache.Brelse(b);
      assert cache.buf == old(cache.buf)[b := old(cache.buf)[b].(busy := false)];
      FlagPins(old(cache.buf), cache.buf, lh);
    }

    /** The holder of a buffer changes its data. */
    method Change(b: nat, data: Block)
      requires Valid() && b < NBUF && cache.buf[b].busy && cache.buf[b].valid
      modifies cache
      ensures Valid() && cache.disk == old(cache.disk)
      ensures cache.buf == old(cache.buf)[b := old(cache.buf)[b].(data := data)]
      ensures old(cache.buf)[b].sector < |cache.disk|
      ensures cache.Seen() == old(cache.Seen())[old(cache.buf)[b].sector := data]
    {
      cache.Fill(b, data);
      FlagPins(old(cache.buf), cache.buf, lh);
    }

    /** The commit about to happen, with the two header blocks it will write. */
    ghost function Plan(header: Block, erased: Block): Commit
      reads this, cache
    {
      Commit(start, size, lh, cache.disk, cache.Seen(), header, erased)
    }

    /** commit_trans up to the installation. bget always finds a buffer. */
    method LogAndInstall() returns (ghost header: Block)
      requires Fits() && Quiet(cache.buf) && DirtyIn(cache.buf, lh)
      modifies cache
      ensures Fits() && Quiet(cache.buf) && DirtyIn(cache.buf, []) && Lists(header, lh)
      ensures cache.writes == old(cache.writes) + [Write(start, header)]
              + InstallWrites(old(cache.Seen()), start, lh, |lh|)
      ensures |cache.Seen()| == |old(cache.Seen())|
      ensures forall s ::
                0 <= s < |cache.Seen()| && !(start <= s < start + size) ==> cache.Seen()[s] == old(cache.Seen())[s]
    {
      header := WriteHead(lh);
      InstallSame(old(cache.Seen()), cache.Seen(), start, lh, |lh|);
      InstallTrans();
    }

    /** commit_trans's writes: header, installation, erased header. */
    method CommitWrites() returns (ghost header: Block, ghost erased: Block)
      requires Fits() && Quiet(cache.buf) && DirtyIn(cache.buf, lh)
      modifies this`lh, cache
      ensures Fits() && lh == [] && Quiet(cache.buf) && DirtyIn(cache.buf, []) && Lists(cache.disk[start], [])
      ensures Lists(header, old(lh)) && Lists(erased, [])
      ensures cache.writes == old(cache.writes)
                + ([Write(start, header)] + InstallWrites(old(cache.Seen()), start, old(lh), |old(lh)|)
                   + [Write(start, erased)])
      ensures |cache.Seen()| == |old(cache.Seen())|
      ensures forall s ::
                0 <= s < |cache.Seen()| && !(start <= s < start + size) ==> cache.Seen()[s] == old(cache.Seen())[s]
    {
      header := LogAndInstall();
      ghost var ws := InstallWrites(old(cache.Seen()), start, lh, |lh|);
      lh := [];
      erased := WriteHead([]);
      AppendThree(old(cache.writes), Write(start, header), ws, Write(start, erased));
    }

    /** commit_trans: an uncut commit puts every logged sector home and changes nothing the kernel sees of the home
        sectors. */
    method CommitTrans() returns (ghost header: Block, ghost erased: Block)
      requires Valid() && Quiet(cache.buf) && busy
      modifies this, cache
      ensures Valid() && lh == [] && !busy && Quiet(cache.buf) && DirtyIn(cache.buf, [])
      ensures old(lh) == [] ==> unchanged(cache)
      ensures old(lh) != [] ==>
                && old(Plan(header, erased)).Valid()
                && cache.writes == old(cache.writes) + old(Plan(header, erased)).Writes()
                && cache.disk == Apply(old(cache.disk), old(Plan(header, erased)).Writes())
      ensures |cache.disk| == |old(cache.disk)|
      ensures forall s ::
                0 <= s < |cache.disk| && !(start <= s < start + size) ==>
                    cache.disk[s] == cache.Seen()[s] == old(cache.Seen())[s]
    {
      header, erased := ZeroBlock(), ZeroBlock();
      if lh != [] {
        header, erased := CommitWrites();
        PlanValid(old(cache.buf), old(cache.disk), start, size, old(lh), header, erased);
        ApplyAppend(cache.image, old(cache.writes), old(Plan(header, erased)).Writes());
      }
      busy := false;
      Settled(cache.buf, cache.disk);
    }

    /** read_head's loop. */
    method DecodeHeader(b: Block) returns (list: seq<nat>)
      requires Word(b, 0) <= LOGSIZE
      ensures list == Listed(b)
    {
      hide Word;
      list := [];
      var i := 0;
      while i < Word(b, 0)
        invariant 0 <= i <= Word(b, 0) && list == Listed(b)[..i]
      {
        list := list + [Word(b, i + 1)];
        i := i + 1;
      }
    }

    method ReadHead()
      requires cache.Valid() && Quiet(cache.buf) && DirtyIn(cache.buf, []) && start < |cache.disk|
      requires Word(cache.disk[start], 0) <= LOGSIZE
      modifies this`lh, cache
      ensures cache.Valid() && Quiet(cache.buf) && DirtyIn(cache.buf, [])
      ensures cache.disk == old(cache.disk) && cache.writes == old(cache.writes) && lh == Listed(cache.disk[start])
    {
      Settled(cache.buf, cache.disk);
      var b := Grab(cache, start, []);
      lh := DecodeHeader(cache.buf[b].data);
      ghost var k;
      var ok;
      ok, k := cache.Brelse(b);
    }

    /** recover_from_log, on the disk a crash left: its writes change no home sector. */
    method RecoverFromLog() returns (ghost erased: Block)
      requires cache.Valid() && Quiet(cache.buf) && DirtyIn(cache.buf, []) && Bootable(cache.disk, start, size)
      requires size <= NBUF && |cache.disk| <= TWO32 && Distinct(Listed(cache.disk[start])) && !busy
      modifies this, cache
      ensures Valid() && lh == [] && !busy && Quiet(cache.buf) && Lists(erased, [])
      ensures cache.writes == old(cache.writes)
              + RecoveryWrites(old(cache.disk), start, Listed(old(cache.disk)[start]), erased)
      ensures |cache.disk| == |old(cache.disk)|
      ensures forall s :: 0 <= s < |cache.disk| && !(start <= s < start + size) ==> cache.disk[s] == old(cache.disk)[s]
    {
      hide InstallWrites;
      hide Copied;
      ReadHead();
      Settled(cache.buf, cache.disk);
      ghost var list := lh;
      DirtyNone(cache.buf, lh);
      InstallTrans();
      lh := [];
      erased := WriteHead([]);
      AppendMore(old(cache.writes), InstallWrites(old(cache.disk), start, list, |list|), [Write(start, erased)]);
      Settled(cache.buf, cache.disk);
    }
  }

  lemma DropFirst(buf: seq<Buf>, disk: Disk, lh: seq<nat>, tail: nat, d: nat)
    requires Sound(buf, disk) && tail < |lh| && DirtyIn(buf, lh[tail..])
    requires d < NBUF && Names(buf[d], DISK_DEV, lh[tail]) && !buf[d].dirty
    ensures DirtyIn(buf, lh[tail + 1..])
  {
    forall k | 0 <= k < |buf| && buf[k].dirty ensures buf[k].sector in lh[tail + 1..] {
      assert Honest(buf[k], disk);
      assert lh[tail..] == [lh[tail]] + lh[tail + 1..];
    }
  }

  lemma PinsKept(buf: seq<Buf>, disk: Disk, buf': seq<Buf>, pins: seq<nat>, b: nat, s: nat)
    requires Sound(buf, disk) && Pinned(buf, pins) && |buf'| == NBUF && b < NBUF
    requires forall k :: 0 <= k < NBUF && k != b ==> buf'[k] == buf[k]
    requires Names(buf'[b], DISK_DEV, s)
    requires if Names(buf[b], DISK_DEV, s) then buf'[b].dirty == buf[b].dirty else !buf'[b].dirty && Clean(buf[b])
    ensures Pinned(buf', pins)
  {
    forall q | q in pins ensures exists k :: 0 <= k < |buf'| && Names(buf'[k], DISK_DEV, q) && buf'[k].dirty {
      var k :| 0 <= k < |buf| && Names(buf[k], DISK_DEV, q) && buf[k].dirty;
      assert Names(buf'[k], DISK_DEV, q) && buf'[k].dirty;
    }
  }

  lemma FlagPins(buf: seq<Buf>, buf': seq<Buf>, pins: seq<nat>)
    requires Pinned(buf, pins) && |buf'| == |buf|
    requires forall k :: 0 <= k < |buf| ==> buf'[k].dirty == buf[k].dirty && Names(buf'[k], buf[k].dev, buf[k].sector)
    ensures Pinned(buf', pins)
  {
    forall q | q in pins ensures exists k :: 0 <= k < |buf'| && Names(buf'[k], DISK_DEV, q) && buf'[k].dirty {
      var k :| 0 <= k < |buf| && Names(buf[k], DISK_DEV, q) && buf[k].dirty;
      assert Names(buf'[k], DISK_DEV, q) && buf'[k].dirty;
    }
  }

  lemma PinOne(buf: seq<Buf>, pins: seq<nat>, b: nat)
    requires Pinned(buf, pins) && b < |buf| && buf[b].dev == DISK_DEV
    ensures Pinned(buf[b := buf[b].(dirty := true)], Absorb(pins, buf[b].sector))
  {
    var buf', pins' := buf[b := buf[b].(dirty := true)], Absorb(pins, buf[b].sector);
    forall q | q in pins' ensures exists k :: 0 <= k < |buf'| && Names(buf'[k], DISK_DEV, q) && buf'[k].dirty {
      if q == buf[b].sector {
        assert Names(buf'[b], DISK_DEV, q);
      } else {
        var k :| 0 <= k < |buf| && Names(buf[k], DISK_DEV, q) && buf[k].dirty;
        assert Names(buf'[k], DISK_DEV, q) && buf'[k].dirty;
      }
    }
  }

  lemma {:induction false} InstallSame(v: Disk, v': Disk, start: nat, lh: seq<nat>, k: nat)
    requires k <= |lh| && |v'| == |v| && forall i :: 0 <= i < |lh| ==> lh[i] < |v| && v'[lh[i]] == v[lh[i]]
    ensures InstallWrites(v', start, lh, k) == InstallWrites(v, start, lh, k)
  {
    if k > 0 {
      InstallSame(v, v', start, lh, k - 1);
    }
  }

  lemma AppendThree(before: seq<Write>, a: Write, ws: seq<Write>, z: Write)
    ensures before + [a] + ws + [z] == before + ([a] + ws + [z])
  {
  }

  /** With nothing pinned and nobody holding a buffer, the disk is what the kernel sees. */
  lemma Settled(buf: seq<Buf>, disk: Disk)
    requires Sound(buf, disk) && Quiet(buf) && DirtyIn(buf, [])
    ensures Look(buf, disk) == disk
  {
    forall s | 0 <= s < |disk| ensures Look(buf, disk)[s] == disk[s] {
      SeenIsDisk(buf, disk, [], s);
    }
  }

  lemma PlanValid(buf: seq<Buf>, disk: Disk, start: nat, size: nat, lh: seq<nat>, header: Block, erased: Block)
    requires Sound(buf, disk) && Quiet(buf) && DirtyIn(buf, lh)
    requires start + size <= |disk| <= TWO32 && |lh| < size && |lh| <= LOGSIZE && Distinct(lh)
    requires Outside(lh, start, size, |disk|)
    requires Lists(disk[start], []) && Lists(header, lh) && Lists(erased, [])
    ensures Commit(start, size, lh, disk, Look(buf, disk), header, erased).Valid()
  {
    forall s | 0 <= s < |disk| && s !in lh ensures Look(buf, disk)[s] == disk[s] {
      SeenIsDisk(buf, disk, lh, s);
    }
  }

  lemma DirtyNone(buf: seq<Buf>, pins: seq<nat>)
    requires DirtyIn(buf, [])
    ensures DirtyIn(buf, pins)
  {
  }
}