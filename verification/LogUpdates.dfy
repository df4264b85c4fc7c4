/**
What fs.c does to a block in a transaction (bread, change, log_write, brelse), over the buffer cache. It is one step on
the disk as the kernel sees it and on the list of logged sectors, and the cache never runs out of buffers for it.
*/
module LogUpdates {
  import opened Blocks
  import opened LogHeader
  import opened BufferCache
  import opened CrashLog
  import opened TransactionLog

  lemma Buffers(log: Log)
    requires log.Valid()
    ensures |log.cache.buf| == NBUF && |log.lh| < log.size <= NBUF && |log.cache.Seen()| == |log.cache.disk|
  {
  }

  /** The part of it that follows bread. */
  method Put(log: Log, b: nat, data: Block) returns (o: Outcome)
    requires log.Valid() && log.busy && b < NBUF && log.cache.buf[b].busy && log.cache.buf[b].valid
    requires !(log.start <= log.cache.buf[b].sector < log.start + log.size)
    modifies log, log.cache
    ensures o == if |old(log.lh)| < LOGSIZE && |old(log.lh)| < log.size - 1 then Done else TooBig
    ensures o.Done? ==>
              && log.Valid() && log.busy && log.lh == Absorb(old(log.lh), old(log.cache.buf)[b].sector)
              && log.cache.disk == old(log.cache.disk) && old(log.cache.buf)[b].sector < |log.cache.disk|
              && log.cache.Seen() == old(log.cache.Seen())[old(log.cache.buf)[b].sector := data]
              && log.cache.buf == old(log.cache.buf)[b := old(log.cache.buf)[b].(data := data, dirty := true,
                                                                                 busy := false)]
  {
    hide *;
    Buffers(log);
    log.Change(b, data);
    o := log.LogWrite(b);
    if o.Done? {
      var ok := log.Release(b);
    }
  }

  /** bget has a buffer to give. */
  lemma CanRead(log: Log, held: nat)
    requires log.Valid() && held <= NBUF && |log.lh| < (if held < NBUF then NBUF - 1 else NBUF)
    requires forall k :: 0 <= k < NBUF && k != held ==> !log.cache.buf[k].busy
    ensures exists k :: 0 <= k < NBUF && Clean(log.cache.buf[k])
  {
    SomeClean(log.cache.buf, log.cache.disk, log.lh, held);
  }

  /** With nobody holding a buffer. */
  method Update(log: Log, s: nat, data: Block) returns (o: Outcome)
    requires log.Valid() && log.busy && Quiet(log.cache.buf)
    requires s < |log.cache.disk| && !(log.start <= s < log.start + log.size)
    modifies log, log.cache
    ensures o == if |old(log.lh)| < LOGSIZE && |old(log.lh)| < log.size - 1 then Done else TooBig
    ensures o.Done? ==>
              && log.Valid() && log.busy && Quiet(log.cache.buf) && log.lh == Absorb(old(log.lh), s)
              && s < |old(log.cache.Seen())| && log.cache.Seen() == old(log.cache.Seen())[s := data]
              && log.cache.disk == old(log.cache.disk)
  {
    assert |log.lh| < NBUF && |log.cache.buf| == NBUF;
    hide Log.Valid;
    CanRead(log, NBUF);
    var got := log.Read(s);
    o := Put(log, got.b, data);
  }

  /**
  While another buffer is held, as bmap holds an index block when it allocates. On a full log bread itself may find no
  buffer, since all the others are pinned.
  */
  method UpdateHolding(log: Log, s: nat, data: Block, held: nat) returns (o: Outcome)
    requires log.Valid() && log.busy && held < NBUF && OnlyBusy(log.cache.buf, held) && log.cache.buf[held].sector != s
    requires s < |log.cache.disk| && !(log.start <= s < log.start + log.size)
    modifies log, log.cache
    ensures o.Done? <==> |old(log.lh)| < log.size - 1
    ensures o.Done? || o.TooBig? || (o.NoBuffer? && |old(log.lh)| == NBUF - 1)
    ensures o.Done? ==>
              && log.Valid() && log.busy && OnlyBusy(log.cache.buf, held)
              && log.cache.buf[held] == old(log.cache.buf)[held]
              && log.lh == Absorb(old(log.lh), s) && log.cache.disk == old(log.cache.disk)
              && s < |old(log.cache.Seen())| && log.cache.Seen() == old(log.cache.Seen())[s := data]
  {
    Buffers(log);
    hide Log.Valid;
    if |log.lh| < NBUF - 1 {
      CanRead(log, held);
    }
    var got := log.Read(s);
    if !got.Buffer? {
      return NoBuffer;
    }
    o := Put(log, got.b, data);
  }

  // ---- Whole transactions ----

  /** A block update, or updates made while an index block h is held, followed by one of h itself. */
  datatype Step = Plain(w: Write) | Under(h: nat, inner: seq<Write>, data: Block)

  /** The updates of some steps, in order. */
  function Flat(step: Step): seq<Write>
  {
    match step
    case Plain(w) => [w]
    case Under(h, inner, data) => inner + [Write(h, data)]
  }

  function Flats(steps: seq<Step>): seq<Write>
  {
    if steps == [] then [] else Flats(steps[..|steps| - 1]) + Flat(steps[|steps| - 1])
  }

  /** The list after some updates. */
  function Absorbs(lh: seq<nat>, ws: seq<Write>): seq<nat>
  {
    if ws == [] then lh else Absorb(Absorbs(lh, ws[..|ws| - 1]), ws[|ws| - 1].sector)
  }

  /** A sector of the disk outside the log. */
  predicate Home(s: nat, start: nat, size: nat, disk: nat)
  {
    s < disk && !(start <= s < start + size)
  }

  predicate Proper(step: Step, start: nat, size: nat, disk: nat)
  {
    match step
    case Plain(w) => Home(w.sector, start, size, disk)
    case Under(h, inner, _) =>
      Home(h, start, size, disk) && InnerProper(inner, h, start, size, disk)
  }

  predicate AllProper(steps: seq<Step>, start: nat, size: nat, disk: nat)
  {
    forall k :: 0 <= k < |steps| ==> Proper(steps[k], start, size, disk)
  }

  /** After the first k updates log_write refuses one more. */
  predicate Crowded(lh: seq<nat>, ws: seq<Write>, k: nat, size: int)
    requires k <= |ws|
  {
    |Absorbs(lh, ws[..k])| >= size - 1
  }

  /** log_write has taken every update; the disk as seen and the list are what they make of what they were. */
  ghost predicate Played(v0: Disk, lh0: seq<nat>, ws: seq<Write>, v: Disk, lh: seq<nat>, size: int)
  {
    && v == Apply(v0, ws) && lh == Absorbs(lh0, ws)
    && forall k: nat {:trigger Crowded(lh0, ws, k, size)} | k < |ws| :: !Crowded(lh0, ws, k, size)
  }

  lemma PlayedMore(v0: Disk, lh0: seq<nat>, ws: seq<Write>, v: Disk, lh: seq<nat>, w: Write, size: int)
    requires Played(v0, lh0, ws, v, lh, size) && w.sector < |v| && |lh| < size - 1
    ensures Played(v0, lh0, ws + [w], v[w.sector := w.data], Absorb(lh, w.sector), size)
  {
    assert (ws + [w])[..|ws|] == ws;
    forall k: nat | k < |ws + [w]| ensures !Crowded(lh0, ws + [w], k, size) {
      assert (ws + [w])[..k] == ws[..k];
      assert k < |ws| ==> !Crowded(lh0, ws, k, size);
    }
  }

  /** The crowding seen after some updates shows in the whole. */
  lemma CrowdedThere(v0: Disk, lh0: seq<nat>, before: seq<Write>, v: Disk, lh: seq<nat>, ws: seq<Write>, size: int)
    requires before <= ws && Played(v0, lh0, before, v, lh, size) && |lh| >= size - 1
    ensures Crowded(lh0, ws, |before|, size)
  {
    assert ws[..|before|] == before;
  }

  /** In a transaction, buffer b alone is held, with contents x; d is the disk below. */
  ghost predicate HeldAs(log: Log, b: nat, x: Buf, d: Disk)
    reads log, log.cache
  {
    && log.Valid() && log.busy && |log.cache.buf| == NBUF && b < NBUF && OnlyBusy(log.cache.buf, b)
    && log.cache.buf[b] == x && log.cache.disk == d
  }

  predicate InnerProper(inner: seq<Write>, h: nat, start: nat, size: nat, disk: nat)
  {
    forall k :: 0 <= k < |inner| ==> Home(inner[k].sector, start, size, disk) && inner[k].sector != h
  }

  /** The updates of one step that are made while its index block is held. */
  method Inner(log: Log, inner: seq<Write>, b: nat, ghost x: Buf, ghost d: Disk, ghost v0: Disk, ghost lh0: seq<nat>,
               ghost before: seq<Write>)
    returns (o: Outcome, ghost k: nat)
    requires HeldAs(log, b, x, d) && InnerProper(inner, x.sector, log.start, log.size, |d|)
    requires Played(v0, lh0, before, log.cache.Seen(), log.lh, log.size)
    modifies log, log.cache
    ensures o.Done? || (k <= |inner| && Crowded(lh0, before + inner, |before| + k, log.size))
    ensures o.Done? ==> HeldAs(log, b, x, d) && Played(v0, lh0, before + inner, log.cache.Seen(), log.lh, log.size)
  {
    hide HeldAs;
    hide Cache.Seen;
    hide Played;
    hide Crowded;
    hide Part;
    hide Home;
    PartEnds(before, inner);
    k := 0;
    var i := 0;
    while i < |inner|
      invariant 0 <= i <= |inner| && HeldAs(log, b, x, d)
      invariant Played(v0, lh0, Part(before, inner, i), log.cache.Seen(), log.lh, log.size)
    {
      k := i;
      PartMore(before, inner, i);
      o := InnerOne(log, inner[i], b, x, d, v0, lh0, Part(before, inner, i), before + inner);
      if !o.Done? {
        return;
      }
      i := i + 1;
    }
    o := Done;
  }

  /** One of them; ws are the updates of the whole transaction so far and of this step. */
  method InnerOne(log: Log, w: Write, b: nat, ghost x: Buf, ghost d: Disk, ghost v0: Disk, ghost lh0: seq<nat>,
                  ghost before: seq<Write>, ghost ws: seq<Write>)
    returns (o: Outcome)
    requires HeldAs(log, b, x, d) && Home(w.sector, log.start, log.size, |d|) && w.sector != x.sector
    requires Played(v0, lh0, before, log.cache.Seen(), log.lh, log.size) && before <= ws
    modifies log, log.cache
    ensures o.Done? || Crowded(lh0, ws, |before|, log.size)
    ensures o.Done? ==> HeldAs(log, b, x, d) && Played(v0, lh0, before + [w], log.cache.Seen(), log.lh, log.size)
  {
    hide Log.Valid;
    hide Cache.Seen;
    hide Played;
    hide Crowded;
    hide Absorb;
    ghost var v, lh := log.cache.Seen(), log.lh;
    o := UpdateHolding(log, w.sector, w.data, b);
    if o.Done? {
      Buffers(log);
      PlayedMore(v0, lh0, before, v, lh, w, log.size);
    } else {
      CrowdedThere(v0, lh0, before, v, lh, ws, log.size);
    }
  }

  ghost function Part(before: seq<Write>, inner: seq<Write>, i: nat): seq<Write>
    requires i <= |inner|
  {
    before + inner[..i]
  }

  lemma PartEnds(before: seq<Write>, inner: seq<Write>)
    ensures Part(before, inner, 0) == before && Part(before, inner, |inner|) == before + inner
  {
  }

  lemma PartMore(before: seq<Write>, inner: seq<Write>, i: nat)
    requires i < |inner|
    ensures Part(before, inner, i) + [inner[i]] == Part(before, inner, i + 1)
    ensures Part(before, inner, i) <= before + inner && |Part(before, inner, i)| == |before| + i
  {
  }

  /** bread of the index block: nobody else holds a buffer, so there is one. */
  method Hold(log: Log, h: nat) returns (b: nat, ghost x: Buf)
    requires log.Valid() && log.busy && Quiet(log.cache.buf) && Home(h, log.start, log.size, |log.cache.disk|)
    modifies log.cache
    ensures HeldAs(log, b, x, old(log.cache.disk)) && x.sector == h && x.valid
    ensures log.cache.Seen() == old(log.cache.Seen())
  {
    Buffers(log);
    CanRead(log, NBUF);
    hide Log.Valid;
    hide Cache.Seen;
    var got := log.Read(h);
    b, x := got.b, log.cache.buf[got.b];
    Buffers(log);
  }

  /** The change of the index block, its log_write and brelse. */
  method PutHeld(log: Log, b: nat, data: Block, ghost x: Buf, ghost d: Disk, ghost v0: Disk, ghost lh0: seq<nat>,
                 ghost before: seq<Write>)
    returns (o: Outcome)
    requires HeldAs(log, b, x, d) && x.valid && Home(x.sector, log.start, log.size, |d|)
    requires Played(v0, lh0, before, log.cache.Seen(), log.lh, log.size)
    modifies log, log.cache
    ensures o.Done? || Crowded(lh0, before + [Write(x.sector, data)], |before|, log.size)
    ensures o.Done? ==>
              && log.Valid() && log.busy && Quiet(log.cache.buf) && log.cache.disk == d
              && Played(v0, lh0, before + [Write(x.sector, data)], log.cache.Seen(), log.lh, log.size)
  {
    hide Log.Valid;
    hide Cache.Seen;
    hide Played;
    hide Crowded;
    hide Absorb;
    ghost var v, lh := log.cache.Seen(), log.lh;
    Buffers(log);
    o := Put(log, b, data);
    if o.Done? {
      PlayedMore(v0, lh0, before, v, lh, Write(x.sector, data), log.size);
    } else {
      CrowdedThere(v0, lh0, before, v, lh, before + [Write(x.sector, data)], log.size);
    }
  }

  /** Updates under an index block. */
  method DoUnder(log: Log, h: nat, inner: seq<Write>, data: Block, ghost v0: Disk, ghost lh0: seq<nat>,
                 ghost before: seq<Write>)
    returns (o: Outcome, ghost k: nat)
    requires log.Valid() && log.busy && Quiet(log.cache.buf)
    requires Proper(Under(h, inner, data), log.start, log.size, |log.cache.disk|)
    requires Played(v0, lh0, before, log.cache.Seen(), log.lh, log.size)
    modifies log, log.cache
    ensures o.Done? || (k <= |inner| && Crowded(lh0, before + inner + [Write(h, data)], |before| + k, log.size))
    ensures o.Done? ==>
              && log.Valid() && log.busy && Quiet(log.cache.buf) && log.cache.disk == old(log.cache.disk)
              && Played(v0, lh0, before + inner + [Write(h, data)], log.cache.Seen(), log.lh, log.size)
  {
    hide Log.Valid;
    hide Cache.Seen;
    hide Played;
    hide Crowded;
    hide Home;
    hide HeldAs;
    hide InnerProper;
    hide Quiet;
    ghost var d := log.cache.disk;
    var b;
    ghost var x;
    b, x := Hold(log, h);
    o, k := Inner(log, inner, b, x, d, v0, lh0, before);
    if !o.Done? {
      CrowdedWhole(lh0, before + inner, |before| + k, before + inner + [Write(h, data)], log.size);
      return;
    }
    k := |inner|;
    o := PutHeld(log, b, data, x, d, v0, lh0, before + inner);
  }

  lemma CrowdedWhole(lh0: seq<nat>, part: seq<Write>, k: nat, ws: seq<Write>, size: int)
    requires k <= |part| && part <= ws && Crowded(lh0, part, k, size)
    ensures Crowded(lh0, ws, k, size)
  {
    assert ws[..k] == part[..k];
  }

  /** One step of a transaction. */
  method Do(log: Log, step: Step, ghost v0: Disk, ghost lh0: seq<nat>, ghost before: seq<Write>)
    returns (o: Outcome, ghost k: nat)
    requires log.Valid() && log.busy && Quiet(log.cache.buf) && Proper(step, log.start, log.size, |log.cache.disk|)
    requires Played(v0, lh0, before, log.cache.Seen(), log.lh, log.size)
    modifies log, log.cache
    ensures o.Done? || (k < |Flat(step)| && Crowded(lh0, before + Flat(step), |before| + k, log.size))
    ensures o.Done? ==>
              && log.Valid() && log.busy && Quiet(log.cache.buf) && log.cache.disk == old(log.cache.disk)
              && Played(v0, lh0, before + Flat(step), log.cache.Seen(), log.lh, log.size)
  {
    hide Log.Valid;
    hide Cache.Seen;
    hide Played;
    hide Crowded;
    hide Quiet;
    match step {
      case Plain(w) =>
        ghost var v, lh := log.cache.Seen(), log.lh;
        Buffers(log);
        k := 0;
        o := Update(log, w.sector, w.data);
        if o.Done? {
          PlayedMore(v0, lh0, before, v, lh, w, log.size);
        } else {
          CrowdedThere(v0, lh0, before, v, lh, before + [w], log.size);
        }
      case Under(h, inner, data) =>
        o, k := DoUnder(log, h, inner, data, v0, lh0, before);
        assert before + inner + [Write(h, data)] == before + Flat(step);
    }
  }

  lemma FlatsMore(steps: seq<Step>, i: nat)
    requires i < |steps|
    ensures Flats(steps[..i + 1]) == Flats(steps[..i]) + Flat(steps[i])
  {
    assert steps[..i + 1][..i] == steps[..i];
  }

  lemma {:induction false} FlatsWithin(steps: seq<Step>, i: nat)
    requires i <= |steps|
    ensures Flats(steps[..i]) <= Flats(steps)
    decreases |steps| - i
  {
    if i < |steps| {
      FlatsMore(steps, i);
      FlatsWithin(steps, i + 1);
    } else {
      assert steps[..i] == steps;
    }
  }

  /** A transaction from begin_trans to commit_trans: it fails exactly when the log has no room for one of the updates,
      never for want of a buffer; otherwise every update is on the disk. */
  method Transaction(log: Log, steps: seq<Step>) returns (o: Outcome, ghost k: nat)
    requires log.Valid() && !log.busy && log.lh == [] && Quiet(log.cache.buf)
    requires AllProper(steps, log.start, log.size, |log.cache.disk|)
    modifies log, log.cache
    ensures !o.Done? ==> k < |Flats(steps)| && Crowded([], Flats(steps), k, log.size)
    ensures o.Done? ==> forall j: nat {:trigger Crowded([], Flats(steps), j, log.size)} | j < |Flats(steps)| ::
              !Crowded([], Flats(steps), j, log.size)
    ensures o.Done? ==> log.Valid() && !log.busy && log.lh == [] && Quiet(log.cache.buf)
    ensures o.Done? ==>
              && |log.cache.disk| == |old(log.cache.disk)| == |old(log.cache.Seen())|
              && forall s | 0 <= s < |log.cache.disk| && !(log.start <= s < log.start + log.size) ::
                   log.cache.disk[s] == log.cache.Seen()[s] == Apply(old(log.cache.Seen()), Flats(steps))[s]
  {
    hide Log.Valid;
    hide Cache.Seen;
    hide Played;
    hide Crowded;
    hide Quiet;
    hide Flats;
    hide Flat;
    hide Proper;
    ghost var v0 := log.cache.Seen();
    Buffers(log);
    var ok := log.BeginTrans();
    k := 0;
    o := Done;
    var i := 0;
    NoneFlat(v0, steps, log.size);
    while i < |steps|
      invariant 0 <= i <= |steps| && log.Valid() && log.busy && Quiet(log.cache.buf) && o.Done?
      invariant log.cache.disk == old(log.cache.disk)
      invariant Played(v0, [], Flats(steps[..i]), log.cache.Seen(), log.lh, log.size)
    {
      ghost var j;
      FlatsMore(steps, i);
      FlatsWithin(steps, i + 1);
      o, j := Do(log, steps[i], v0, [], Flats(steps[..i]));
      if !o.Done? {
        k := |Flats(steps[..i])| + j;
        CrowdedWhole([], Flats(steps[..i + 1]), k, Flats(steps), log.size);
        return;
      }
      i := i + 1;
    }
    assert steps[..i] == steps;
    AllPlayed(v0, Flats(steps), log.cache.Seen(), log.lh, log.size);
    Buffers(log);
    ghost var header, erased := log.CommitTrans();
  }

  lemma AllPlayed(v0: Disk, ws: seq<Write>, v: Disk, lh: seq<nat>, size: int)
    requires Played(v0, [], ws, v, lh, size)
    ensures v == Apply(v0, ws)
    ensures forall k: nat {:trigger Crowded([], ws, k, size)} | k < |ws| :: !Crowded([], ws, k, size)
  {
  }

  lemma NoneFlat(v: Disk, steps: seq<Step>, size: int)
    ensures Played(v, [], Flats(steps[..0]), v, [], size)
  {
  }
}
