/**
A transaction of the file system, whatever calls it consists of, carried out on the buffer cache and
the log: what commit leaves on the disk is what the file system sees.
*/
module DiskTransactions {
  import opened Blocks
  import opened LogHeader
  import opened LogBooks
  import opened BufferCache
  import opened TransactionLog
  import opened LogUpdates
  import FileSystems

  /** For each sector of the list, its last contents. */
  function Final(v: Disk, lh: seq<nat>): (ws: seq<Write>)
    requires forall k :: 0 <= k < |lh| ==> lh[k] < |v|
    ensures |ws| == |lh| && forall k :: 0 <= k < |ws| ==> ws[k] == Write(lh[k], v[lh[k]])
  {
    seq(|lh|, k requires 0 <= k < |lh| => Write(lh[k], v[lh[k]]))
  }

  function Plains(ws: seq<Write>): (steps: seq<Step>)
    ensures |steps| == |ws| && forall k :: 0 <= k < |ws| ==> steps[k] == Plain(ws[k])
  {
    seq(|ws|, k requires 0 <= k < |ws| => Plain(ws[k]))
  }

  lemma {:induction false} PlainsFlat(ws: seq<Write>)
    ensures Flats(Plains(ws)) == ws
  {
    if ws == [] {
      assert Plains(ws) == [];
    } else {
      var front := ws[..|ws| - 1];
      PlainsFlat(front);
      assert Plains(ws)[..|ws| - 1] == Plains(front);
      assert ws == front + [ws[|ws| - 1]];
    }
  }

  lemma AbsorbsSnoc(lh: seq<nat>, ws: seq<Write>, w: Write)
    ensures Absorbs(lh, ws + [w]) == Absorb(Absorbs(lh, ws), w.sector)
  {
    assert (ws + [w])[..|ws|] == ws;
  }

  lemma FinalProper(v: Disk, lh: seq<nat>, start: nat, size: nat)
    requires forall k :: 0 <= k < |lh| ==> lh[k] < |v|
    requires forall x | x in lh :: !(start <= x < start + size)
    ensures AllProper(Plains(Final(v, lh)), start, size, |v|)
  {
    forall k | 0 <= k < |lh| ensures Home(lh[k], start, size, |v|) {
      assert lh[k] in lh;
    }
  }

  /** The first k of them list the first k sectors, */
  lemma {:induction false} FinalLists(v: Disk, lh: seq<nat>, k: nat)
    requires Distinct(lh) && (forall j :: 0 <= j < |lh| ==> lh[j] < |v|) && k <= |lh|
    ensures Absorbs([], Final(v, lh)[..k]) == lh[..k]
  {
    if k > 0 {
      var ws := Final(v, lh);
      FinalLists(v, lh, k - 1);
      assert ws[..k] == ws[..k - 1] + [ws[k - 1]] && lh[..k] == lh[..k - 1] + [lh[k - 1]];
      AbsorbsSnoc([], ws[..k - 1], ws[k - 1]);
      hide Absorbs;
      assert lh[k - 1] !in lh[..k - 1];
    }
  }

  /** and bring them up to date. */
  lemma {:induction false} FinalWrites(v0: Disk, v: Disk, lh: seq<nat>, k: nat, s: nat)
    requires |v0| == |v| && s < |v| && (forall j :: 0 <= j < |lh| ==> lh[j] < |v|) && k <= |lh|
    ensures Apply(v0, Final(v, lh)[..k])[s] == if s in lh[..k] then v[s] else v0[s]
  {
    if k > 0 {
      var ws := Final(v, lh);
      FinalWrites(v0, v, lh, k - 1, s);
      assert ws[..k] == ws[..k - 1] + [ws[k - 1]] && lh[..k] == lh[..k - 1] + [lh[k - 1]];
      ApplySnoc(v0, ws[..k - 1], ws[k - 1]);
      hide Apply;
    }
  }

  /** A transaction that has listed every sector it changed is known by the last contents of those sectors. */
  lemma FinalIs(v0: Disk, v: Disk, lh: seq<nat>)
    requires Recorded(v0, [], v, lh) && Distinct(lh) && forall j :: 0 <= j < |lh| ==> lh[j] < |v|
    ensures Apply(v0, Final(v, lh)) == v && Absorbs([], Final(v, lh)) == lh
  {
    FinalLists(v, lh, |lh|);
    forall s: nat | s < |v| ensures Apply(v0, Final(v, lh)[..|lh|])[s] == v[s] {
      FinalWrites(v0, v, lh, |lh|, s);
    }
    assert Final(v, lh)[..|lh|] == Final(v, lh) && lh[..|lh|] == lh;
  }

  /** There is room in the log for all of them. */
  lemma FinalFits(v: Disk, lh: seq<nat>, size: nat, j: nat)
    requires Distinct(lh) && (forall i :: 0 <= i < |lh| ==> lh[i] < |v|) && j < |lh| < size
    ensures !Crowded([], Final(v, lh), j, size)
  {
    FinalLists(v, lh, j);
  }

  lemma ListedInside(fs: FileSystems.FileSystem)
    requires fs.Consistent()
    ensures Distinct(fs.lh) && (fs.lh == [] || |fs.lh| < fs.logSize) && Recorded(fs.disk, [], fs.view, fs.lh)
    ensures |fs.view| == |fs.disk| && forall k :: 0 <= k < |fs.lh| ==> fs.lh[k] < |fs.view|
  {
    forall k | 0 <= k < |fs.lh| ensures fs.lh[k] < |fs.view| {
      assert Loggable(fs.lh[k], fs.sb, fs.g.reserved);
    }
  }

  /** The log, started on the file system's disk, ends with the disk the file system's transaction has made. */
  method Perform(log: Log, fs: FileSystems.FileSystem) returns (o: Outcome)
    requires fs.Consistent() && log.Valid() && !log.busy && log.lh == [] && Quiet(log.cache.buf)
    requires log.cache.Seen() == fs.disk && log.start == fs.LogStart() && log.size == fs.logSize
    requires forall x | x in fs.lh :: !(log.start <= x < log.start + log.size)
    modifies log, log.cache
    ensures o.Done? && log.Valid() && !log.busy && log.lh == [] && Quiet(log.cache.buf)
    ensures |log.cache.disk| == |fs.view|
    ensures forall s | 0 <= s < |fs.view| && !(log.start <= s < log.start + log.size) ::
              log.cache.disk[s] == log.cache.Seen()[s] == fs.view[s]
  {
    hide FileSystems.FileSystem.Consistent;
    hide Log.Valid;
    hide Cache.Seen;
    hide Quiet;
    hide Flats;
    hide Apply;
    hide Absorbs;
    hide Crowded;
    hide Recorded;
    ListedInside(fs);
    Buffers(log);
    FinalIs(fs.disk, fs.view, fs.lh);
    var ws := Final(fs.view, fs.lh);
    PlainsFlat(ws);
    FinalProper(fs.view, fs.lh, log.start, log.size);
    ghost var k;
    o, k := Transaction(log, Plains(ws));
    if !o.Done? {
      FinalFits(fs.view, fs.lh, log.size, k);
    }
  }
}
