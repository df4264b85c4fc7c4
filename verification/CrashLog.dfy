/**
What a commit writes to the disk, sector by sector, and what recovery makes of the disk
a crash leaves behind.
*/
module CrashLog {
  import opened Basics
  import opened Blocks
  import opened LogHeader
  import opened BufferCache

  /** install_trans: for each listed sector, a copy to the log and then the home sector itself. */
  function InstallWrites(v: Disk, start: nat, lh: seq<nat>, k: nat): (ws: seq<Write>)
    requires k <= |lh| && forall i :: 0 <= i < |lh| ==> lh[i] < |v|
    ensures |ws| == 2 * k
  {
    if k == 0 then []
    else InstallWrites(v, start, lh, k - 1) + [Write(start + k, v[lh[k - 1]]), Write(lh[k - 1], v[lh[k - 1]])]
  }

  lemma InPrefix(lh: seq<nat>, k: nat, j: nat)
    requires k <= |lh| && j < |lh|
    ensures j < k ==> lh[j] in lh[..k]
  {
    if j < k {
      assert lh[..k][j] == lh[j];
    }
  }

  lemma Between(a: Write, ws: seq<Write>, z: Write, j: nat)
    requires j < |ws|
    ensures ([a] + ws + [z])[j + 1] == ws[j]
  {
  }

  lemma {:induction false} InstallAt(v: Disk, start: nat, lh: seq<nat>, k: nat, i: nat)
    requires i < k <= |lh| && forall i :: 0 <= i < |lh| ==> lh[i] < |v|
    ensures InstallWrites(v, start, lh, k)[2 * i] == Write(start + i + 1, v[lh[i]])
    ensures InstallWrites(v, start, lh, k)[2 * i + 1] == Write(lh[i], v[lh[i]])
  {
    if i < k - 1 {
      InstallAt(v, start, lh, k - 1, i);
    }
  }

  /** Where a commit happens: the log, the list, the disk before, and what the kernel sees. */
  datatype Commit = Commit(start: nat, size: nat, lh: seq<nat>, disk: Disk, seen: Disk, header: Block, erased: Block)
  {
    /** The list fits the log, names distinct home sectors, and every other sector is on the disk as seen. */
    ghost predicate Valid()
    {
      && |seen| == |disk| && start + size <= |disk| <= TWO32
      && |lh| < size && |lh| <= LOGSIZE && Distinct(lh) && Outside(lh, start, size, |disk|)
      && (forall s :: 0 <= s < |disk| && s !in lh ==> seen[s] == disk[s])
      && Lists(disk[start], []) && Lists(header, lh) && Lists(erased, [])
    }

    predicate Home(s: nat) { s < |disk| && !(start <= s < start + size) }

    /** commit_trans, sector by sector: header, installation, erased header. */
    ghost function Writes(): (ws: seq<Write>)
      requires Valid()
      ensures |ws| == 2 * |lh| + 2
    {
      [Write(start, header)] + InstallWrites(seen, start, lh, |lh|) + [Write(start, erased)]
    }

    /** The disk when the machine stops after t sector writes. */
    ghost function Crashed(t: nat): Disk
      requires Valid() && t <= 2 * |lh| + 2
    {
      Apply(disk, Writes()[..t])
    }

    lemma WritePair(i: nat)
      requires Valid() && i < |lh|
      ensures Writes()[2 * i + 1] == Write(start + i + 1, seen[lh[i]])
      ensures Writes()[2 * i + 2] == Write(lh[i], seen[lh[i]])
    {
      InstallAt(seen, start, lh, |lh|, i);
      Between(Write(start, header), InstallWrites(seen, start, lh, |lh|), Write(start, erased), 2 * i);
      Between(Write(start, header), InstallWrites(seen, start, lh, |lh|), Write(start, erased), 2 * i + 1);
    }

    /** A disk with the header written and the first k listed sectors new. */
    ghost predicate Installed(d: Disk, k: nat, h: Block)
      requires k <= |lh|
    {
      && |d| == |disk| == |seen| && start < |disk| && d[start] == h
      && forall s: nat :: Home(s) ==> d[s] == if s in lh[..k] then seen[s] else disk[s]
    }

    /** Between pairs: after the header and k pairs of writes. */
    lemma {:induction false} AfterPairs(k: nat, t: nat)
      requires Valid() && k <= |lh| && t == 2 * k + 1
      ensures Installed(Crashed(t), k, header)
    {
      hide *;
      if k == 0 {
        FirstWrite();
      } else {
        AfterPairs(k - 1, t - 2);
        InsidePair(k - 1);
        PairEnd(k - 1);
      }
    }

    lemma NoWrite()
      requires Valid()
      ensures Installed(Crashed(0), 0, disk[start])
    {
      assert Writes()[..0] == [] && lh[..0] == [];
    }

    lemma FirstWrite()
      requires Valid()
      ensures Installed(Crashed(1), 0, header)
    {
      NoWrite();
      ApplyOne(disk, Writes(), 0);
    }

    lemma LastWrite()
      requires Valid() && Installed(Crashed(2 * |lh| + 1), |lh|, header)
      ensures Installed(Crashed(2 * |lh| + 2), |lh|, erased)
    {
      ApplyOne(disk, Writes(), 2 * |lh| + 1);
    }

    lemma PairEnd(i: nat)
      requires Valid() && i < |lh| && Installed(Crashed(2 * i + 2), i, header)
      ensures Installed(Crashed(2 * i + 3), i + 1, header)
    {
      WritePair(i);
      ApplyOne(disk, Writes(), 2 * i + 2);
      ListGrows(i);
    }

    lemma ListGrows(i: nat)
      requires i < |lh|
      ensures forall s :: s in lh[..i + 1] <==> s in lh[..i] || s == lh[i]
    {
      assert lh[..i + 1] == lh[..i] + [lh[i]];
    }

    /** Inside a pair: the copy to the log is made, the home sector not yet written. */
    lemma InsidePair(i: nat)
      requires Valid() && i < |lh| && Installed(Crashed(2 * i + 1), i, header)
      ensures Installed(Crashed(2 * i + 2), i, header)
    {
      WritePair(i);
      ApplyOne(disk, Writes(), 2 * i + 1);
    }

    /** How many home sectors are written after t sector writes. */
    function Done(t: nat): nat
      requires t <= 2 * |lh| + 2
    {
      if t == 0 then 0 else if t == 2 * |lh| + 2 then |lh| else (t - 1) / 2
    }

    /** What the header sector holds after t sector writes. */
    ghost function HeaderAfter(t: nat): Block
      requires Valid()
    {
      if t == 0 then disk[start] else if t <= 2 * |lh| + 1 then header else erased
    }

    /** At every crash point the home sectors are new up to some place in the list, and old from there on. */
    lemma AnyCrash(t: nat)
      requires Valid() && t <= 2 * |lh| + 2
      ensures Installed(Crashed(t), Done(t), HeaderAfter(t))
    {
      hide Valid;
      hide Installed;
      hide Crashed;
      if t == 0 {
        NoWrite();
      } else if t == 2 * |lh| + 2 {
        AfterPairs(|lh|, 2 * |lh| + 1);
        LastWrite();
      } else {
        var k := (t - 1) / 2;
        AfterPairs(k, 2 * k + 1);
        if t == 2 * k + 2 {
          InsidePair(k);
        } else {
          assert t == 2 * k + 1;
        }
      }
    }

    lemma CrashBootable(t: nat)
      requires Valid() && t <= 2 * |lh| + 2
      ensures Bootable(Crashed(t), start, size)
    {
      AnyCrash(t);
      BootableHeader(Crashed(t), start, size, if 0 < t <= 2 * |lh| + 1 then lh else []);
    }

    /** The same after the recovery that follows, even one cut short, even after several of them. */
    lemma CrashPrefix(t: nat, reboots: seq<Reboot>, s: nat)
      requires Valid() && t <= 2 * |lh| + 2 && Home(s) && forall r | r in reboots :: Lists(r.erased, [])
      ensures Bootable(Crashed(t), start, size)
      ensures |Rebooted(Crashed(t), start, size, reboots)| == |disk| == |seen|
      ensures Rebooted(Crashed(t), start, size, reboots)[s] == if s in lh[..Done(t)] then seen[s] else disk[s]
    {
      AnyCrash(t);
      CrashBootable(t);
      RebootsKeepHome(Crashed(t), start, size, reboots, s);
    }

    /** A commit that is not cut short installs every listed sector and leaves an empty header. */
    lemma FullCommit()
      requires Valid()
      ensures var d := Apply(disk, Writes());
              Lists(d[start], []) && forall s: nat :: Home(s) ==> d[s] == seen[s]
    {
      AnyCrash(2 * |lh| + 2);
      assert Writes()[..2 * |lh| + 2] == Writes();
      assert lh[..|lh|] == lh;
    }

    ghost predicate AllOld(d: Disk) { |d| == |disk| && forall s: nat :: Home(s) ==> d[s] == disk[s] }

    ghost predicate AllNew(d: Disk) { |d| == |disk| == |seen| && forall s: nat :: Home(s) ==> d[s] == seen[s] }

    /** No two listed sectors really change. */
    ghost predicate OneChange()
      requires Valid()
    {
      forall i, j :: 0 <= i < j < |lh| ==> seen[lh[i]] == disk[lh[i]] || seen[lh[j]] == disk[lh[j]]
    }

    /** The commit is all-or-nothing at every crash point exactly when at most one listed sector really changes. */
    lemma AtomicIff()
      requires Valid()
      ensures OneChange() <==>
              forall t {:trigger Crashed(t)} :: 0 <= t <= 2 * |lh| + 2 ==> AllOld(Crashed(t)) || AllNew(Crashed(t))
    {
      if OneChange() {
        forall t {:trigger Crashed(t)} | 0 <= t <= 2 * |lh| + 2 ensures AllOld(Crashed(t)) || AllNew(Crashed(t)) {
          OneChangeAtomic(t);
        }
      } else {
        var i, j :| 0 <= i < j < |lh| && seen[lh[i]] != disk[lh[i]] && seen[lh[j]] != disk[lh[j]];
        Torn(i, j);
        assert 2 * i + 3 <= 2 * |lh| + 2;
      }
    }

    lemma OneChangeAtomic(t: nat)
      requires Valid() && OneChange() && t <= 2 * |lh| + 2
      ensures AllOld(Crashed(t)) || AllNew(Crashed(t))
    {
      AnyCrash(t);
      var k := Done(t);
      if i :| 0 <= i < k && seen[lh[i]] != disk[lh[i]] {
        forall s: nat | Home(s) ensures Crashed(t)[s] == seen[s] {
          if s in lh && s !in lh[..k] {
            var j :| 0 <= j < |lh| && lh[j] == s;
            InPrefix(lh, k, j);
          }
        }
      } else {
        forall s: nat | Home(s) ensures Crashed(t)[s] == disk[s] {
          if s in lh[..k] {
            var j :| 0 <= j < k && lh[..k][j] == s;
          }
        }
      }
    }

    lemma FirstHome(i: nat, j: nat)
      requires Valid() && i < j < |lh|
      ensures Home(lh[i]) && Home(lh[j]) && lh[i] in lh[..i + 1] && lh[j] !in lh[..i + 1]
    {
      assert lh[..i + 1][i] == lh[i];
    }

    lemma Mixed(d: Disk, k: nat, a: nat, b: nat)
      requires k <= |lh| && Installed(d, k, header) && Home(a) && Home(b) && a in lh[..k] && b !in lh[..k]
      requires |seen| == |disk| && seen[a] != disk[a] && seen[b] != disk[b]
      ensures !AllOld(d) && !AllNew(d)
    {
    }

    /** After the first of two changed sectors is home, neither all old nor all new. */
    lemma Torn(i: nat, j: nat)
      requires Valid() && i < j < |lh| && seen[lh[i]] != disk[lh[i]] && seen[lh[j]] != disk[lh[j]]
      ensures !AllOld(Crashed(2 * i + 3)) && !AllNew(Crashed(2 * i + 3))
    {
      assert |seen| == |disk|;
      hide *;
      FirstHome(i, j);
      AfterPairs(i + 1, 2 * i + 3);
      Mixed(Crashed(2 * i + 3), i + 1, lh[i], lh[j]);
    }
  }

  /** A recovery that gets as far as `done` sector writes; `erased` is the header it writes last. */
  datatype Reboot = Reboot(done: nat, erased: Block)

  /** recover_from_log: installation of the listed sectors as they are, then an erased header. */
  function RecoveryWrites(d: Disk, start: nat, lh: seq<nat>, erased: Block): (ws: seq<Write>)
    requires forall i :: 0 <= i < |lh| ==> lh[i] < |d|
    ensures |ws| == 2 * |lh| + 1
  {
    InstallWrites(d, start, lh, |lh|) + [Write(start, erased)]
  }

  /** The header on the disk lists home sectors, no more than the log holds. */
  ghost predicate Bootable(d: Disk, start: nat, size: nat)
  {
    && start + size <= |d| && 0 < size && Word(d[start], 0) <= LOGSIZE
    && |Listed(d[start])| < size && Outside(Listed(d[start]), start, size, |d|)
  }

  lemma BootableHeader(d: Disk, start: nat, size: nat, lh: seq<nat>)
    requires start + size <= |d| && |lh| < size && Outside(lh, start, size, |d|) && Lists(d[start], lh)
    ensures Bootable(d, start, size) && Listed(d[start]) == lh
  {
    assert Listed(d[start]) == lh;
  }

  ghost function Rebooted1(d: Disk, start: nat, size: nat, r: Reboot): Disk
    requires Bootable(d, start, size)
  {
    var ws := RecoveryWrites(d, start, Listed(d[start]), r.erased);
    Apply(d, ws[..if r.done < |ws| then r.done else |ws|])
  }

  /** One recovery, whole or cut short, changes no home sector and leaves a disk that can be recovered. */
  lemma RebootKeepsHome(d: Disk, start: nat, size: nat, r: Reboot)
    requires Bootable(d, start, size) && Lists(r.erased, [])
    ensures var d' := Rebooted1(d, start, size, r);
            && |d'| == |d| && Bootable(d', start, size)
            && forall s: nat :: s < |d| && !(start <= s < start + size) ==> d'[s] == d[s]
  {
    var lh := Listed(d[start]);
    var ws := RecoveryWrites(d, start, lh, r.erased);
    var u := if r.done < |ws| then r.done else |ws|;
    RecoveryPrefix(d, start, size, lh, r.erased, u);
    var d' := Rebooted1(d, start, size, r);
    if u == |ws| {
      BootableHeader(d', start, size, []);
    }
  }

  lemma {:induction false} RecoveryPrefix(d: Disk, start: nat, size: nat, lh: seq<nat>, erased: Block, u: nat)
    requires start + size <= |d| && |lh| < size && Outside(lh, start, size, |d|) && u <= 2 * |lh| + 1
    ensures var d' := Apply(d, RecoveryWrites(d, start, lh, erased)[..u]);
            && d'[start] == (if u == 2 * |lh| + 1 then erased else d[start])
            && forall s: nat :: s < |d| && !(start <= s < start + size) ==> d'[s] == d[s]
  {
    var ws := RecoveryWrites(d, start, lh, erased);
    if u == 0 {
      assert ws[..0] == [];
    } else {
      RecoveryPrefix(d, start, size, lh, erased, u - 1);
      RecoveryAt(d, start, lh, erased, u - 1);
      ApplyOne(d, ws, u - 1);
    }
  }

  /** Each write of a recovery is in the log, or puts a home sector's own data back. */
  lemma RecoveryAt(d: Disk, start: nat, lh: seq<nat>, erased: Block, j: nat)
    requires (forall i :: 0 <= i < |lh| ==> lh[i] < |d|) && j < 2 * |lh| + 1
    ensures var w := RecoveryWrites(d, start, lh, erased)[j];
            if j == 2 * |lh| then w == Write(start, erased)
            else (start < w.sector <= start + |lh|) || (w.sector in lh && w.data == d[w.sector])
  {
    if j < 2 * |lh| {
      var i := j / 2;
      InstallAt(d, start, lh, |lh|, i);
      assert RecoveryWrites(d, start, lh, erased)[j] == InstallWrites(d, start, lh, |lh|)[j];
      assert j == 2 * i || j == 2 * i + 1;
    }
  }

  ghost function Rebooted(d: Disk, start: nat, size: nat, reboots: seq<Reboot>): Disk
    requires Bootable(d, start, size) && forall r | r in reboots :: Lists(r.erased, [])
    decreases |reboots|
  {
    if reboots == [] then d
    else
      RebootKeepsHome(d, start, size, reboots[0]);
      Rebooted(Rebooted1(d, start, size, reboots[0]), start, size, reboots[1..])
  }

  /** Recovery never changes a home sector, however often it is cut short and started again. */
  lemma {:induction false} RebootsKeepHome(d: Disk, start: nat, size: nat, reboots: seq<Reboot>, s: nat)
    requires Bootable(d, start, size) && forall r | r in reboots :: Lists(r.erased, [])
    requires s < |d| && !(start <= s < start + size)
    ensures var d' := Rebooted(d, start, size, reboots);
            |d'| == |d| && d'[s] == d[s]
    decreases |reboots|
  {
    if reboots != [] {
      RebootKeepsHome(d, start, size, reboots[0]);
      RebootsKeepHome(Rebooted1(d, start, size, reboots[0]), start, size, reboots[1..], s);
    }
  }

  /** A commit of two home sectors, 0 and 1, both going from a to b; the log is sectors 2 to 4. */
  ghost function TwoSectors(a: Block, b: Block): Commit
  {
    var log := [ZeroBlock(), ZeroBlock(), ZeroBlock()];
    Commit(2, 3, [0, 1], [a, a] + log, [b, b] + log, HeaderBlock(ZeroBlock(), [0, 1], 2), ZeroBlock())
  }

  lemma TwoSectorsValid(a: Block, b: Block)
    ensures var c := TwoSectors(a, b);
            && c.Valid() && c.start == 2 && c.size == 3 && c.lh == [0, 1] && |c.disk| == |c.seen| == 5
            && c.disk[0] == c.disk[1] == a && c.seen[0] == c.seen[1] == b && c.Home(0) && c.Home(1)
            && c.Done(3) == 1 && c.lh[..1] == [0]
  {
    hide Word;
    var c := TwoSectors(a, b);
    HeaderRoundTrip(ZeroBlock(), [0, 1]);
    assert c.disk[2] == ZeroBlock();
  }

  /** Cut off between its two home writes, it stays half done however often the machine reboots. */
  lemma HalfDone(a: Block, b: Block, reboots: seq<Reboot>)
    requires a != b && forall r | r in reboots :: Lists(r.erased, [])
    ensures var c := TwoSectors(a, b);
            && c.Valid() && |c.lh| == 2 && !c.AllOld(c.Crashed(3)) && !c.AllNew(c.Crashed(3))
            && Bootable(c.Crashed(3), 2, 3)
            && var d := Rebooted(c.Crashed(3), 2, 3, reboots); |d| == 5 && d[0] == b && d[1] == a
  {
    TwoSectorsValid(a, b);
    hide *;
    var c := TwoSectors(a, b);
    assert |c.lh| == 2 && c.lh[0] == 0 && c.lh[1] == 1;
    c.Torn(0, 1);
    c.CrashPrefix(3, reboots, 0);
    c.CrashPrefix(3, reboots, 1);
  }
}
