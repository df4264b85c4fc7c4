/**
The list of home sectors of the current transaction, as log_write keeps it, and the
header block that holds it on the disk.
*/
module LogHeader {
  import opened Basics
  import opened Blocks

  const LOGSIZE := 10

  ghost predicate Distinct(s: seq<nat>)
  {
    forall i, j :: 0 <= i < j < |s| ==> s[i] != s[j]
  }

  /** A sector already logged is absorbed; a new one is appended. */
  function Absorb(lh: seq<nat>, sector: nat): (r: seq<nat>)
    ensures sector in r
    ensures forall x :: x in r <==> x in lh || x == sector
  {
    if sector in lh then lh else lh + [sector]
  }

  /** log_write's bookkeeping: refuses when the log is full, even for a sector it could absorb. */
  method Record(lh: seq<nat>, logSize: int, sector: nat) returns (ok: bool, lh': seq<nat>)
    ensures ok <==> |lh| < LOGSIZE && |lh| < logSize - 1
    ensures lh' == if ok then Absorb(lh, sector) else lh
    ensures Distinct(lh) ==> Distinct(lh')
  {
    if |lh| >= LOGSIZE || |lh| >= logSize - 1 {
      return false, lh;
    }
    var i := 0;
    while i < |lh|
      invariant 0 <= i <= |lh|
      invariant sector !in lh[..i]
    {
      if lh[i] == sector {
        return true, lh;
      }
      i := i + 1;
    }
    assert lh[..i] == lh;
    return true, lh + [sector];
  }

  /** A list without repetitions is no longer than any set that holds its elements. */
  lemma {:induction false} DistinctBound(s: seq<nat>, bound: set<nat>)
    requires Distinct(s) && forall x | x in s :: x in bound
    ensures |s| <= |bound|
  {
    if s != [] {
      var last := s[|s| - 1];
      var rest := s[..|s| - 1];
      DistinctBound(rest, bound - {last});
    }
  }

  /** The list fits a header block. */
  predicate Encodable(lh: seq<nat>)
  {
    |lh| <= LOGSIZE && forall i :: 0 <= i < |lh| ==> lh[i] < TWO32
  }

  /** The log header block for a list of sectors, over what the block held before. */
  function HeaderBlock(b: Block, lh: seq<nat>, k: nat): (r: Block)
    requires k <= |lh| && Encodable(lh)
    ensures Word(r, 0) == |lh| && forall i :: 0 <= i < k ==> Word(r, i + 1) == lh[i]
  {
    if k == 0 then PutWord(b, 0, |lh|) else PutWord(HeaderBlock(b, lh, k - 1), k, lh[k - 1])
  }

  /** Block b is a log header that lists lh. */
  ghost predicate Lists(b: Block, lh: seq<nat>)
  {
    Word(b, 0) == |lh| <= LOGSIZE && forall i :: 0 <= i < |lh| ==> Word(b, i + 1) == lh[i]
  }

  /** The sectors a header block lists. */
  function Listed(b: Block): (lh: seq<nat>)
    requires Word(b, 0) <= LOGSIZE
    ensures |lh| == Word(b, 0) && forall i :: 0 <= i < |lh| ==> lh[i] == Word(b, i + 1) < TWO32
  {
    seq(Word(b, 0), i requires 0 <= i < LOGSIZE => Word(b, i + 1))
  }

  lemma HeaderRoundTrip(b: Block, lh: seq<nat>)
    requires Encodable(lh)
    ensures Lists(HeaderBlock(b, lh, |lh|), lh) && Listed(HeaderBlock(b, lh, |lh|)) == lh
  {
  }

  /** The sectors of the list are outside the log. */
  predicate Outside(lh: seq<nat>, start: nat, size: nat, disk: nat)
  {
    forall i :: 0 <= i < |lh| ==> lh[i] < disk && !(start <= lh[i] < start + size)
  }

  /** The first k copies of install_trans, as the kernel sees the disk. */
  ghost function Copied(v: Disk, start: nat, lh: seq<nat>, k: nat): (r: Disk)
    requires k <= |lh| && start + |lh| < |v| && forall i :: 0 <= i < |lh| ==> lh[i] < |v|
    ensures |r| == |v|
    ensures forall s :: 0 <= s < |v| && !(start < s <= start + k) ==> r[s] == v[s]
  {
    if k == 0 then v else Copied(v, start, lh, k - 1)[start + k := v[lh[k - 1]]]
  }
}
