/**
The ring buffer of a pipe (pipe.c): 512 bytes and two 32-bit counters that are never reset,
against the bytes stored and taken so far.
*/
module PipeRing {
  import opened Basics

  const PIPESIZE := 512

  datatype Ring = Ring(data: seq<Byte>, nread: Uint, nwrite: Uint)

  function Inc(n: Uint): Uint
  {
    (n + 1) % TWO32
  }

  /** The test of pipewrite, in 32-bit arithmetic. */
  predicate Full(r: Ring)
  {
    r.nwrite == (r.nread + PIPESIZE) % TWO32
  }

  predicate Empty(r: Ring)
  {
    r.nread == r.nwrite
  }

  predicate Sized(r: Ring)
  {
    |r.data| == PIPESIZE
  }

  function Push(r: Ring, b: Byte): Ring
    requires Sized(r)
  {
    Ring(r.data[r.nwrite % PIPESIZE := b], r.nread, Inc(r.nwrite))
  }

  function Front(r: Ring): Byte
    requires Sized(r)
  {
    r.data[r.nread % PIPESIZE]
  }

  function Pop(r: Ring): Ring
  {
    r.(nread := Inc(r.nread))
  }

  /** After the bytes `stored` have gone in and the first `taken` of them out, the ring holds the others. */
  ghost predicate Holds(r: Ring, stored: seq<Byte>, taken: nat)
  {
    && Sized(r) && taken <= |stored| <= taken + PIPESIZE
    && r.nread == taken % TWO32 && r.nwrite == |stored| % TWO32
    && forall k {:trigger stored[k]} :: taken <= k < |stored| ==> stored[k] == r.data[k % PIPESIZE]
  }

  lemma IncMod(n: nat)
    ensures (n % TWO32 + 1) % TWO32 == (n + 1) % TWO32
  {
  }

  /** The counters may have wrapped, but the slot they select is the right one, since 512 divides 2^32. */
  lemma SlotMod(n: nat)
    ensures n % TWO32 % PIPESIZE == n % PIPESIZE
  {
    var q := n / TWO32;
    assert n == (q * 8388608) * PIPESIZE + n % TWO32;
    ModAdd(q * 8388608, n % TWO32);
  }

  lemma ModAdd(q: nat, m: nat)
    ensures (q * PIPESIZE + m) % PIPESIZE == m % PIPESIZE
  {
    var a, b := m / PIPESIZE, m % PIPESIZE;
    assert q * PIPESIZE + m == (q + a) * PIPESIZE + b;
    DivUnique(q * PIPESIZE + m, q + a, b);
  }

  lemma DivUnique(x: nat, q: nat, b: nat)
    requires x == q * PIPESIZE + b && b < PIPESIZE
    ensures x % PIPESIZE == b
  {
  }

  /** Two counts at most 512 apart select the same slot only when they are equal or exactly 512 apart. */
  lemma SlotsApart(k: nat, n: nat)
    requires k < n < k + PIPESIZE
    ensures k % PIPESIZE != n % PIPESIZE
  {
    var a, b := k / PIPESIZE, n / PIPESIZE;
    assert k == a * PIPESIZE + k % PIPESIZE && n == b * PIPESIZE + n % PIPESIZE;
    assert k % PIPESIZE == n % PIPESIZE ==> n - k == (b - a) * PIPESIZE;
  }

  lemma WrapApart(k: nat, n: nat)
    requires k <= n < k + TWO32
    ensures k % TWO32 == n % TWO32 <==> k == n
  {
    var a, b := k / TWO32, n / TWO32;
    assert k == a * TWO32 + k % TWO32 && n == b * TWO32 + n % TWO32;
    if k % TWO32 == n % TWO32 {
      assert n - k == (b - a) * TWO32;
    }
  }

  lemma AddMod(n: nat)
    ensures (n % TWO32 + PIPESIZE) % TWO32 == (n + PIPESIZE) % TWO32
  {
  }

  /** The 32-bit tests mean what they should however often the counters have wrapped. */
  lemma Tests(r: Ring, stored: seq<Byte>, taken: nat)
    requires Holds(r, stored, taken)
    ensures Empty(r) <==> taken == |stored|
    ensures Full(r) <==> taken + PIPESIZE == |stored|
  {
    WrapApart(taken, |stored|);
    AddMod(taken);
    WrapApart(|stored|, taken + PIPESIZE);
  }

  lemma PushHolds(r: Ring, stored: seq<Byte>, taken: nat, b: Byte)
    requires Holds(r, stored, taken) && !Full(r)
    ensures Holds(Push(r, b), stored + [b], taken)
  {
    Tests(r, stored, taken);
    IncMod(|stored|);
    SlotMod(|stored|);
    var s, d := stored + [b], Push(r, b).data;
    forall k {:trigger s[k]} | taken <= k < |s| ensures s[k] == d[k % PIPESIZE] {
      if k < |stored| {
        assert stored[k] == r.data[k % PIPESIZE];
        SlotsApart(k, |stored|);
      }
    }
  }

  lemma PopHolds(r: Ring, stored: seq<Byte>, taken: nat)
    requires Holds(r, stored, taken) && !Empty(r)
    ensures taken < |stored| && Front(r) == stored[taken] && Holds(Pop(r), stored, taken + 1)
  {
    Tests(r, stored, taken);
    IncMod(taken);
    SlotMod(taken);
  }

  /** The buffer in memory, with the bytes stored in it so far and how many have been taken. */
  class Buffer {
    const data: array<Byte>
    var nread: Uint
    var nwrite: Uint
    ghost var stored: seq<Byte>
    ghost var taken: nat

    ghost predicate Valid()
      reads this, data
    {
      Holds(Ring(data[..], nread, nwrite), stored, taken)
    }

    /** As pipealloc leaves it: no byte stored, whatever the page held. */
    constructor (page: seq<Byte>)
      requires |page| == PIPESIZE
      ensures Valid() && fresh(data) && stored == [] && taken == 0
    {
      data := new Byte[PIPESIZE](i requires 0 <= i < |page| => page[i]);
      nread, nwrite := 0, 0;
      stored, taken := [], 0;
    }

    /** The loop of pipewrite from byte i on, until all is stored or the pipe is full. */
    method Fill(addr: seq<Byte>, i: nat) returns (next: nat)
      requires Valid() && i <= |addr|
      modifies this`nwrite, this`stored, data
      ensures Valid() && i <= next <= |addr|
      ensures stored == old(stored) + addr[i..next]
      ensures next == if |addr| - i <= PIPESIZE - (old(|stored|) - taken) then |addr|
              else i + PIPESIZE - (old(|stored|) - taken)
    {
      next := i;
      while next < |addr| && nwrite != (nread + PIPESIZE) % TWO32
        invariant Valid() && i <= next <= |addr| && stored == old(stored) + addr[i..next]
        invariant next - i <= PIPESIZE - (old(|stored|) - taken)
      {
        PushHolds(Ring(data[..], nread, nwrite), stored, taken, addr[next]);
        data[nwrite % PIPESIZE] := addr[next];
        nwrite := Inc(nwrite);
        stored := stored + [addr[next]];
        next := next + 1;
      }
      Tests(Ring(data[..], nread, nwrite), stored, taken);
    }

    /** The copying loop of piperead: up to n bytes, as many as there are, oldest first. */
    method Drain(n: nat) returns (addr: seq<Byte>)
      requires Valid()
      modifies this`nread, this`taken
      ensures Valid() && old(taken) <= taken && addr == stored[old(taken)..taken]
      ensures |addr| == if n <= |stored| - old(taken) then n else |stored| - old(taken)
    {
      addr := [];
      var i := 0;
      while i < n
        invariant Valid() && i <= n && taken == old(taken) + i && addr == stored[old(taken)..taken]
      {
        Tests(Ring(data[..], nread, nwrite), stored, taken);
        if nread == nwrite {
          break;
        }
        PopHolds(Ring(data[..], nread, nwrite), stored, taken);
        addr := addr + [data[nread % PIPESIZE]];
        nread := Inc(nread);
        taken := taken + 1;
        i := i + 1;
      }
    }
  }
}
