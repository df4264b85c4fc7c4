/**
How the allocator's steps change the tiling of the heap: which units belong to which block.
*/
module Tiling {
  import opened FreeList

  /** Two memories whose blocks have the same sizes. */
  ghost predicate SameSizes(mem: Memory, m: Memory)
  {
    |m| == |mem| && forall b {:trigger m[b]} {:trigger mem[b]} :: 0 <= b < |mem| ==> m[b].size == mem[b].size
  }

  lemma Disjoint(mem: Memory, live: set<nat>, fl: seq<nat>, home: map<nat, nat>, a: nat, b: nat)
    requires Tiled(mem, live, fl, home) && IsBlock(live, fl, a) && IsBlock(live, fl, b) && a < b && mem[b].size > 0
    ensures a + mem[a].size <= b
  {
    if b < a + mem[a].size {
      assert Within(mem, a, b) && Within(mem, b, b);
      assert false;
    }
  }

  lemma InsertMembers(fl: seq<nat>, j: nat, b: nat, x: nat)
    requires j < |fl|
    ensures x in Inserted(fl, j, b) <==> x in fl || x == b
  {
    assert fl == fl[..j + 1] + fl[j + 1..];
    assert x in fl <==> x in fl[..j + 1] || x in fl[j + 1..];
  }

  lemma WithoutMembers(fl: seq<nat>, k: nat, x: nat)
    requires k < |fl| && Ascending(fl)
    ensures x in Without(fl, k) <==> x in fl && x != fl[k]
  {
    var r := Without(fl, k);
    if x in r {
      var i :| 0 <= i < |r| && r[i] == x;
      var q := if i < k then i else i + 1;
      assert fl[q] == x;
      DifferentAt(fl, q, k);
    }
    if x in fl && x != fl[k] {
      var i :| 0 <= i < |fl| && fl[i] == x;
      assert r[if i < k then i else i - 1] == x;
    }
  }

  /** A tiling depends on the list only through its members, and on memory only through sizes. */
  lemma Retile(mem: Memory, live: set<nat>, fl: seq<nat>, home: map<nat, nat>, m: Memory, l: set<nat>, r: seq<nat>)
    requires Tiled(mem, live, fl, home) && SameSizes(mem, m) && Headed(m, l, r)
    requires forall b {:trigger IsBlock(l, r, b)} :: IsBlock(l, r, b) <==> IsBlock(live, fl, b)
    ensures Tiled(m, l, r, home)
  {
    forall u | u in home ensures u < |m| && IsBlock(l, r, home[u]) && Within(m, home[u], u) {
      assert IsBlock(live, fl, home[u]) && Within(mem, home[u], u);
    }
    forall b: nat, u: nat | IsBlock(l, r, b) && Within(m, b, u) ensures u in home && home[u] == b {
      assert Within(mem, b, u);
    }
  }

  lemma InsertTiled(mem: Memory, live: set<nat>, fl: seq<nat>, home: map<nat, nat>, m: Memory, j: nat, b: nat)
    requires Tiled(mem, live, fl, home) && SameSizes(mem, m) && j < |fl| && b in live
    ensures Tiled(m, live - {b}, Inserted(fl, j, b), home)
  {
    forall x: nat ensures x in Inserted(fl, j, b) <==> x in fl || x == b {
      InsertMembers(fl, j, b, x);
    }
    Retile(mem, live, fl, home, m, live - {b}, Inserted(fl, j, b));
  }

  lemma TakeTiled(mem: Memory, live: set<nat>, fl: seq<nat>, home: map<nat, nat>, m: Memory, k: nat)
    requires Tiled(mem, live, fl, home) && SameSizes(mem, m) && 0 < k < |fl| && Ascending(fl) && fl[0] == BASE
    requires fl[k] < |mem| && mem[fl[k]].size > 0
    ensures Tiled(m, live + {fl[k]}, Without(fl, k), home)
  {
    forall x: nat ensures x in Without(fl, k) <==> x in fl && x != fl[k] {
      WithoutMembers(fl, k, x);
    }
    DifferentAt(fl, 0, k);
    OrderedAt(fl, 0, k);
    Retile(mem, live, fl, home, m, live + {fl[k]}, Without(fl, k));
  }

  /** The homes after the block of c joins that of a. */
  ghost function Joined(home: map<nat, nat>, a: nat, c: nat): map<nat, nat>
  {
    map u | u in home :: if home[u] == c then a else home[u]
  }

  lemma MergeTiled(mem: Memory, live: set<nat>, fl: seq<nat>, home: map<nat, nat>, k: nat)
    requires Tiled(mem, live, fl, home) && 0 < k && k + 1 < |fl| && Ascending(fl) && fl[0] == BASE
    requires fl[k] < |mem| && fl[k + 1] < |mem| && fl[k] + mem[fl[k]].size == fl[k + 1]
    ensures Tiled(Merged(mem, fl, k), live, Without(fl, k + 1), Joined(home, fl[k], fl[k + 1]))
  {
    var a, c, m, r := fl[k], fl[k + 1], Merged(mem, fl, k), Without(fl, k + 1);
    var h := Joined(home, a, c);
    forall x: nat ensures x in r <==> x in fl && x != c {
      WithoutMembers(fl, k + 1, x);
    }
    DifferentAt(fl, 0, k);
    DifferentAt(fl, 0, k + 1);
    DifferentAt(fl, k, k + 1);
    assert IsBlock(live, fl, a) && IsBlock(live, fl, c);
    forall u | u in h ensures u < |m| && IsBlock(live, r, h[u]) && Within(m, h[u], u) {
      assert IsBlock(live, fl, home[u]) && Within(mem, home[u], u);
    }
    forall b: nat, u: nat | IsBlock(live, r, b) && Within(m, b, u) ensures u in h && h[u] == b {
      var was := if b == a && u >= c then c else b;
      assert Within(mem, was, u);
    }
  }

  /** The homes after the units of p from q on become the block q. */
  ghost function Cut(home: map<nat, nat>, p: nat, q: nat): map<nat, nat>
  {
    map u | u in home :: if home[u] == p && u >= q then q else home[u]
  }

  /** Memory after the last n units of block p are cut off. */
  ghost function Split(mem: Memory, p: nat, n: nat): Memory
    requires p < |mem| && 0 < n < mem[p].size && p + mem[p].size <= |mem|
  {
    var q := p + mem[p].size - n;
    mem[p := Header(mem[p].ptr, mem[p].size - n)][q := Header(mem[q].ptr, n)]
  }

  lemma BlockInside(mem: Memory, live: set<nat>, fl: seq<nat>, home: map<nat, nat>, b: nat)
    requires Tiled(mem, live, fl, home) && IsBlock(live, fl, b) && mem[b].size > 0
    ensures b + mem[b].size <= |mem|
  {
    assert Within(mem, b, b + mem[b].size - 1);
  }

  lemma SplitTiled(mem: Memory, live: set<nat>, fl: seq<nat>, home: map<nat, nat>, p: nat, n: nat)
    requires Tiled(mem, live, fl, home) && p in fl && p != BASE && 0 < n < mem[p].size && p + mem[p].size <= |mem|
    requires p > BASE
    requires forall b | b in fl && b != BASE :: mem[b].size > 0
    ensures var q := p + mem[p].size - n;
            q !in fl && q !in live && q in home && home[q] == p
            && Tiled(Split(mem, p, n), live + {q}, fl, Cut(home, p, q))
  {
    var q, m := p + mem[p].size - n, Split(mem, p, n);
    var h, l := Cut(home, p, q), live + {q};
    assert Within(mem, p, q);
    if IsBlock(live, fl, q) {
      Disjoint(mem, live, fl, home, p, q);
      assert false;
    }
    forall u | u in h ensures u < |m| && IsBlock(l, fl, h[u]) && Within(m, h[u], u) {
      assert IsBlock(live, fl, home[u]) && Within(mem, home[u], u);
    }
    forall b: nat, u: nat | IsBlock(l, fl, b) && Within(m, b, u) ensures u in h && h[u] == b {
      assert Within(mem, if b == q then p else b, u);
    }
  }

  /** The homes after a fresh block of n units at b. */
  ghost function Added(home: map<nat, nat>, b: nat, n: nat): map<nat, nat>
  {
    home + map u: nat | b <= u < b + n && Spans(b, n, u) :: b
  }

  ghost predicate Spans(b: nat, n: nat, u: nat)
  {
    b <= u < b + n
  }

  lemma GrowTiled(mem: Memory, live: set<nat>, fl: seq<nat>, home: map<nat, nat>, m: Memory, b: nat, n: nat)
    requires Tiled(mem, live, fl, home) && |mem| <= b && BASE < b && n > 0 && b + n <= |m| && m[..|mem|] == mem
    requires m[b].size == n
    requires forall x: nat | IsBlock(live, fl, x) :: mem[x].size > 0
    ensures Tiled(m, live + {b}, fl, Added(home, b, n))
  {
    var h, l := Added(home, b, n), live + {b};
    forall x | 0 <= x < |mem| ensures m[x] == mem[x] {
      assert m[..|mem|][x] == mem[x];
    }
    forall u | u in h ensures u < |m| && IsBlock(l, fl, h[u]) && Within(m, h[u], u) {
      if u in home {
        assert IsBlock(live, fl, home[u]) && Within(mem, home[u], u);
      }
    }
    forall x: nat, u: nat | IsBlock(l, fl, x) && Within(m, x, u) ensures u in h && h[u] == x {
      assert x == b ==> Spans(b, n, u);
      if x != b {
        assert Within(mem, x, u);
        BlockInside(mem, live, fl, home, x);
      }
    }
  }
}
