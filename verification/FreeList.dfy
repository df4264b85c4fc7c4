/**
The address-ordered circular free list of the user-level allocator, over a memory of
header-sized units, and the tiling of that memory into blocks.
*/
module FreeList {
  import opened Basics

  /** One unit read as a block header. */
  datatype Header = Header(ptr: nat, size: nat)

  type Memory = seq<Header>

  const NULL := 0
  const BASE := 1  // the static, empty first block; every heap address is above it

  ghost predicate Ascending(fl: seq<nat>)
  {
    forall i: nat, j: nat {:trigger Below(fl, i, j)} :: i < j < |fl| ==> Below(fl, i, j)
  }

  ghost predicate Below(fl: seq<nat>, i: nat, j: nat)
    requires i < |fl| && j < |fl|
  {
    fl[i] < fl[j]
  }

  /** Each block of fl points to the next, the last to the first. */
  ghost predicate Chained(mem: Memory, fl: seq<nat>)
  {
    && (forall k :: 0 <= k < |fl| ==> fl[k] < |mem|)
    && forall k {:trigger mem[fl[k]]} :: 0 <= k < |fl| ==> mem[fl[k]].ptr == fl[Succ(k, |fl|)]
  }

  /** The base is empty, every other free block is not. */
  ghost predicate Sized(mem: Memory, fl: seq<nat>)
    requires |fl| > 0
  {
    && fl[0] < |mem| && mem[fl[0]].size == 0
    && forall k {:trigger mem[fl[k]]} :: 0 < k < |fl| ==> fl[k] < |mem| && mem[fl[k]].size > 0
  }

  /** fl lists the free blocks in address order, starting at the base; each points to the next, the last to the base. */
  ghost predicate Listed(mem: Memory, fl: seq<nat>)
  {
    |fl| > 0 && fl[0] == BASE && Ascending(fl) && Chained(mem, fl) && Sized(mem, fl)
  }

  /** No free block ends where another begins. */
  ghost predicate Coalesced(mem: Memory, fl: seq<nat>)
  {
    forall b {:trigger mem[b]} | b in fl && b != BASE && b < |mem| :: b + mem[b].size !in fl
  }

  /** b is the header of a block: a live one or a free one. */
  ghost predicate IsBlock(live: set<nat>, fl: seq<nat>, b: nat)
  {
    b in live || (b in fl && b != BASE)
  }

  /** Every block has a unit of its own, and b's is not another's. */
  ghost predicate Headed(mem: Memory, live: set<nat>, fl: seq<nat>)
  {
    && (forall b {:trigger b in live} | b in live :: BASE < b < |mem| && b !in fl && mem[b].size > 0)
    && (forall k :: 0 <= k < |fl| ==> fl[k] < |mem|)
  }

  /** Unit u lies in block b. */
  ghost predicate Within(mem: Memory, b: nat, u: nat)
    requires b < |mem|
  {
    b <= u < b + mem[b].size
  }

  /** Every unit of `home` is in exactly one block, its home; every unit of every block is there. */
  ghost predicate Tiled(mem: Memory, live: set<nat>, fl: seq<nat>, home: map<nat, nat>)
  {
    && Headed(mem, live, fl)
    && (forall u {:trigger home[u]} | u in home :: u < |mem| && IsBlock(live, fl, home[u]) && Within(mem, home[u], u))
    && (forall b: nat, u: nat {:trigger Within(mem, b, u)}
          | IsBlock(live, fl, b) && Within(mem, b, u) :: u in home && home[u] == b)
  }

  /** Linking block b in after position j. */
  ghost function Inserted(fl: seq<nat>, j: nat, b: nat): seq<nat>
    requires j < |fl|
  {
    fl[..j + 1] + [b] + fl[j + 1..]
  }

  ghost function Without(fl: seq<nat>, k: nat): seq<nat>
    requires k < |fl|
  {
    fl[..k] + fl[k + 1..]
  }

  lemma DifferentAt(fl: seq<nat>, i: nat, j: nat)
    requires Ascending(fl) && i < |fl| && j < |fl|
    ensures i != j ==> fl[i] != fl[j]
  {
    assert i < j ==> Below(fl, i, j);
    assert j < i ==> Below(fl, j, i);
  }

  lemma OrderedAt(fl: seq<nat>, i: nat, j: nat)
    requires Ascending(fl) && i < |fl| && j < |fl|
    ensures i <= j ==> fl[i] <= fl[j]
  {
    assert i < j ==> Below(fl, i, j);
  }

  lemma InsertAscending(fl: seq<nat>, j: nat, b: nat)
    requires Ascending(fl) && j < |fl| && fl[j] < b && (j + 1 < |fl| ==> b < fl[j + 1])
    ensures Ascending(Inserted(fl, j, b)) && b !in fl
  {
    var r := Inserted(fl, j, b);
    forall k | 0 <= k < |fl| ensures if k <= j then fl[k] < b else b < fl[k] {
      OrderedAt(fl, k, j);
      if j + 1 < |fl| {
        OrderedAt(fl, j + 1, k);
      }
    }
    forall i: nat, k: nat | i < k < |r| ensures Below(r, i, k) {
      var i', k' := if i <= j then i else i - 1, if k <= j then k else k - 1;
      assert i' < k' < |fl| ==> Below(fl, i', k');
    }
  }

  /** Everything about entry k of a list: its pointer, and its size unless it is the base. */
  ghost predicate EntryOk(mem: Memory, fl: seq<nat>, k: nat)
    requires k < |fl|
  {
    fl[k] < |mem| && mem[fl[k]].ptr == fl[Succ(k, |fl|)]
        && (if k == 0 then mem[fl[k]].size == 0 else mem[fl[k]].size > 0)
  }

  lemma EntryOfListed(mem: Memory, fl: seq<nat>, k: nat)
    requires |fl| > 0 && Chained(mem, fl) && Sized(mem, fl) && k < |fl|
    ensures EntryOk(mem, fl, k)
  {
  }

  lemma ListedByEntries(mem: Memory, fl: seq<nat>)
    requires |fl| > 0 && fl[0] == BASE && Ascending(fl) && forall k :: 0 <= k < |fl| ==> EntryOk(mem, fl, k)
    ensures Listed(mem, fl)
  {
    assert EntryOk(mem, fl, 0);
    assert Chained(mem, fl) by {
      forall k | 0 <= k < |fl| ensures fl[k] < |mem| {
        assert EntryOk(mem, fl, k);
      }
      forall k {:trigger mem[fl[k]]} | 0 <= k < |fl| ensures fl[k] < |mem| && mem[fl[k]].ptr == fl[Succ(k, |fl|)] {
        assert EntryOk(mem, fl, k);
      }
    }
    assert Sized(mem, fl) by {
      forall k {:trigger mem[fl[k]]} | 0 < k < |fl| ensures fl[k] < |mem| && mem[fl[k]].size > 0 {
        assert EntryOk(mem, fl, k);
      }
    }
  }

  lemma InsertEntry(mem: Memory, fl: seq<nat>, j: nat, b: nat, k: nat)
    requires j < |fl| && b < |mem| && mem[b].size > 0 && k <= |fl| && fl[j] < |mem| && fl[j] != b
    requires EntryOk(mem, fl, j)
    requires k != j + 1 ==>
              var q := if k <= j then k else k - 1; EntryOk(mem, fl, q) && fl[q] != b && (q != j ==> fl[q] != fl[j])
    ensures var p := fl[j];
            EntryOk(mem[b := Header(mem[p].ptr, mem[b].size)][p := Header(b, mem[p].size)], Inserted(fl, j, b), k)
  {
  }

  lemma InsertListed(mem: Memory, fl: seq<nat>, j: nat, b: nat)
    requires Listed(mem, fl) && j < |fl| && fl[j] < b < |mem| && (j + 1 < |fl| ==> b < fl[j + 1]) && mem[b].size > 0
    ensures var p := fl[j];
            Listed(mem[b := Header(mem[p].ptr, mem[b].size)][p := Header(b, mem[p].size)], Inserted(fl, j, b))
  {
    var p, r := fl[j], Inserted(fl, j, b);
    var m := mem[b := Header(mem[p].ptr, mem[b].size)][p := Header(b, mem[p].size)];
    InsertAscending(fl, j, b);
    EntryOfListed(mem, fl, j);
    forall k | 0 <= k < |r| ensures EntryOk(m, r, k) {
      if k != j + 1 {
        var q := if k <= j then k else k - 1;
        EntryOfListed(mem, fl, q);
        DifferentAt(fl, q, j);
        assert fl[q] in fl;
      }
      InsertEntry(mem, fl, j, b, k);
    }
    ListedByEntries(m, r);
  }

  /** Merging block k with block k+1. */
  ghost function Merged(mem: Memory, fl: seq<nat>, k: nat): Memory
    requires k + 1 < |fl| && fl[k] < |mem| && fl[k + 1] < |mem|
  {
    mem[fl[k] := Header(mem[fl[k + 1]].ptr, mem[fl[k]].size + mem[fl[k + 1]].size)]
  }

  lemma WithoutAscending(fl: seq<nat>, k: nat)
    requires Ascending(fl) && k < |fl|
    ensures Ascending(Without(fl, k))
  {
    var r := Without(fl, k);
    forall i: nat, j: nat | i < j < |r| ensures Below(r, i, j) {
      assert Below(fl, if i < k then i else i + 1, if j < k then j else j + 1);
    }
  }

  lemma MergeEntry(mem: Memory, fl: seq<nat>, k: nat, i: nat)
    requires 0 < k && k + 1 < |fl| && i < |fl| - 1 && EntryOk(mem, fl, k) && EntryOk(mem, fl, k + 1)
    requires var q := if i <= k then i else i + 1; EntryOk(mem, fl, q) && (q != k ==> fl[q] != fl[k])
    ensures EntryOk(Merged(mem, fl, k), Without(fl, k + 1), i)
  {
  }

  lemma MergeListed(mem: Memory, fl: seq<nat>, k: nat)
    requires Listed(mem, fl) && 0 < k && k + 1 < |fl|
    ensures Listed(Merged(mem, fl, k), Without(fl, k + 1))
  {
    var r, m := Without(fl, k + 1), Merged(mem, fl, k);
    WithoutAscending(fl, k + 1);
    EntryOfListed(mem, fl, k);
    EntryOfListed(mem, fl, k + 1);
    forall i | 0 <= i < |r| ensures EntryOk(m, r, i) {
      var q := if i <= k then i else i + 1;
      EntryOfListed(mem, fl, q);
      DifferentAt(fl, q, k);
      MergeEntry(mem, fl, k, i);
    }
    ListedByEntries(m, r);
  }

  /** The memory with block k unlinked. */
  ghost function Unlinked(mem: Memory, fl: seq<nat>, k: nat): Memory
    requires 0 < k < |fl| && fl[k] < |mem| && fl[k - 1] < |mem|
  {
    mem[fl[k - 1] := Header(mem[fl[k]].ptr, mem[fl[k - 1]].size)]
  }

  lemma RemoveEntry(mem: Memory, fl: seq<nat>, k: nat, i: nat)
    requires 0 < k < |fl| && i < |fl| - 1 && EntryOk(mem, fl, k) && EntryOk(mem, fl, k - 1)
    requires var q := if i < k then i else i + 1; EntryOk(mem, fl, q) && (q != k - 1 ==> fl[q] != fl[k - 1])
    ensures EntryOk(Unlinked(mem, fl, k), Without(fl, k), i)
  {
  }

  lemma RemoveListed(mem: Memory, fl: seq<nat>, k: nat)
    requires Listed(mem, fl) && 0 < k < |fl|
    ensures Listed(Unlinked(mem, fl, k), Without(fl, k))
  {
    var r, m := Without(fl, k), Unlinked(mem, fl, k);
    WithoutAscending(fl, k);
    EntryOfListed(mem, fl, k);
    EntryOfListed(mem, fl, k - 1);
    forall i | 0 <= i < |r| ensures EntryOk(m, r, i) {
      var q := if i < k then i else i + 1;
      EntryOfListed(mem, fl, q);
      DifferentAt(fl, q, k - 1);
      RemoveEntry(mem, fl, k, i);
    }
    ListedByEntries(m, r);
  }
}
