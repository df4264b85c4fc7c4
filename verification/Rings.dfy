/**
Circular doubly linked lists kept in prev/next tables, as the buffer cache links its
buffers around a head.
*/
module Rings {
  import opened Basics

  /** The nodes of `ring`, in this order, are linked into one cycle, forwards and backwards. */
  ghost predicate Linked(ring: seq<nat>, next: seq<nat>, prev: seq<nat>)
  {
    && |ring| > 0 && |next| == |prev|
    && (forall k :: 0 <= k < |ring| ==> ring[k] < |next|)
    && (forall j, k :: 0 <= j < k < |ring| ==> ring[j] != ring[k])
    && (forall k {:trigger next[ring[k]]} :: 0 <= k < |ring| ==> next[ring[k]] == ring[Succ(k, |ring|)])
    && (forall k {:trigger prev[ring[k]]} :: 0 <= k < |ring| ==> prev[ring[k]] == ring[Pred(k, |ring|)])
  }

  function Pred(k: nat, n: nat): nat
    requires k < n
  {
    if k == 0 then n - 1 else k - 1
  }

  /** The order after node b (not the first) was moved to the second place. */
  function ToFront(ring: seq<nat>, k: nat): seq<nat>
    requires 0 < k < |ring|
  {
    [ring[0], ring[k]] + ring[1..k] + ring[k + 1..]
  }

  /** The order after a new node b was put in the second place. */
  function Pushed(ring: seq<nat>, b: nat): seq<nat>
    requires |ring| > 0
  {
    [ring[0], b] + ring[1..]
  }

  function Without(ring: seq<nat>, k: nat): seq<nat>
    requires 0 < k < |ring|
  {
    ring[..k] + ring[k + 1..]
  }

  lemma UnlinkedNext(ring: seq<nat>, next: seq<nat>, prev: seq<nat>, k: nat, j: nat)
    requires Linked(ring, next, prev) && 0 < k < |ring| && j < |ring| - 1
    ensures var r := Without(ring, k);
            next[ring[Pred(k, |ring|)] := ring[Succ(k, |ring|)]][r[j]] == r[Succ(j, |r|)]
  {
    var i := if j < k then j else j + 1;
    assert next[ring[i]] == ring[Succ(i, |ring|)];
  }

  lemma UnlinkedPrev(ring: seq<nat>, next: seq<nat>, prev: seq<nat>, k: nat, j: nat)
    requires Linked(ring, next, prev) && 0 < k < |ring| && j < |ring| - 1
    ensures var r := Without(ring, k);
            prev[ring[Succ(k, |ring|)] := ring[Pred(k, |ring|)]][r[j]] == r[Pred(j, |r|)]
  {
    var i := if j < k then j else j + 1;
    assert prev[ring[i]] == ring[Pred(i, |ring|)];
  }

  /** Unlinking: the neighbours of ring[k] are joined. */
  lemma Unlinked(ring: seq<nat>, next: seq<nat>, prev: seq<nat>, k: nat)
    requires Linked(ring, next, prev) && 0 < k < |ring|
    ensures next[ring[k]] == ring[Succ(k, |ring|)] < |prev| && prev[ring[k]] == ring[Pred(k, |ring|)] < |next|
    ensures var b := ring[k];
            Linked(Without(ring, k), next[prev[b] := next[b]], prev[next[b] := prev[b]])
            && b !in Without(ring, k)
  {
    var b, r := ring[k], Without(ring, k);
    var next', prev' := next[prev[b] := next[b]], prev[next[b] := prev[b]];
    forall j | 0 <= j < |r| ensures next'[r[j]] == r[Succ(j, |r|)] {
      UnlinkedNext(ring, next, prev, k, j);
    }
    forall j | 0 <= j < |r| ensures prev'[r[j]] == r[Pred(j, |r|)] {
      UnlinkedPrev(ring, next, prev, k, j);
    }
  }

  /** Linking b in after the first node. */
  lemma LinkedIn(ring: seq<nat>, next: seq<nat>, prev: seq<nat>, b: nat)
    requires Linked(ring, next, prev) && b < |next| && b !in ring
    ensures next[ring[0]] < |prev|
    ensures var h := ring[0];
            Linked(Pushed(ring, b), next[b := next[h]][h := b], prev[b := h][next[h] := b])
  {
    var h, r, n := ring[0], Pushed(ring, b), |ring|;
    assert next[h] == ring[Succ(0, n)];
    var next', prev' := next[b := next[h]][h := b], prev[b := h][next[h] := b];
    forall j | 0 <= j < |r| ensures next'[r[j]] == r[Succ(j, |r|)] && prev'[r[j]] == r[Pred(j, |r|)] {
      if j >= 2 {
        assert r[j] == ring[j - 1];
        assert next[ring[j - 1]] == ring[Succ(j - 1, n)] && prev[ring[j - 1]] == ring[Pred(j - 1, n)];
      }
    }
  }

  lemma MovedToFront(ring: seq<nat>, k: nat)
    requires 0 < k < |ring|
    ensures Pushed(Without(ring, k), ring[k]) == ToFront(ring, k)
  {
  }

  // ---- Age ----

  /** When b was last released, in a history of releases; -1 if never. */
  ghost function LastAt(history: seq<nat>, b: nat): int
  {
    if history == [] then -1
    else if history[|history| - 1] == b then |history| - 1
    else LastAt(history[..|history| - 1], b)
  }

  lemma LastSnoc(history: seq<nat>, a: nat, b: nat)
    ensures LastAt(history + [a], b) == if a == b then |history| else LastAt(history, b)
  {
    assert (history + [a])[..|history|] == history;
  }

  lemma {:induction false} LastBefore(history: seq<nat>, b: nat)
    ensures -1 <= LastAt(history, b) < |history|
  {
    if history != [] {
      LastBefore(history[..|history| - 1], b);
    }
  }

  /** The node at place k was not released after the node at place j. */
  ghost predicate Older(ring: seq<nat>, history: seq<nat>, j: nat, k: nat)
    requires j < |ring| && k < |ring|
  {
    LastAt(history, ring[k]) <= LastAt(history, ring[j])
  }

  /** From the second place on, the ring is in the order of the last releases, the latest first. */
  ghost predicate ByAge(ring: seq<nat>, history: seq<nat>)
  {
    forall j: nat, k: nat {:trigger Older(ring, history, j, k)} :: 0 < j < k < |ring| ==> Older(ring, history, j, k)
  }

  /** Releasing a node and moving it to the front keeps that order. */
  lemma ReleasedByAge(ring: seq<nat>, history: seq<nat>, b: nat)
    requires ByAge(ring, history) && 0 < b < |ring| && forall j, k :: 0 <= j < k < |ring| ==> ring[j] != ring[k]
    ensures ByAge(ToFront(ring, b), history + [ring[b]])
  {
    var r := ToFront(ring, b);
    forall j: nat, k: nat | 0 < j < k < |r| ensures Older(r, history + [ring[b]], j, k) {
      LastSnoc(history, ring[b], r[j]);
      LastSnoc(history, ring[b], r[k]);
      LastBefore(history, r[k]);
      var k' := if k <= b then k - 1 else k;
      assert r[k] == ring[k'];
      if j > 1 {
        var j' := if j <= b then j - 1 else j;
        assert r[j] == ring[j'];
        assert Older(ring, history, j', k');
      }
    }
  }
}
