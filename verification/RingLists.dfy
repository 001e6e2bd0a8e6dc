/**
 The circular doubly linked lists of kernel/pmm.c.  A node is named by a number:
 i below `pageCount` is the node embedded in pages[i], and pageCount + o is the
 list head free_area[o].  `next` and `prev` are the two link fields of all nodes.
 */
module RingLists {
  import opened Collections
  import opened PowersOfTwo


  /** The node after position i of the ring; position -1 is the head. */
  ghost function After(head: nat, ring: seq<nat>, i: int): (r: nat)
    requires -1 <= i < |ring|
  {
    if i + 1 < |ring| then ring[i + 1] else head
  }

  /** The node before position i of the ring; position |ring| is the head. */
  ghost function Before(head: nat, ring: seq<nat>, i: int): (r: nat)
    requires 0 <= i <= |ring|
  {
    if i > 0 then ring[i - 1] else head
  }

  /** Following next from head visits ring in order and returns; prev is the reverse. */
  ghost predicate Ring(next: seq<nat>, prev: seq<nat>, head: nat, ring: seq<nat>) {
    && |next| == |prev|
    && head < |next|
    && (forall i | 0 <= i < |ring| :: ring[i] < |next| && ring[i] != head)
    && next[head] == After(head, ring, -1)
    && prev[head] == Before(head, ring, |ring|)
    && (forall i {:trigger next[ring[i]]} | 0 <= i < |ring| :: next[ring[i]] == After(head, ring, i))
    && (forall i {:trigger prev[ring[i]]} | 0 <= i < |ring| :: prev[ring[i]] == Before(head, ring, i))
  }

  ghost function Without(ring: seq<nat>, j: nat): (r: seq<nat>)
    requires j < |ring|
  {
    ring[..j] + ring[j + 1..]
  }

  /** A ring depends only on the links of its own nodes. */
  lemma RingFrame(next: seq<nat>, prev: seq<nat>, next': seq<nat>, prev': seq<nat>, head: nat, ring: seq<nat>)
    requires Ring(next, prev, head, ring) && |next'| == |prev'| == |next|
    requires next'[head] == next[head] && prev'[head] == prev[head]
    requires forall i | 0 <= i < |ring| :: next'[ring[i]] == next[ring[i]] && prev'[ring[i]] == prev[ring[i]]
    ensures Ring(next', prev', head, ring)
  {
  }

  lemma RingDelAt(next: seq<nat>, prev: seq<nat>, head: nat, ring: seq<nat>, j: nat, i: nat)
    requires Ring(next, prev, head, ring) && Distinct(ring) && j < |ring| && i < |ring| - 1
    requires prev[ring[j]] == Before(head, ring, j) && next[ring[j]] == After(head, ring, j)
    ensures prev[ring[j]] < |next| && next[ring[j]] < |next|
    ensures Without(ring, j)[i] < |next| && Without(ring, j)[i] != head
    ensures next[prev[ring[j]] := next[ring[j]]][Without(ring, j)[i]] == After(head, Without(ring, j), i)
    ensures prev[next[ring[j]] := prev[ring[j]]][Without(ring, j)[i]] == Before(head, Without(ring, j), i)
  {
    var i0 := if i < j then i else i + 1;
    assert Without(ring, j)[i] == ring[i0];
    assert next[ring[i0]] == After(head, ring, i0);
    assert prev[ring[i0]] == Before(head, ring, i0);
  }

  lemma RingDelHead(next: seq<nat>, prev: seq<nat>, head: nat, ring: seq<nat>, j: nat)
    requires Ring(next, prev, head, ring) && Distinct(ring) && j < |ring|
    requires prev[ring[j]] == Before(head, ring, j) && next[ring[j]] == After(head, ring, j)
    ensures prev[ring[j]] < |next| && next[ring[j]] < |next|
    ensures next[prev[ring[j]] := next[ring[j]]][head] == After(head, Without(ring, j), -1)
    ensures prev[next[ring[j]] := prev[ring[j]]][head] == Before(head, Without(ring, j), |ring| - 1)
  {
  }

  /** What __list_del does to the ring of the node it unlinks. */
  lemma RingDel(next: seq<nat>, prev: seq<nat>, head: nat, ring: seq<nat>, j: nat)
    requires Ring(next, prev, head, ring) && Distinct(ring) && j < |ring|
    ensures prev[ring[j]] == Before(head, ring, j) && next[ring[j]] == After(head, ring, j)
    ensures next[ring[j]] < |next| && prev[ring[j]] < |next|
    ensures Ring(next[prev[ring[j]] := next[ring[j]]], prev[next[ring[j]] := prev[ring[j]]], head, Without(ring, j))
  {
    var r := Without(ring, j);
    assert prev[ring[j]] == Before(head, ring, j) && next[ring[j]] == After(head, ring, j);
    var next', prev' := next[prev[ring[j]] := next[ring[j]]], prev[next[ring[j]] := prev[ring[j]]];
    RingDelHead(next, prev, head, ring, j);
    forall i | 0 <= i < |r|
      ensures r[i] < |next| && r[i] != head
      ensures next'[r[i]] == After(head, r, i) && prev'[r[i]] == Before(head, r, i)
    {
      RingDelAt(next, prev, head, ring, j, i);
    }
  }

  /** What __list_add does to the ring of the head it inserts behind. */
  lemma RingAdd(next: seq<nat>, prev: seq<nat>, head: nat, ring: seq<nat>, x: nat)
    requires Ring(next, prev, head, ring) && Distinct(ring) && x < |next| && x != head && x !in ring
    ensures next[head] == After(head, ring, -1) < |next|
    ensures Ring(next[x := next[head]][head := x], prev[x := head][next[head] := x], head, [x] + ring)
  {
  }

  /** Inserting a node that is already linked closes a loop: from the head, next never comes back to it. */
  lemma DoubleLinkBreaksRing(next: seq<nat>, prev: seq<nat>, head: nat, ring: seq<nat>, j: nat, prev': seq<nat>, r: seq<nat>)
    requires Ring(next, prev, head, ring) && Distinct(ring) && j < |ring|
    ensures next[head] < |next| && ring[j] < |next|
    ensures !Ring(next[ring[j] := next[head]][head := ring[j]], prev', head, r)
  {
    var next' := next[ring[j] := next[head]][head := ring[j]];
    if Ring(next', prev', head, r) {
      assert next'[head] == After(head, r, -1) && r != [];
      var m := StaysInLoop(next, prev, head, ring, j, next', prev', r, |r| - 1);
    }
  }

  /** Every node met from the head is one of the first j + 1 of the old ring, and is followed by another. */
  lemma {:induction false} StaysInLoop(next: seq<nat>, prev: seq<nat>, head: nat, ring: seq<nat>, j: nat,
                                       next': seq<nat>, prev': seq<nat>, r: seq<nat>, i: nat) returns (m: nat)
    requires Ring(next, prev, head, ring) && Distinct(ring) && j < |ring| && next[head] < |next|
    requires next' == next[ring[j] := next[head]][head := ring[j]] && Ring(next', prev', head, r) && i < |r|
    ensures m <= j && r[i] == ring[m] && r[i] < |next'| && next'[r[i]] != head
    decreases i
  {
    if i == 0 {
      m := j;
      assert next'[head] == After(head, r, -1);
    } else {
      var before := StaysInLoop(next, prev, head, ring, j, next', prev', r, i - 1);
      assert next'[r[i - 1]] == After(head, r, i - 1) == r[i];
      m := if before == j then 0 else before + 1;
      assert next[head] == After(head, ring, -1) && next[ring[before]] == After(head, ring, before);
    }
    assert next[ring[m]] == After(head, ring, m) && next[head] == After(head, ring, -1);
  }

  // ---------------------------------------------------------------- all lists together

  ghost predicate Shape(n: nat, rings: seq<seq<nat>>) {
    && |rings| == MAX_ORDER
    && (forall o | 0 <= o < MAX_ORDER :: Distinct(rings[o]))
    && (forall o, i | 0 <= o < MAX_ORDER && 0 <= i < |rings[o]| :: rings[o][i] < n)
    && (forall o, u, x | 0 <= o < u < MAX_ORDER && x in rings[o] :: x !in rings[u])
  }

  ghost predicate AllRings(next: seq<nat>, prev: seq<nat>, n: nat, rings: seq<seq<nat>>) {
    && Shape(n, rings)
    && |next| == |prev| == n + MAX_ORDER
    && forall o | 0 <= o < MAX_ORDER :: Ring(next, prev, n + o, rings[o])
  }

  lemma ShapeDel(n: nat, rings: seq<seq<nat>>, o: nat, j: nat)
    requires Shape(n, rings) && o < MAX_ORDER && j < |rings[o]|
    ensures Shape(n, rings[o := Without(rings[o], j)])
  {
    assert forall x | x in Without(rings[o], j) :: x in rings[o];
  }

  lemma AllRingsDel(next: seq<nat>, prev: seq<nat>, n: nat, rings: seq<seq<nat>>, o: nat, j: nat)
    requires AllRings(next, prev, n, rings) && o < MAX_ORDER && j < |rings[o]|
    ensures rings[o][j] < |next|
    ensures next[rings[o][j]] < |next| && prev[rings[o][j]] < |next|
    ensures AllRings(next[prev[rings[o][j]] := next[rings[o][j]]], prev[next[rings[o][j]] := prev[rings[o][j]]],
                     n, rings[o := Without(rings[o], j)])
  {
    var x := rings[o][j];
    RingDel(next, prev, n + o, rings[o], j);
    ShapeDel(n, rings, o, j);
    var a, b := prev[x], next[x];
    assert (a == n + o || a in rings[o]) && (b == n + o || b in rings[o]);
    OtherRings(next, prev, next[a := b], prev[b := a], n, rings, o, x, a, b);
    Together(next[a := b], prev[b := a], n, rings, o, Without(rings[o], j));
  }

  /** Links changed only at nodes of list o, its head, or a page x in no list leave the other rings alone. */
  lemma OtherRings(next: seq<nat>, prev: seq<nat>, next': seq<nat>, prev': seq<nat>, n: nat, rings: seq<seq<nat>>,
                   o: nat, x: nat, a: nat, b: nat)
    requires AllRings(next, prev, n, rings) && o < MAX_ORDER && |next'| == |prev'| == |next|
    requires forall u | 0 <= u < MAX_ORDER && u != o :: x !in rings[u]
    requires x < n && (a == n + o || a in rings[o]) && (b == n + o || b in rings[o])
    requires forall i | 0 <= i < |next| && i != x && i != a && i != b :: next'[i] == next[i] && prev'[i] == prev[i]
    ensures forall u | 0 <= u < MAX_ORDER && u != o :: Ring(next', prev', n + u, rings[u])
  {
    forall u | 0 <= u < MAX_ORDER && u != o
      ensures Ring(next', prev', n + u, rings[u])
    {
      NotInOther(n, rings, o, u, a);
      NotInOther(n, rings, o, u, b);
      RingFrame(next, prev, next', prev', n + u, rings[u]);
    }
  }

  /** A node of one list, or its head, is neither a node nor the head of another. */
  lemma NotInOther(n: nat, rings: seq<seq<nat>>, o: nat, u: nat, a: nat)
    requires Shape(n, rings) && o < MAX_ORDER && u < MAX_ORDER && u != o && (a == n + o || a in rings[o])
    ensures a != n + u && a !in rings[u]
  {
  }

  lemma Together(next: seq<nat>, prev: seq<nat>, n: nat, rings: seq<seq<nat>>, o: nat, ring: seq<nat>)
    requires |rings| == MAX_ORDER && o < MAX_ORDER && Shape(n, rings[o := ring]) && |next| == n + MAX_ORDER
    requires Ring(next, prev, n + o, ring)
    requires forall u | 0 <= u < MAX_ORDER && u != o :: Ring(next, prev, n + u, rings[u])
    ensures AllRings(next, prev, n, rings[o := ring])
  {
  }

  lemma ShapeAdd(n: nat, rings: seq<seq<nat>>, o: nat, x: nat)
    requires Shape(n, rings) && o < MAX_ORDER && x < n && forall u | 0 <= u < MAX_ORDER :: x !in rings[u]
    ensures Shape(n, rings[o := [x] + rings[o]])
  {
    assert forall y | y in [x] + rings[o] :: y == x || y in rings[o];
  }

  lemma AllRingsAdd(next: seq<nat>, prev: seq<nat>, n: nat, rings: seq<seq<nat>>, o: nat, x: nat)
    requires AllRings(next, prev, n, rings) && o < MAX_ORDER && x < n && forall u | 0 <= u < MAX_ORDER :: x !in rings[u]
    ensures next[n + o] < |next|
    ensures AllRings(next[x := next[n + o]][n + o := x], prev[x := n + o][next[n + o] := x],
                     n, rings[o := [x] + rings[o]])
  {
    RingAdd(next, prev, n + o, rings[o], x);
    ShapeAdd(n, rings, o, x);
    var b := next[n + o];
    assert b == n + o || b in rings[o];
    OtherRings(next, prev, next[x := b][n + o := x], prev[x := n + o][b := x], n, rings, o, x, n + o, b);
    Together(next[x := b][n + o := x], prev[x := n + o][b := x], n, rings, o, [x] + rings[o]);
  }

  class FreeLists {
    const pageCount: nat
    const next: array<nat>
    const prev: array<nat>
    /** The pages linked in each list, front first. */
    ghost var rings: seq<seq<nat>>

    ghost predicate Valid()
      reads this, next, prev
    {
      next != prev && AllRings(next[..], prev[..], pageCount, rings)
    }

    /** The heads linked to themselves: every list empty. */
    constructor (pages: nat)
      ensures Valid() && pageCount == pages && fresh(next) && fresh(prev)
      ensures forall o | 0 <= o < MAX_ORDER :: rings[o] == []
    {
      pageCount := pages;
      next := new nat[pages + MAX_ORDER](_ => 0);
      prev := new nat[pages + MAX_ORDER](_ => 0);
      rings := seq(MAX_ORDER, _ => []);
      new;
      for o := 0 to MAX_ORDER
        invariant next != prev && next.Length == prev.Length == pageCount + MAX_ORDER
        invariant rings == seq(MAX_ORDER, _ => [])
        invariant forall v | pageCount <= v < pageCount + o :: next[v] == v && prev[v] == v
        invariant fresh(next) && fresh(prev)
      {
        next[pageCount + o] := pageCount + o;
        prev[pageCount + o] := pageCount + o;
      }
    }

    /** A node unlinked from its list through its own links alone. */
    method ListDel(x: nat, ghost o: nat, ghost j: nat)
      requires Valid() && o < MAX_ORDER && j < |rings[o]| && rings[o][j] == x
      modifies this`rings, next, prev
      ensures Valid() && rings == old(rings)[o := Without(old(rings[o]), j)]
    {
      ghost var n0: seq<nat>, p0: seq<nat> := next[..], prev[..];
      AllRingsDel(n0, p0, pageCount, rings, o, j);
      next[prev[x]] := next[x];
      prev[next[x]] := prev[x];
      assert next[..] == n0[p0[x] := n0[x]];
      assert prev[..] == p0[n0[x] := p0[x]];
      rings := rings[o := Without(rings[o], j)];
    }

    /** A node linked at the front of list o. */
    method ListAdd(o: nat, x: nat)
      requires Valid() && o < MAX_ORDER && x < pageCount && forall u | 0 <= u < MAX_ORDER :: x !in rings[u]
      modifies this`rings, next, prev
      ensures Valid() && rings == old(rings)[o := [x] + old(rings[o])]
    {
      ghost var n0: seq<nat>, p0: seq<nat> := next[..], prev[..];
      AllRingsAdd(n0, p0, pageCount, rings, o, x);
      var head := pageCount + o;
      prev[x] := head;
      next[x] := next[head];
      prev[next[head]] := x;
      next[head] := x;
      assert next[..] == n0[x := n0[head]][head := x];
      assert prev[..] == p0[x := head][n0[head] := x];
      rings := rings[o := [x] + rings[o]];
    }

    /** The front node of a nonempty list, unlinked. */
    method ListPop(o: nat) returns (x: nat)
      requires Valid() && o < MAX_ORDER && rings[o] != []
      modifies this`rings, next, prev
      ensures Valid() && x == old(rings[o])[0] && rings == old(rings)[o := old(rings[o])[1..]]
    {
      assert Ring(next[..], prev[..], pageCount + o, rings[o]);
      x := next[pageCount + o];
      ListDel(x, o, 0);
      assert Without(old(rings[o]), 0) == old(rings[o])[1..];
    }

    /** The emptiness test of the source: a head linked to itself. */
    method IsEmpty(o: nat) returns (empty: bool)
      requires Valid() && o < MAX_ORDER
      ensures empty <==> rings[o] == []
    {
      assert Ring(next[..], prev[..], pageCount + o, rings[o]);
      empty := next[pageCount + o] == pageCount + o;
    }
  }
}
