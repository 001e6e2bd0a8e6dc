/**
 The arithmetic heart of the buddy allocator (kernel/pmm.c): sets of naturally
 aligned blocks of order 0..10, what they cover, and the canonical form in which
 no two free buddies remain unmerged.  A block set is a map from the page frame
 number of a block's first page to the block's order.
 */
module BlockTiling {
  import opened Collections
  import opened PowersOfTwo

  type Blocks = map<nat, nat>

  ghost predicate Covers(f: Blocks, p: nat, i: nat) {
    p in f && p <= i < p + Pow2(f[p])
  }

  ghost predicate Covered(f: Blocks, i: nat) {
    exists p :: Covers(f, p, i)
  }

  ghost predicate InRun(i: nat, p: nat, k: nat) {
    p <= i < p + Pow2(k)
  }

  ghost predicate SameCover(f: Blocks, g: Blocks) {
    forall i: nat :: Covered(f, i) <==> Covered(g, i)
  }

  ghost predicate WellAligned(f: Blocks) {
    forall p | p in f :: f[p] < MAX_ORDER && Aligned(p, f[p])
  }

  ghost predicate Disjoint(f: Blocks) {
    forall p, q | p in f && q in f && p < q :: p + Pow2(f[p]) <= q
  }

  /** p and its buddy are both free blocks of the same order, below the top order. */
  ghost predicate BuddiesFree(f: Blocks, p: nat) {
    p in f && f[p] < MAX_ORDER - 1 && FlipBit(p, f[p]) in f && f[FlipBit(p, f[p])] == f[p]
  }

  ghost predicate Canonical(f: Blocks) {
    WellAligned(f) && Disjoint(f) && forall p | p in f :: !BuddiesFree(f, p)
  }

  /** The blocks of f are disjoint, aligned, and cover exactly [lo, hi). */
  ghost predicate Tiling(f: Blocks, lo: nat, hi: nat) {
    WellAligned(f) && Disjoint(f) && forall i: nat :: Covered(f, i) <==> lo <= i < hi
  }

  /** Every page of the aligned run of order k at p is covered. */
  ghost predicate RunCovered(f: Blocks, p: nat, k: nat) {
    Aligned(p, k) && forall i | InRun(i, p, k) :: Covered(f, i)
  }

  // ---------------------------------------------------------------- full coalescing

  /**
   In a canonical block set every covered aligned run of order at most 10 lies
   inside one single block: the merge loop has left nothing to coalesce.
   */
  lemma {:induction false} FullCoalescing(f: Blocks, p: nat, k: nat) returns (q: nat)
    requires Canonical(f) && k < MAX_ORDER && RunCovered(f, p, k)
    ensures q in f && f[q] >= k && q <= p && p + Pow2(k) <= q + Pow2(f[q])
    decreases k
  {
    if k == 0 {
      assert InRun(p, p, 0);
      q :| Covers(f, q, p);
    } else {
      RunHalves(f, p, k - 1);
      var q1 := FullCoalescing(f, p, k - 1);
      var q2 := FullCoalescing(f, p + Pow2(k - 1), k - 1);
      HalvesCoalesced(f, p, k - 1, q1, q2);
      q := if f[q1] >= k then q1 else q2;
      Nested(p, k, q, f[q]);
    }
  }

  lemma RunHalves(f: Blocks, p: nat, k: nat)
    requires RunCovered(f, p, k + 1)
    ensures RunCovered(f, p, k) && RunCovered(f, p + Pow2(k), k)
  {
    Halves(p, k);
    var d := Pow2(k);
    assert Pow2(k + 1) == 2 * d;
    forall i: nat | InRun(i, p, k) || InRun(i, p + d, k)
      ensures Covered(f, i)
    {
      assert InRun(i, p, k + 1);
    }
  }

  /** The blocks holding the two halves of a run cannot both be just those halves. */
  lemma HalvesCoalesced(f: Blocks, p: nat, k: nat, q1: nat, q2: nat)
    requires Canonical(f) && k + 1 < MAX_ORDER && Aligned(p, k + 1)
    requires q1 in f && f[q1] >= k && q1 <= p && p + Pow2(k) <= q1 + Pow2(f[q1])
    requires q2 in f && f[q2] >= k && q2 <= p + Pow2(k) && p + 2 * Pow2(k) <= q2 + Pow2(f[q2])
    ensures f[q1] > k || f[q2] > k
  {
    Halves(p, k);
    assert !BuddiesFree(f, p);
  }

  /** A block set holding a block that contains the run covers the run. */
  lemma BlockCoversRun(f: Blocks, q: nat, p: nat, k: nat)
    requires q in f && q <= p && p + Pow2(k) <= q + Pow2(f[q]) && Aligned(p, k)
    ensures RunCovered(f, p, k)
  {
    forall i | InRun(i, p, k)
      ensures Covered(f, i)
    {
      assert Covers(f, q, i);
    }
  }

  lemma Apart(f: Blocks, p: nat, q: nat)
    requires Disjoint(f) && p in f && q in f
    ensures p == q || p + Pow2(f[p]) <= q || q + Pow2(f[q]) <= p
  {
  }

  /** Two blocks of a disjoint set that share a page are the same block. */
  lemma OneBlockPerPage(f: Blocks, p: nat, q: nat, i: nat)
    requires Disjoint(f) && Covers(f, p, i) && Covers(f, q, i)
    ensures p == q
  {
  }

  /**
   In any aligned disjoint block set g covering the same pages as a canonical f,
   every block of g lies inside a block of f, and f's first pages are all first
   pages of g.
   */
  lemma CanonicalIsCoarsest(f: Blocks, g: Blocks, p: nat)
    requires Canonical(f) && WellAligned(g) && Disjoint(g) && SameCover(f, g)
    requires p in f
    ensures p in g && g[p] <= f[p]
  {
    assert Covers(f, p, p);
    assert Covered(g, p);
    var q :| Covers(g, q, p);
    BlockCoversRun(g, q, q, g[q]);
    var r := FullCoalescing(f, q, g[q]);
    assert Covers(f, r, p);
    OneBlockPerPage(f, p, r, p);
  }

  /** The canonical decomposition of a set of pages is unique. */
  lemma CanonicalUnique(f: Blocks, g: Blocks)
    requires Canonical(f) && Canonical(g) && SameCover(f, g)
    ensures f == g
  {
    forall p | p in f
      ensures p in g && g[p] == f[p]
    {
      CanonicalIsCoarsest(f, g, p);
      CanonicalIsCoarsest(g, f, p);
    }
    forall p | p in g
      ensures p in f
    {
      CanonicalIsCoarsest(g, f, p);
    }
  }

  /** ... and it uses the fewest blocks of all aligned decompositions. */
  lemma CanonicalFewest(f: Blocks, g: Blocks)
    requires Canonical(f) && WellAligned(g) && Disjoint(g) && SameCover(f, g)
    ensures f.Keys <= g.Keys && |f| <= |g|
  {
    forall p | p in f
      ensures p in g
    {
      CanonicalIsCoarsest(f, g, p);
    }
    SubsetSize(f.Keys, g.Keys);
  }

  /** Exactly which blocks a canonical set holds: the maximal covered aligned runs. */
  lemma CanonicalIffMaximal(f: Blocks, p: nat, k: nat)
    requires Canonical(f) && k < MAX_ORDER
    ensures p in f && f[p] == k <==>
            RunCovered(f, p, k) && (k == MAX_ORDER - 1 || !RunCovered(f, ClearBit(p, k), k + 1))
  {
    if p in f && f[p] == k {
      BlockCoversRun(f, p, p, k);
      if k < MAX_ORDER - 1 {
        BlockIsMaximal(f, p);
      }
    }
    if RunCovered(f, p, k) && (k == MAX_ORDER - 1 || !RunCovered(f, ClearBit(p, k), k + 1)) {
      var q := FullCoalescing(f, p, k);
      ParentInside(f, p, k, q);
    }
  }

  lemma BlockIsMaximal(f: Blocks, p: nat)
    requires Canonical(f) && p in f && f[p] < MAX_ORDER - 1
    ensures !RunCovered(f, ClearBit(p, f[p]), f[p] + 1)
  {
    var k := f[p];
    if RunCovered(f, ClearBit(p, k), k + 1) {
      BuddyPair(p, k);
      var q := FullCoalescing(f, ClearBit(p, k), k + 1);
    }
  }

  lemma ParentInside(f: Blocks, p: nat, k: nat, q: nat)
    requires WellAligned(f) && Aligned(p, k) && q in f && f[q] >= k && q <= p && p + Pow2(k) <= q + Pow2(f[q])
    ensures f[q] == k ==> p == q
    ensures f[q] > k ==> RunCovered(f, ClearBit(p, k), k + 1)
  {
    if f[q] > k {
      BuddyPair(p, k);
      Nested(ClearBit(p, k), k + 1, q, f[q]);
      BlockCoversRun(f, q, ClearBit(p, k), k + 1);
    }
  }

  // ---------------------------------------------------------------- splitting

  /** One turn of the split loop: the block at p becomes its two halves. */
  ghost function SplitOnce(f: Blocks, p: nat): (g: Blocks)
    requires p in f && f[p] > 0
  {
    f[p := f[p] - 1][p + Pow2(f[p] - 1) := f[p] - 1]
  }

  lemma SplitKeepsTiles(f: Blocks, p: nat)
    requires WellAligned(f) && Disjoint(f) && p in f && f[p] > 0
    ensures p + Pow2(f[p] - 1) !in f
    ensures WellAligned(SplitOnce(f, p)) && Disjoint(SplitOnce(f, p)) && SameCover(f, SplitOnce(f, p))
  {
    SplitAligned(f, p);
    assert p + Pow2(f[p] - 1) !in f;
    forall q, r | q in SplitOnce(f, p) && r in SplitOnce(f, p) && q < r
      ensures q + Pow2(SplitOnce(f, p)[q]) <= r
    {
      SplitApart(f, p, q, r);
    }
    forall i: nat
      ensures Covered(f, i) <==> Covered(SplitOnce(f, p), i)
    {
      SplitCovers(f, p, i);
    }
  }

  lemma SplitAligned(f: Blocks, p: nat)
    requires WellAligned(f) && p in f && f[p] > 0
    ensures WellAligned(SplitOnce(f, p))
  {
    Halves(p, f[p] - 1);
  }

  lemma SplitApart(f: Blocks, p: nat, q: nat, r: nat)
    requires Disjoint(f) && p in f && f[p] > 0
    requires q in SplitOnce(f, p) && r in SplitOnce(f, p) && q < r
    ensures q + Pow2(SplitOnce(f, p)[q]) <= r
  {
    var b := p + Pow2(f[p] - 1);
    var q0, r0 := if q == b then p else q, if r == b then p else r;
    Apart(f, q0, r0);
  }

  lemma SplitCovers(f: Blocks, p: nat, i: nat)
    requires p in f && f[p] > 0 && p + Pow2(f[p] - 1) !in f
    ensures Covered(f, i) <==> Covered(SplitOnce(f, p), i)
  {
    var g := SplitOnce(f, p);
    var b := p + Pow2(f[p] - 1);
    if Covered(f, i) {
      var q :| Covers(f, q, i);
      assert Covers(g, q, i) || Covers(g, b, i);
    }
    if Covered(g, i) {
      var q :| Covers(g, q, i);
      assert Covers(f, q, i) || Covers(f, p, i);
    }
  }

  /** All of f is canonical once the block at p, about to be handed out, is set aside. */
  ghost predicate CanonicalWithout(f: Blocks, p: nat) {
    WellAligned(f) && Disjoint(f) && forall q | q in f && q != p && BuddiesFree(f, q) :: FlipBit(q, f[q]) == p
  }

  lemma SplitKeepsCanonicalWithout(f: Blocks, p: nat)
    requires CanonicalWithout(f, p) && p in f && f[p] > 0
    ensures CanonicalWithout(SplitOnce(f, p), p)
  {
    var g, k := SplitOnce(f, p), f[p] - 1;
    SplitKeepsTiles(f, p);
    forall q | q in g && q != p
      ensures BuddiesFree(g, q) ==> FlipBit(q, g[q]) == p
    {
      SplitBuddies(f, g, p, k, q);
    }
  }

  lemma FlipTwice(q: nat, k: nat)
    requires Aligned(q, k)
    ensures FlipBit(FlipBit(q, k), k) == q
  {
    BuddyPair(q, k);
  }

  lemma SplitBuddies(f: Blocks, g: Blocks, p: nat, k: nat, q: nat)
    requires CanonicalWithout(f, p) && p in f && f[p] == k + 1 && p + Pow2(k) !in f
    requires g == SplitOnce(f, p) && q in g && q != p
    ensures BuddiesFree(g, q) ==> FlipBit(q, g[q]) == p
  {
    var b := p + Pow2(k);
    Halves(p, k);
    if q != b && BuddiesFree(g, q) {
      var r := FlipBit(q, g[q]);
      assert r == b ==> g[q] == k && FlipBit(r, g[q]) == p;
      FlipTwice(q, g[q]);
      assert r != p ==> BuddiesFree(f, q);
    }
  }

  lemma RemoveSetAside(f: Blocks, p: nat)
    requires CanonicalWithout(f, p)
    ensures Canonical(f - {p})
  {
    var g := f - {p};
    forall q | q in g
      ensures !BuddiesFree(g, q)
    {
      assert BuddiesFree(g, q) ==> BuddiesFree(f, q);
    }
  }

  lemma CanonicalMinus(f: Blocks, p: nat)
    requires Canonical(f)
    ensures CanonicalWithout(f, p) && Canonical(f - {p})
  {
    RemoveSetAside(f, p);
  }

  /** Taking a block away uncovers exactly its run. */
  lemma RemoveUncovers(f: Blocks, p: nat, i: nat)
    requires Disjoint(f) && p in f
    ensures Covered(f - {p}, i) <==> Covered(f, i) && !InRun(i, p, f[p])
  {
    var g := f - {p};
    if Covered(g, i) {
      var q :| Covers(g, q, i);
      assert Covers(f, q, i);
    }
    if Covered(f, i) && !InRun(i, p, f[p]) {
      var q :| Covers(f, q, i);
      assert Covers(g, q, i);
    }
  }

  // ---------------------------------------------------------------- merging

  /** The run of order k at p meets no block of f. */
  ghost predicate Clear(f: Blocks, p: nat, k: nat) {
    forall q | q in f :: q + Pow2(f[q]) <= p || p + Pow2(k) <= q
  }

  /** One turn of the merge loop: the free buddy leaves f and its parent run is clear. */
  lemma AbsorbBuddy(f: Blocks, p: nat, k: nat)
    requires Canonical(f) && k < MAX_ORDER - 1 && Aligned(p, k) && Clear(f, p, k)
    requires FlipBit(p, k) in f && f[FlipBit(p, k)] == k
    ensures Canonical(f - {FlipBit(p, k)})
    ensures Aligned(ClearBit(p, k), k + 1) && Clear(f - {FlipBit(p, k)}, ClearBit(p, k), k + 1)
    ensures forall i: nat :: InRun(i, ClearBit(p, k), k + 1) <==> InRun(i, p, k) || InRun(i, FlipBit(p, k), k)
  {
    var b := FlipBit(p, k);
    CanonicalMinus(f, b);
    BuddyPair(p, k);
  }

  /** Two buddies of order k replaced by their parent block. */
  ghost function Joined(f: Blocks, p: nat, k: nat): (g: Blocks) {
    (f - {p, FlipBit(p, k)})[ClearBit(p, k) := k + 1]
  }

  /** g differs from f in one block: c of order k + 1 stands for the two of order k. */
  ghost predicate HalvesReplaced(f: Blocks, g: Blocks, c: nat, k: nat) {
    && c in g && g[c] == k + 1 && c + Pow2(k) !in g
    && c in f && f[c] == k && c + Pow2(k) in f && f[c + Pow2(k)] == k
    && (forall q | q in g && q != c :: q in f && f[q] == g[q])
    && (forall q | q in f && q != c && q != c + Pow2(k) :: q in g)
  }

  lemma JoinReplaces(f: Blocks, p: nat, k: nat)
    requires Aligned(p, k) && p in f && f[p] == k && FlipBit(p, k) in f && f[FlipBit(p, k)] == k
    ensures HalvesReplaced(f, Joined(f, p, k), ClearBit(p, k), k)
    ensures Aligned(ClearBit(p, k), k + 1)
  {
    BuddyPair(p, k);
  }

  lemma JoinDisjoint(f: Blocks, g: Blocks, c: nat, k: nat)
    requires Disjoint(f) && HalvesReplaced(f, g, c, k)
    ensures Disjoint(g)
  {
    forall q, r | q in g && r in g && q < r
      ensures q + Pow2(g[q]) <= r
    {
      JoinApart(f, g, c, k, q, r);
    }
  }

  lemma JoinApart(f: Blocks, g: Blocks, c: nat, k: nat, q: nat, r: nat)
    requires Disjoint(f) && HalvesReplaced(f, g, c, k) && q in g && r in g && q < r
    ensures q + Pow2(g[q]) <= r
  {
    if q == c {
      Apart(f, c, r);
      Apart(f, c + Pow2(k), r);
      assert Pow2(k + 1) == 2 * Pow2(k);
    } else {
      Apart(f, q, r);
    }
  }

  lemma JoinCovers(f: Blocks, g: Blocks, c: nat, k: nat, i: nat)
    requires HalvesReplaced(f, g, c, k)
    ensures Covered(f, i) <==> Covered(g, i)
  {
    if Covered(f, i) {
      var q :| Covers(f, q, i);
      assert Covers(g, q, i) || Covers(g, c, i);
    }
    if Covered(g, i) {
      var q :| Covers(g, q, i);
      assert Covers(f, q, i) || Covers(f, c + Pow2(k), i);
    }
  }

  lemma JoinKeepsTiles(f: Blocks, p: nat, k: nat)
    requires WellAligned(f) && Disjoint(f) && k < MAX_ORDER - 1
    requires p in f && f[p] == k && FlipBit(p, k) in f && f[FlipBit(p, k)] == k
    ensures WellAligned(Joined(f, p, k)) && Disjoint(Joined(f, p, k)) && SameCover(f, Joined(f, p, k))
  {
    var g, c := Joined(f, p, k), ClearBit(p, k);
    JoinReplaces(f, p, k);
    JoinDisjoint(f, g, c, k);
    forall i: nat
      ensures Covered(f, i) <==> Covered(g, i)
    {
      JoinCovers(f, g, c, k, i);
    }
  }

  /** Leaving the merge loop: the run joins f as a block and f is canonical again. */
  lemma InsertCanonical(f: Blocks, p: nat, k: nat)
    requires Canonical(f) && k < MAX_ORDER && Aligned(p, k) && Clear(f, p, k)
    requires k < MAX_ORDER - 1 ==> !(FlipBit(p, k) in f && f[FlipBit(p, k)] == k)
    ensures p !in f && Canonical(f[p := k])
    ensures forall i: nat :: Covered(f[p := k], i) <==> Covered(f, i) || InRun(i, p, k)
  {
    var g := f[p := k];
    ClearMisses(f, p, k);
    forall q | q in g
      ensures !BuddiesFree(g, q)
    {
      BuddyPair(q, g[q]);
      assert q != p && FlipBit(q, g[q]) != p && BuddiesFree(g, q) ==> BuddiesFree(f, q);
    }
    InsertCovers(f, p, k);
  }

  lemma ClearMisses(f: Blocks, p: nat, k: nat)
    requires Clear(f, p, k)
    ensures p !in f
  {
  }

  lemma InsertDisjoint(f: Blocks, p: nat, k: nat)
    requires Disjoint(f) && Clear(f, p, k) && p !in f
    ensures Disjoint(f[p := k])
  {
  }

  lemma InsertCovers(f: Blocks, p: nat, k: nat)
    requires p !in f
    ensures forall i: nat :: Covered(f[p := k], i) <==> Covered(f, i) || InRun(i, p, k)
  {
    var g := f[p := k];
    forall i: nat
      ensures Covered(g, i) <==> Covered(f, i) || InRun(i, p, k)
    {
      if Covered(g, i) && !InRun(i, p, k) {
        var q :| Covers(g, q, i);
        assert Covers(f, q, i);
      }
      if Covered(f, i) {
        var q :| Covers(f, q, i);
        assert Covers(g, q, i);
      }
      if InRun(i, p, k) {
        assert Covers(g, p, i);
      }
    }
  }
}
