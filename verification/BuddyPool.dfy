/**
 The buddy allocator on block sets: which blocks are free, which are in use, and
 what an allocation and a release promise about the pages.  Module BuddySystems
 proves the split and merge loops to keep these promises, over whole runs, and
 implements them on linked lists and page flags.
 */
module BuddyPool {
  import opened PowersOfTwo
  import opened BlockTiling

  datatype Pool = Pool(free: Blocks, live: Blocks)

  /** Free blocks are canonical; free and live blocks together tile [lo, hi). */
  ghost predicate Inv(s: Pool, lo: nat, hi: nat) {
    Canonical(s.free) && s.free.Keys !! s.live.Keys && Tiling(s.free + s.live, lo, hi)
  }

  /** No free block is large enough: the allocator's out-of-memory branch. */
  ghost predicate Exhausted(f: Blocks, k: nat) {
    forall p | p in f :: f[p] < k
  }

  /** A run of order k at r leaves the free pages and becomes a live block. */
  ghost predicate Handed(s: Pool, k: nat, r: nat, t: Pool) {
    && k < MAX_ORDER
    && RunCovered(s.free, r, k)
    && t.live == s.live[r := k]
    && Canonical(t.free)
    && forall i: nat :: Covered(t.free, i) <==> Covered(s.free, i) && !InRun(i, r, k)
  }

  /** The live block at r returns to the free pages. */
  ghost predicate Returned(s: Pool, r: nat, t: Pool) {
    && r in s.live
    && t.live == s.live - {r}
    && Canonical(t.free)
    && forall i: nat :: Covered(t.free, i) <==> Covered(s.free, i) || InRun(i, r, s.live[r])
  }

  // ---------------------------------------------------------------- covers of unions

  lemma UnionCovers(f: Blocks, g: Blocks, i: nat)
    requires f.Keys !! g.Keys
    ensures Covered(f + g, i) <==> Covered(f, i) || Covered(g, i)
  {
    if Covered(f + g, i) {
      var p :| Covers(f + g, p, i);
      assert Covers(f, p, i) || Covers(g, p, i);
    }
    if Covered(f, i) {
      var p :| Covers(f, p, i);
      assert Covers(f + g, p, i);
    }
    if Covered(g, i) {
      var p :| Covers(g, p, i);
      assert Covers(f + g, p, i);
    }
  }

  /** Free pages and live pages are complementary in the managed region. */
  lemma FreeIsComplement(s: Pool, lo: nat, hi: nat, i: nat)
    requires Inv(s, lo, hi)
    ensures Covered(s.free, i) <==> lo <= i < hi && !Covered(s.live, i)
    ensures Covered(s.live, i) ==> lo <= i < hi
  {
    UnionCovers(s.free, s.live, i);
    assert Covered(s.free + s.live, i) <==> lo <= i < hi;
    if Covered(s.free, i) && Covered(s.live, i) {
      PartsShareNoPage(s.free, s.live, i);
    }
  }

  lemma PartsShareNoPage(f: Blocks, g: Blocks, i: nat)
    requires f.Keys !! g.Keys && Disjoint(f + g)
    ensures !(Covered(f, i) && Covered(g, i))
  {
    forall p, q
      ensures !(Covers(f, p, i) && Covers(g, q, i))
    {
      assert Covers(f, p, i) ==> Covers(f + g, p, i);
      assert Covers(g, q, i) ==> Covers(f + g, q, i);
    }
  }

  lemma LivePartDisjoint(s: Pool, lo: nat, hi: nat)
    requires Inv(s, lo, hi)
    ensures WellAligned(s.live) && Disjoint(s.live)
  {
    var all := s.free + s.live;
    assert forall p | p in s.live :: p in all && all[p] == s.live[p];
  }

  ghost predicate ShareNoPage(f: Blocks, g: Blocks) {
    forall i: nat :: !(Covered(f, i) && Covered(g, i))
  }

  lemma UnionApart(f: Blocks, g: Blocks, p: nat, q: nat)
    requires ShareNoPage(f, g) && p in f && q in g
    ensures p + Pow2(f[p]) <= q || q + Pow2(g[q]) <= p
  {
    assert Covers(f, p, p) && Covers(g, q, q);
    assert Covered(f, p) && Covered(g, q);
    assert !Covers(g, q, p) && !Covers(f, p, q);
  }

  lemma UnionDisjoint(f: Blocks, g: Blocks)
    requires Disjoint(f) && Disjoint(g) && ShareNoPage(f, g)
    ensures f.Keys !! g.Keys && Disjoint(f + g)
  {
    forall p, q | p in f && q in g
      ensures p + Pow2(f[p]) <= q || q + Pow2(g[q]) <= p
    {
      UnionApart(f, g, p, q);
    }
  }

  /**
   Two aligned disjoint block sets that share no page tile what they cover
   between them.
   */
  lemma UnionTiles(f: Blocks, g: Blocks, lo: nat, hi: nat)
    requires WellAligned(f) && Disjoint(f) && WellAligned(g) && Disjoint(g) && ShareNoPage(f, g)
    requires forall i: nat :: Covered(f, i) || Covered(g, i) <==> lo <= i < hi
    ensures f.Keys !! g.Keys && Tiling(f + g, lo, hi)
  {
    UnionDisjoint(f, g);
    forall i: nat
      ensures Covered(f + g, i) <==> lo <= i < hi
    {
      UnionCovers(f, g, i);
    }
  }

  // ---------------------------------------------------------------- steps keep the invariant

  lemma RunClear(f: Blocks, r: nat, k: nat)
    requires forall i | InRun(i, r, k) :: !Covered(f, i)
    ensures Clear(f, r, k) && r !in f
  {
    forall q | q in f
      ensures q + Pow2(f[q]) <= r || r + Pow2(k) <= q
    {
      assert Covers(f, q, q);
      assert InRun(r, r, k) && !Covers(f, q, r);
      assert InRun(q, r, k) ==> !Covered(f, q);
    }
  }

  lemma HandedRunClear(s: Pool, k: nat, r: nat, t: Pool, lo: nat, hi: nat)
    requires Inv(s, lo, hi) && Handed(s, k, r, t)
    ensures Clear(s.live, r, k) && r !in s.live
  {
    forall i: nat | InRun(i, r, k)
      ensures !Covered(s.live, i)
    {
      FreeIsComplement(s, lo, hi, i);
    }
    RunClear(s.live, r, k);
  }

  lemma HandedCover(s: Pool, k: nat, r: nat, t: Pool, lo: nat, hi: nat, i: nat)
    requires Inv(s, lo, hi) && Handed(s, k, r, t) && r !in s.live
    ensures !(Covered(t.free, i) && Covered(t.live, i))
    ensures Covered(t.free, i) || Covered(t.live, i) <==> lo <= i < hi
  {
    FreeIsComplement(s, lo, hi, i);
    InsertCovers(s.live, r, k);
  }

  lemma HandedKeepsInv(s: Pool, k: nat, r: nat, t: Pool, lo: nat, hi: nat)
    requires Inv(s, lo, hi) && Handed(s, k, r, t)
    ensures r !in s.live && Inv(t, lo, hi)
  {
    HandedRunClear(s, k, r, t, lo, hi);
    LivePartDisjoint(s, lo, hi);
    InsertDisjoint(s.live, r, k);
    forall i: nat
      ensures !(Covered(t.free, i) && Covered(t.live, i))
      ensures Covered(t.free, i) || Covered(t.live, i) <==> lo <= i < hi
    {
      HandedCover(s, k, r, t, lo, hi, i);
    }
    UnionTiles(t.free, t.live, lo, hi);
  }

  lemma ReturnedCover(s: Pool, r: nat, t: Pool, lo: nat, hi: nat, i: nat)
    requires Inv(s, lo, hi) && Returned(s, r, t) && Disjoint(s.live)
    ensures !(Covered(t.free, i) && Covered(t.live, i))
    ensures Covered(t.free, i) || Covered(t.live, i) <==> lo <= i < hi
  {
    FreeIsComplement(s, lo, hi, i);
    RemoveUncovers(s.live, r, i);
    assert InRun(i, r, s.live[r]) ==> Covers(s.live, r, i);
  }

  lemma ReturnedKeepsInv(s: Pool, r: nat, t: Pool, lo: nat, hi: nat)
    requires Inv(s, lo, hi) && Returned(s, r, t)
    ensures Inv(t, lo, hi)
  {
    LivePartDisjoint(s, lo, hi);
    forall i: nat
      ensures !(Covered(t.free, i) && Covered(t.live, i))
      ensures Covered(t.free, i) || Covered(t.live, i) <==> lo <= i < hi
    {
      ReturnedCover(s, r, t, lo, hi, i);
    }
    UnionTiles(t.free, t.live, lo, hi);
  }

  /** No block, free or live, reaches outside the region: nothing below lo is ever merged or handed out. */
  lemma BlocksStayInside(s: Pool, lo: nat, hi: nat, p: nat)
    requires Inv(s, lo, hi) && p in s.free + s.live
    ensures lo <= p && p + Pow2((s.free + s.live)[p]) <= hi
  {
    var all: Blocks := s.free + s.live;
    var last := p + Pow2(all[p]) - 1;
    assert Covers(all, p, p) && Covers(all, p, last);
    assert Covered(all, p) && Covered(all, last);
  }

  // ---------------------------------------------------------------- consequences

  /**
   History does not matter: two states, of whatever runs, whose live blocks cover
   the same pages have the very same free blocks.
   */
  lemma HistoryIndependent(s: Pool, t: Pool, lo: nat, hi: nat)
    requires Inv(s, lo, hi) && Inv(t, lo, hi) && SameCover(s.live, t.live)
    ensures s.free == t.free
  {
    forall i: nat
      ensures Covered(s.free, i) <==> Covered(t.free, i)
    {
      FreeIsComplement(s, lo, hi, i);
      FreeIsComplement(t, lo, hi, i);
    }
    CanonicalUnique(s.free, t.free);
  }

  /** Releasing a block just handed out restores the exact free set. */
  lemma HandThenReturn(s: Pool, k: nat, r: nat, t: Pool, u: Pool, lo: nat, hi: nat)
    requires Inv(s, lo, hi) && Handed(s, k, r, t) && Returned(t, r, u)
    ensures u == s
  {
    HandedKeepsInv(s, k, r, t, lo, hi);
    ReturnedKeepsInv(t, r, u, lo, hi);
    assert u.live == s.live;
    HistoryIndependent(s, u, lo, hi);
  }

  /** No live page in the aligned run of order k at p, which lies in the region. */
  ghost predicate RunFree(s: Pool, p: nat, k: nat, lo: nat, hi: nat) {
    Aligned(p, k) && lo <= p && p + Pow2(k) <= hi && forall i | InRun(i, p, k) :: !Covered(s.live, i)
  }

  lemma RunFreeIffCovered(s: Pool, p: nat, k: nat, lo: nat, hi: nat)
    requires Inv(s, lo, hi)
    ensures RunFree(s, p, k, lo, hi) <==> RunCovered(s.free, p, k)
  {
    forall i: nat | InRun(i, p, k)
      ensures Covered(s.free, i) <==> lo <= i < hi && !Covered(s.live, i)
    {
      FreeIsComplement(s, lo, hi, i);
    }
    assert InRun(p, p, k) && InRun(p + Pow2(k) - 1, p, k);
  }

  /**
   Allocation is complete: no free block is large enough exactly when no naturally
   aligned run of 2^k pages of the region is free of live pages.
   */
  lemma ExhaustedIffNoRun(s: Pool, k: nat, lo: nat, hi: nat)
    requires Inv(s, lo, hi) && k < MAX_ORDER
    ensures Exhausted(s.free, k) <==> !exists p: nat :: RunFree(s, p, k, lo, hi)
  {
    if p: nat :| RunFree(s, p, k, lo, hi) {
      RunFreeIffCovered(s, p, k, lo, hi);
      var q := FullCoalescing(s.free, p, k);
    }
    if p :| p in s.free && s.free[p] >= k {
      PowerMonotone(k, s.free[p]);
      AlignedDown(p, k, s.free[p]);
      BlockCoversRun(s.free, p, p, k);
      RunFreeIffCovered(s, p, k, lo, hi);
    }
  }
}
