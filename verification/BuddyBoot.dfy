/**
 The end of pmm_init (kernel/pmm.c:351-359): every hart's cache filled from the fresh allocator,
 which leaves the state that the machine of BuddyHarts starts from.
 */
module BuddyBoot {
  import opened BlockTiling
  import opened BuddyPool
  import opened Collections
  import opened PageCaches
  import opened Rounding
  import opened BuddySystems
  import BuddyHarts

  ghost predicate InCaches(caches: seq<seq<nat>>, p: nat) {
    exists h, i :: 0 <= h < |caches| && 0 <= i < |caches[h]| && caches[h][i] == p
  }

  /** The caches filled so far hold all that is live, each page once. */
  ghost predicate Filled(caches: seq<seq<nat>>, live: Blocks) {
    && (forall h | 0 <= h < |caches| :: |caches[h]| == CACHE_SIZE && Distinct(caches[h]))
    && (forall h, i | 0 <= h < |caches| && 0 <= i < |caches[h]| :: caches[h][i] in live && live[caches[h][i]] == 0)
    && (forall p | p in live :: InCaches(caches, p))
    && (forall h, g, p | 0 <= h < g < |caches| && p in caches[h] :: p !in caches[g])
  }

  /** One more cache, of pages that were not live. */
  lemma FilledOneMore(caches: seq<seq<nat>>, live: Blocks, pages: seq<nat>, live': Blocks)
    requires Filled(caches, live) && |pages| == CACHE_SIZE && Distinct(pages)
    requires forall p | p in pages :: p !in live && p in live' && live'[p] == 0
    requires live'.Keys == live.Keys + (set p | p in pages) && forall p | p in live :: live'[p] == live[p]
    ensures Filled(caches + [pages], live')
  {
    var more := caches + [pages];
    forall p | p in live'
      ensures InCaches(more, p)
    {
      if p in live {
        var h, i :| 0 <= h < |caches| && 0 <= i < |caches[h]| && caches[h][i] == p;
        assert more[h][i] == p;
      } else {
        var i :| 0 <= i < |pages| && pages[i] == p;
        assert more[|caches|][i] == p;
      }
    }
  }

  /** The state the harts start in. */
  ghost function Initial(pool: Pool, caches: seq<seq<nat>>): (s: BuddyHarts.State) {
    BuddyHarts.State(0, pool, caches, {}, seq(|caches|, _ => BuddyHarts.Idle))
  }

  lemma FilledIsBooted(pool: Pool, caches: seq<seq<nat>>, lo: nat, hi: nat)
    requires Inv(pool, lo, hi) && Filled(caches, pool.live)
    ensures BuddyHarts.Booted(Initial(pool, caches), lo, hi)
  {
    var s := Initial(pool, caches);
    forall p | p in pool.live
      ensures exists h, i :: BuddyHarts.At(s, BuddyHarts.Slot(h, i), p)
    {
      var h, i :| 0 <= h < |caches| && 0 <= i < |caches[h]| && caches[h][i] == p;
      assert BuddyHarts.At(s, BuddyHarts.Slot(h, i), p);
    }
    forall pl, pm, p | BuddyHarts.At(s, pl, p) && BuddyHarts.At(s, pm, p)
      ensures pl == pm
    {
      OneSlot(caches, pool.live, pl.hart, pl.index, pm.hart, pm.index);
    }
  }

  lemma OneSlot(caches: seq<seq<nat>>, live: Blocks, h: nat, i: nat, g: nat, j: nat)
    requires Filled(caches, live) && h < |caches| && g < |caches| && i < |caches[h]| && j < |caches[g]|
    requires caches[h][i] == caches[g][j]
    ensures h == g && i == j
  {
    assert caches[h][i] in caches[h] && caches[g][j] in caches[g];
  }

  /** The two nested loops at the end of pmm_init, over any number of harts. */
  method FillCaches(b: BuddySystem, harts: nat) returns (caches: seq<seq<nat>>, full: bool)
    requires b.Valid() && b.live == map[]
    modifies b, b.status, b.lists, b.lists.next, b.lists.prev
    ensures b.Valid() && (full ==> |caches| == harts && BuddyHarts.Booted(Initial(b.State(), caches), b.lo, b.hi))
    ensures !full ==> Exhausted(b.free, 0)
  {
    caches, full := [], true;
    while |caches| < harts
      invariant b.Valid() && |caches| <= harts && Filled(caches, b.live)
      decreases harts - |caches|
    {
      ghost var live := b.live;
      var pages, ok := FillCache(b, CACHE_SIZE);
      if !ok {
        return caches, false;
      }
      FilledOneMore(caches, live, pages, b.live);
      caches := caches + [pages];
    }
    FilledIsBooted(b.State(), caches, b.lo, b.hi);
  }

  /**
   pmm_init: it panics, with no allocator or an exhausted one, or leaves every hart booted.  Free or cached
   are exactly the pages of memory that lie wholly behind the page metadata.
   */
  method Boot(kernelEnd: nat, memSize: nat, harts: nat) returns (b: BuddySystem?, caches: seq<seq<nat>>, full: bool)
    requires kernelEnd >= DRAM_BASE
    ensures b == null <==> Min(memSize, PKE_MAX_ALLOWABLE_RAM) < kernelEnd - DRAM_BASE
    ensures b != null ==> b.nrPages == Min(memSize, PKE_MAX_ALLOWABLE_RAM) / PGSIZE
    ensures b != null ==> forall i: nat :: (Covered(b.free, i) || Covered(b.live, i)) <==>
              i < b.nrPages && MetadataEnd(kernelEnd, b.nrPages) <= PfnToAddr(i)
    ensures b != null ==> b.Valid() && (full ==> BuddyHarts.Booted(Initial(b.State(), caches), b.lo, b.hi))
    ensures b != null && !full ==> Exhausted(b.free, 0)
  {
    b := PmmInit(kernelEnd, memSize);
    caches, full := [], false;
    if b != null {
      caches, full := FillCaches(b, harts);
      forall i: nat
        ensures Covered(b.free, i) || Covered(b.live, i) <==> b.lo <= i < b.hi
      {
        FreeIsComplement(b.State(), b.lo, b.hi, i);
      }
    }
  }
}
