/**
 The buddy allocator of kernel/pmm.c on its own data: page status words, linked
 free lists, the greedy initial partition, the split loop, the allocation scan and
 the merge loop.  Ghost fields `free` and `live` are the block sets of BuddyPool;
 Valid() ties lists and flags to them.
 */
module BuddySystems {
  import opened PowersOfTwo
  import opened BlockTiling
  import opened BuddyPool
  import opened Collections
  import opened RingLists
  import opened Rounding

  const DRAM_BASE: nat := 0x8000_0000
  const PKE_MAX_ALLOWABLE_RAM: nat := 128 * 1024 * 1024
  const PAGE_T_SIZE: nat := 24

  /** The status word of a page_t: the bits the allocator uses. */
  datatype Status = Status(isFree: bool, isHead: bool, order: nat, alloc: nat)

  datatype AllocResult = Allocated(addr: nat) | BadOrder | OutOfMemory

  function Min(a: nat, b: nat): (r: nat) {
    if a < b then a else b
  }

  function PfnToAddr(pfn: nat): (a: nat) {
    pfn * PGSIZE + DRAM_BASE
  }

  function AddrToPfn(addr: nat): (pfn: nat)
    requires addr >= DRAM_BASE
  {
    (addr - DRAM_BASE) / PGSIZE
  }

  // ---------------------------------------------------------------- agreement of lists, flags and blocks

  /** Page x is linked in list o exactly when it heads a free block of order o. */
  ghost predicate ListsAgree(rings: seq<seq<nat>>, f: Blocks) {
    |rings| == MAX_ORDER && forall o: nat, x: nat {:trigger x in rings[o]} | o < MAX_ORDER :: x in rings[o] <==> x in f && f[x] == o
  }

  /** The free flag marks exactly the first pages of free blocks. */
  ghost predicate FlagsAgree(status: seq<Status>, f: Blocks) {
    && (forall p | p in f :: p < |status| && status[p].isHead && status[p].order == f[p] && status[p].alloc == 0)
    && (forall p: nat | p < |status| :: status[p].isFree <==> p in f)
  }

  ghost predicate LiveAgree(status: seq<Status>, live: Blocks) {
    forall p | p in live :: p < |status| && status[p].isHead && status[p].order == live[p] && status[p].alloc == 1
  }

  lemma AgreeDel(rings: seq<seq<nat>>, f: Blocks, n: nat, o: nat, j: nat)
    requires ListsAgree(rings, f) && Shape(n, rings) && o < MAX_ORDER && j < |rings[o]|
    ensures ListsAgree(rings[o := Without(rings[o], j)], f - {rings[o][j]})
  {
    var x := rings[o][j];
    var r := Without(rings[o], j);
    forall y
      ensures y in r <==> y in rings[o] && y != x
    {
      if y in rings[o] && y != x {
        var i :| 0 <= i < |rings[o]| && rings[o][i] == y;
        assert r[if i < j then i else i - 1] == y;
      }
    }
  }

  lemma AgreeAdd(rings: seq<seq<nat>>, f: Blocks, o: nat, x: nat)
    requires ListsAgree(rings, f) && o < MAX_ORDER && x !in f
    ensures forall u: nat | u < MAX_ORDER :: x !in rings[u]
    ensures ListsAgree(rings[o := [x] + rings[o]], f[x := o])
  {
  }

  lemma FlagsSplit(status: seq<Status>, f: Blocks, live: Blocks, x: nat, k: nat, status': seq<Status>, f': Blocks)
    requires FlagsAgree(status, f) && LiveAgree(status, live) && x in f && f[x] == k + 1
    requires x + Pow2(k) < |status| && x + Pow2(k) !in live && x !in live
    requires status' == status[x + Pow2(k) := Status(true, true, k, 0)][x := status[x].(order := k)]
    requires f' == SplitOnce(f, x)
    ensures FlagsAgree(status', f') && LiveAgree(status', live)
  {
  }

  // ---------------------------------------------------------------- arithmetic of the initial partition

  lemma {:induction false} PowerTen()
    ensures Pow2(10) == 1024 && Pow2(19) == DRAM_BASE / PGSIZE
  {
    assert Pow2(5) == 32;
    assert Pow2(10) == 1024;
    assert Pow2(15) == 32768;
    assert Pow2(19) == 524288;
  }

  /** Alignment of the absolute address is alignment of the page frame number, up to order 19. */
  lemma AbsoluteAlignment(pfn: nat, k: nat)
    requires k <= 19
    ensures Aligned(DRAM_BASE / PGSIZE + pfn, k) <==> Aligned(pfn, k)
  {
    PowerTen();
    var m := PowerFactor(k, 19);
    AddMultiple(m, pfn, Pow2(k));
  }

  lemma AddMultiple(m: nat, p: nat, d: nat)
    requires d > 0
    ensures (m * d + p) % d == 0 <==> p % d == 0
  {
    if p % d == 0 {
      assert m * d + p == (m + p / d) * d;
      DivMul(m + p / d, d);
    }
    if (m * d + p) % d == 0 {
      DropMultiple((m * d + p) / d, m, p, d);
    }
  }

  lemma DropMultiple(q: nat, m: nat, p: nat, d: nat)
    requires d > 0 && m * d + p == q * d
    ensures p % d == 0
  {
    MulMonotone(q + 1, m, d);
    assert (q + 1) * d == q * d + d;
    assert p == (q - m) * d;
    DivMul(q - m, d);
  }

  /** Order o is the largest that alignment, the end of the region and the top order allow at p. */
  ghost predicate LargestOrder(o: nat, p: nat, hi: nat) {
    && o < MAX_ORDER && Aligned(p, o) && p + Pow2(o) <= hi
    && (o == MAX_ORDER - 1 || !Aligned(p, o + 1) || hi < p + Pow2(o + 1))
  }

  /**
   The order chosen by the greedy loop, from the lowest set bit of the absolute
   page number and the highest set bit of the number of pages left.
   */
  method ChooseOrder(curr: nat, stop: nat) returns (order: nat)
    requires DRAM_BASE <= curr < stop && curr % PGSIZE == 0 && stop % PGSIZE == 0
    ensures LargestOrder(order, AddrToPfn(curr), AddrToPfn(stop))
  {
    PageQuotients(curr, stop);
    var alignOrder := Ctz(curr / PGSIZE);
    var remaining := (stop - curr) / PGSIZE;
    var limitOrder := Log2(remaining);
    order := if alignOrder < limitOrder then alignOrder else limitOrder;
    if order >= MAX_ORDER {
      order := MAX_ORDER - 1;
    }
    ChosenIsLargest(AddrToPfn(curr), AddrToPfn(stop), order, alignOrder, limitOrder);
  }

  lemma PageQuotients(curr: nat, stop: nat)
    requires DRAM_BASE <= curr < stop && curr % PGSIZE == 0 && stop % PGSIZE == 0
    ensures 0 < curr / PGSIZE == DRAM_BASE / PGSIZE + AddrToPfn(curr)
    ensures 0 < (stop - curr) / PGSIZE == AddrToPfn(stop) - AddrToPfn(curr)
  {
  }

  lemma ChosenIsLargest(pfn: nat, hi: nat, order: nat, align: nat, limit: nat)
    requires Aligned(DRAM_BASE / PGSIZE + pfn, align) && !Aligned(DRAM_BASE / PGSIZE + pfn, align + 1)
    requires Pow2(limit) <= hi - pfn < Pow2(limit + 1)
    requires order < MAX_ORDER && order <= align && order <= limit
    requires order == align || order == limit || order == MAX_ORDER - 1
    ensures LargestOrder(order, pfn, hi)
  {
    AlignedDown(DRAM_BASE / PGSIZE + pfn, order, align);
    AbsoluteAlignment(pfn, order);
    AbsoluteAlignment(pfn, order + 1);
    PowerMonotone(order, limit);
  }

  /** Each block so far is as large as its alignment, the end of memory and the top order allow. */
  ghost predicate Greedy(f: Blocks, hi: nat) {
    forall p | p in f :: f[p] == MAX_ORDER - 1 || !Aligned(p, f[p] + 1) || hi < p + Pow2(f[p] + 1)
  }

  ghost predicate CoversRange(f: Blocks, lo: nat, hi: nat) {
    forall i: nat :: Covered(f, i) <==> lo <= i < hi
  }

  lemma NothingAhead(f: Blocks, lo: nat, cur: nat, k: nat)
    requires CoversRange(f, lo, cur)
    ensures Clear(f, cur, k) && cur !in f && forall p | p in f :: p < cur
  {
    forall p | p in f
      ensures p < cur
    {
      assert Covers(f, p, p);
      assert Covered(f, p);
    }
    forall i: nat | InRun(i, cur, k)
      ensures !Covered(f, i)
    {
      assert Covered(f, i) <==> lo <= i < cur;
    }
    RunClear(f, cur, k);
  }

  /** A left buddy of the same order would itself have been taken one order larger. */
  lemma NoBuddyBehind(f: Blocks, cur: nat, hi: nat, k: nat)
    requires Greedy(f, hi) && k < MAX_ORDER - 1 && Aligned(cur, k) && cur + Pow2(k) <= hi
    requires forall p | p in f :: p < cur
    ensures !(FlipBit(cur, k) in f && f[FlipBit(cur, k)] == k)
  {
    BuddyPair(cur, k);
  }

  /** The loop state of the initial partition: everything below cur is partitioned. */
  ghost predicate GreedyState(f: Blocks, lo: nat, cur: nat, hi: nat) {
    Canonical(f) && Greedy(f, hi) && CoversRange(f, lo, cur)
  }

  lemma GreedyStep(f: Blocks, lo: nat, cur: nat, hi: nat, o: nat)
    requires GreedyState(f, lo, cur, hi) && lo <= cur && LargestOrder(o, cur, hi)
    ensures cur !in f && GreedyState(f[cur := o], lo, cur + Pow2(o), hi)
  {
    NothingAhead(f, lo, cur, o);
    if o < MAX_ORDER - 1 {
      NoBuddyBehind(f, cur, hi, o);
    }
    InsertCanonical(f, cur, o);
    RangeGrows(f, lo, cur, o);
  }

  lemma EmptyPartition(lo: nat, hi: nat)
    ensures GreedyState(map[], lo, lo, hi) && (hi <= lo ==> GreedyState(map[], lo, hi, hi))
  {
    assert forall i: nat :: !Covered(map[], i);
  }

  /** A canonical partition of a region is the only one, and none has fewer blocks. */
  lemma PartitionIsFewest(f: Blocks, g: Blocks, lo: nat, hi: nat)
    requires Canonical(f) && Tiling(f, lo, hi) && Tiling(g, lo, hi)
    ensures |f| <= |g| && (Canonical(g) ==> f == g)
  {
    assert SameCover(f, g);
    CanonicalFewest(f, g);
    if Canonical(g) {
      CanonicalUnique(f, g);
    }
  }

  lemma RangeGrows(f: Blocks, lo: nat, cur: nat, k: nat)
    requires CoversRange(f, lo, cur) && cur !in f && lo <= cur
    ensures CoversRange(f[cur := k], lo, cur + Pow2(k))
  {
    InsertCovers(f, cur, k);
    var g := f[cur := k];
    forall i: nat
      ensures Covered(g, i) <==> lo <= i < cur + Pow2(k)
    {
      assert Covered(f, i) <==> lo <= i < cur;
    }
  }

  // ---------------------------------------------------------------- the buddy index

  /**
   The merge loop indexes pages[] with the buddy of a block.  The index stays in
   bounds for every aligned block of order below 10 exactly when the number of
   pages is a multiple of 1024.
   */
  lemma BuddyIndexInBounds(n: nat)
    ensures n % 1024 == 0 <==>
            forall p: nat, k: nat | k < MAX_ORDER - 1 && Aligned(p, k) && p + Pow2(k) <= n :: FlipBit(p, k) < n
  {
    PowerTen();
    if n % 1024 == 0 {
      forall p: nat, k: nat | k < MAX_ORDER - 1 && Aligned(p, k) && p + Pow2(k) <= n
        ensures FlipBit(p, k) < n
      {
        BuddyInBounds(n, p, k);
      }
    } else {
      var k := Ctz(n);
      if k >= 10 {
        AlignedDown(n, 10, k);
      }
      BuddyPair(n, k);
      BitIsPart(n, k);
      var p := n - Pow2(k);
      assert ClearBit(n, k) == p;
      Halves(p, k);
      assert FlipBit(p, k) == n;
    }
  }

  lemma BuddyInBounds(n: nat, p: nat, k: nat)
    requires n % 1024 == 0 && k < MAX_ORDER - 1 && Aligned(p, k) && p + Pow2(k) <= n
    ensures FlipBit(p, k) + Pow2(k) <= n
  {
    PowerTen();
    AlignedDown(n, k + 1, 10);
    BuddyPair(p, k);
    var a := Quotient(ClearBit(p, k), k + 1);
    var b := Quotient(n, k + 1);
    ScaledOrder(a, b, Pow2(k + 1));
  }

  // ---------------------------------------------------------------- allocation on block sets

  /** The split loop: the block at r halved until its order is k. */
  ghost function SplitDown(f: Blocks, r: nat, k: nat): (g: Blocks)
    requires r in f
    decreases f[r]
  {
    if f[r] <= k then f else SplitDown(SplitOnce(f, r), r, k)
  }

  /** Every upper half made on the way down lies in pages[] and is neither free nor live. */
  ghost predicate SplitSafe(f: Blocks, live: Blocks, n: nat, r: nat, k: nat)
    requires r in f
    decreases f[r]
  {
    f[r] <= k ||
    var bud := r + Pow2(f[r] - 1);
    bud < n && bud !in f && bud !in live && SplitSafe(SplitOnce(f, r), live, n, r, k)
  }

  /** The block sets from which splitting the order-i block r down to order k is safe and gives `goal`. */
  ghost function SplitStates(live: Blocks, n: nat, r: nat, i: nat, k: nat, goal: Blocks): iset<Blocks> {
    iset f: Blocks | r in f && f[r] == i && SplitSafe(f, live, n, r, k) && SplitDown(f, r, k) == goal
  }

  /** The next turn is safe and leaves the rest of the splitting to do. */
  lemma SplitUnfolds(f: Blocks, live: Blocks, n: nat, r: nat, i: nat, k: nat, goal: Blocks)
    requires i > k && f in SplitStates(live, n, r, i, k, goal)
    ensures r in f && f[r] == i
    ensures var bud := r + Pow2(i - 1); bud < n && bud !in f && bud !in live
    ensures SplitOnce(f, r) in SplitStates(live, n, r, i - 1, k, goal)
  {
  }

  lemma SplitDone(f: Blocks, live: Blocks, n: nat, r: nat, k: nat, goal: Blocks)
    requires f in SplitStates(live, n, r, k, k, goal)
    ensures f == goal
  {
  }

  ghost predicate FreeInside(f: Blocks, live: Blocks, n: nat) {
    forall i: nat | Covered(f, i) :: i < n && i !in live
  }

  lemma {:induction false} SplitDownEffect(f: Blocks, live: Blocks, n: nat, r: nat, k: nat)
    requires CanonicalWithout(f, r) && r in f && f[r] >= k && FreeInside(f, live, n)
    ensures SplitSafe(f, live, n, r, k)
    ensures r in SplitDown(f, r, k) && SplitDown(f, r, k)[r] == k
    ensures CanonicalWithout(SplitDown(f, r, k), r) && SameCover(f, SplitDown(f, r, k))
    decreases f[r]
  {
    if f[r] > k {
      OneSplitEffect(f, live, n, r, SplitOnce(f, r));
      SplitDownEffect(SplitOnce(f, r), live, n, r, k);
    }
  }

  lemma OneSplitEffect(f: Blocks, live: Blocks, n: nat, r: nat, g: Blocks)
    requires CanonicalWithout(f, r) && r in f && f[r] > 0 && FreeInside(f, live, n) && g == SplitOnce(f, r)
    ensures var bud := r + Pow2(f[r] - 1); bud < n && bud !in f && bud !in live
    ensures CanonicalWithout(g, r) && SameCover(f, g) && FreeInside(g, live, n)
  {
    SplitKeepsTiles(f, r);
    SplitKeepsCanonicalWithout(f, r);
    UpperHalfCovered(f, r);
  }

  lemma UpperHalfCovered(f: Blocks, r: nat)
    requires r in f && f[r] > 0
    ensures Covered(f, r + Pow2(f[r] - 1))
  {
    assert Covers(f, r, r + Pow2(f[r] - 1));
  }

  lemma PoolInside(s: Pool, lo: nat, hi: nat, n: nat)
    requires Inv(s, lo, hi) && hi <= n
    ensures FreeInside(s.free, s.live, n)
    ensures forall p | p in s.live :: p !in s.free && p + Pow2(s.live[p]) <= n
  {
    forall i: nat | Covered(s.free, i)
      ensures i < n && i !in s.live
    {
      FreeIsComplement(s, lo, hi, i);
      assert i in s.live ==> Covers(s.live, i, i);
    }
    forall p | p in s.live
      ensures p !in s.free && p + Pow2(s.live[p]) <= n
    {
      var last := p + Pow2(s.live[p]) - 1;
      assert Covers(s.live, p, last);
      FreeIsComplement(s, lo, hi, last);
    }
  }

  /** The state after allocating the block at r, a free block of sufficient order. */
  ghost function AfterAlloc(s: Pool, r: nat, k: nat): (t: Pool)
    requires r in s.free
  {
    Pool(SplitDown(s.free, r, k) - {r}, s.live[r := k])
  }

  lemma AllocIsHanded(s: Pool, r: nat, k: nat, lo: nat, hi: nat, n: nat)
    requires Inv(s, lo, hi) && hi <= n && r in s.free && s.free[r] >= k
    ensures SplitSafe(s.free, s.live, n, r, k) && r !in s.live
    ensures r in SplitDown(s.free, r, k) && SplitDown(s.free, r, k)[r] == k
    ensures Handed(s, k, r, AfterAlloc(s, r, k)) && Inv(AfterAlloc(s, r, k), lo, hi)
  {
    PoolInside(s, lo, hi, n);
    CanonicalMinus(s.free, r);
    SplitDownEffect(s.free, s.live, n, r, k);
    var f := SplitDown(s.free, r, k);
    AllocCovers(s.free, f, r, k);
    HandedKeepsInv(s, k, r, AfterAlloc(s, r, k), lo, hi);
  }

  lemma AllocCovers(f: Blocks, g: Blocks, r: nat, k: nat)
    requires CanonicalWithout(g, r) && r in g && g[r] == k && SameCover(f, g)
    ensures RunCovered(f, r, k) && Canonical(g - {r})
    ensures forall i: nat :: Covered(g - {r}, i) <==> Covered(f, i) && !InRun(i, r, k)
  {
    RemoveSetAside(g, r);
    BlockCoversRun(g, r, r, k);
    forall i: nat
      ensures Covered(g - {r}, i) <==> Covered(f, i) && !InRun(i, r, k)
    {
      RemoveUncovers(g, r, i);
    }
  }

  // ---------------------------------------------------------------- release on block sets

  /** The merge loop, run with block (p, k) set aside and f free. */
  ghost function MergeUp(f: Blocks, p: nat, k: nat): (g: Blocks)
    decreases MAX_ORDER - k
  {
    if k < MAX_ORDER - 1 && FlipBit(p, k) in f && f[FlipBit(p, k)] == k
    then MergeUp(f - {FlipBit(p, k)}, ClearBit(p, k), k + 1)
    else f[p := k]
  }

  lemma {:induction false} MergeUpEffect(f: Blocks, p: nat, k: nat)
    requires Canonical(f) && k < MAX_ORDER && Aligned(p, k) && Clear(f, p, k)
    ensures Canonical(MergeUp(f, p, k))
    ensures forall i: nat :: Covered(MergeUp(f, p, k), i) <==> Covered(f, i) || InRun(i, p, k)
    decreases MAX_ORDER - k
  {
    if k < MAX_ORDER - 1 && FlipBit(p, k) in f && f[FlipBit(p, k)] == k {
      var b := FlipBit(p, k);
      AbsorbBuddy(f, p, k);
      MergeUpEffect(f - {b}, ClearBit(p, k), k + 1);
      forall i: nat
        ensures Covered(MergeUp(f, p, k), i) <==> Covered(f, i) || InRun(i, p, k)
      {
        RemoveUncovers(f, b, i);
        assert InRun(i, b, k) ==> Covers(f, b, i);
      }
    } else {
      InsertCanonical(f, p, k);
    }
  }

  ghost function AfterFree(s: Pool, r: nat): (t: Pool)
    requires r in s.live
  {
    Pool(MergeUp(s.free, r, s.live[r]), s.live - {r})
  }

  lemma FreeIsReturned(s: Pool, r: nat, lo: nat, hi: nat)
    requires Inv(s, lo, hi) && r in s.live
    ensures Returned(s, r, AfterFree(s, r)) && Inv(AfterFree(s, r), lo, hi)
  {
    LivePartDisjoint(s, lo, hi);
    forall i: nat | InRun(i, r, s.live[r])
      ensures !Covered(s.free, i)
    {
      assert Covers(s.live, r, i);
      FreeIsComplement(s, lo, hi, i);
    }
    RunClear(s.free, r, s.live[r]);
    MergeUpEffect(s.free, r, s.live[r]);
    ReturnedKeepsInv(s, r, AfterFree(s, r), lo, hi);
  }

  /** The source's assertion on the address freed: an `or` where both tests are meant. */
  predicate RangeTest(addr: nat, start: nat, end: nat) {
    addr >= start || addr < end
  }

  /** It fails only between an end and a start that have crossed; in a region it holds of every address. */
  lemma RangeTestFailsIff(addr: nat, start: nat, end: nat)
    ensures !RangeTest(addr, start, end) <==> end <= addr < start
    ensures start <= end ==> RangeTest(addr, start, end)
  {
  }

  /** Merging from a page that heads no block, with whatever order its status word holds, breaks the invariant. */
  lemma FreeNeedsLive(s: Pool, p: nat, k: nat, lo: nat, hi: nat)
    requires Inv(s, lo, hi) && p !in s.live && p !in s.free && k < MAX_ORDER
    ensures !Inv(Pool(MergeUp(s.free, p, k), s.live), lo, hi)
  {
    var t := Pool(MergeUp(s.free, p, k), s.live);
    if Inv(t, lo, hi) {
      HistoryIndependent(s, t, lo, hi);
      MergeUpChanges(s.free, p, k);
    }
  }

  lemma {:induction false} MergeUpInserts(f: Blocks, p: nat, k: nat, q: nat)
    requires q in MergeUp(f, p, k)
    ensures (q in f && MergeUp(f, p, k)[q] == f[q]) || MergeUp(f, p, k)[q] >= k
    decreases MAX_ORDER - k
  {
    if k < MAX_ORDER - 1 && FlipBit(p, k) in f && f[FlipBit(p, k)] == k {
      MergeUpInserts(f - {FlipBit(p, k)}, ClearBit(p, k), k + 1, q);
    }
  }

  lemma MergeUpChanges(f: Blocks, p: nat, k: nat)
    requires p !in f
    ensures MergeUp(f, p, k) != f
  {
    var b := FlipBit(p, k);
    if k < MAX_ORDER - 1 && b in f && f[b] == k {
      if b in MergeUp(f, p, k) {
        MergeUpInserts(f - {b}, ClearBit(p, k), k + 1, b);
      }
    }
  }

  // ---------------------------------------------------------------- runs

  /** One allocation by splitting some block that is large enough, or one release by merging. */
  ghost predicate Step(s: Pool, t: Pool) {
    || (exists r, k :: AllocStep(s, r, k, t))
    || (exists r :: FreeStep(s, r, t))
  }

  ghost predicate AllocStep(s: Pool, r: nat, k: nat, t: Pool) {
    r in s.free && k <= s.free[r] && t == AfterAlloc(s, r, k)
  }

  ghost predicate FreeStep(s: Pool, r: nat, t: Pool) {
    r in s.live && t == AfterFree(s, r)
  }

  ghost predicate IsRun(run: seq<Pool>) {
    |run| > 0 && forall i | 0 <= i < |run| - 1 :: Step(run[i], run[i + 1])
  }

  lemma StepKeepsInv(s: Pool, t: Pool, lo: nat, hi: nat)
    requires Inv(s, lo, hi) && Step(s, t)
    ensures Inv(t, lo, hi)
  {
    if r, k :| AllocStep(s, r, k, t) {
      AllocIsHanded(s, r, k, lo, hi, hi);
    } else {
      var r :| FreeStep(s, r, t);
      FreeIsReturned(s, r, lo, hi);
    }
  }

  /** The invariant holds in every state of every run of splits and merges. */
  lemma {:induction false} RunKeepsInv(run: seq<Pool>, lo: nat, hi: nat, i: nat)
    requires IsRun(run) && Inv(run[0], lo, hi) && i < |run|
    ensures Inv(run[i], lo, hi)
    decreases i
  {
    if i > 0 {
      RunKeepsInv(run, lo, hi, i - 1);
      assert Step(run[i - 1], run[i - 1 + 1]);
      StepKeepsInv(run[i - 1], run[i], lo, hi);
    }
  }

  /** Over any run that starts and ends with nothing live, the initial partition is back. */
  lemma DrainedRunRestoresInitial(run: seq<Pool>, lo: nat, hi: nat)
    requires IsRun(run) && Inv(run[0], lo, hi) && run[0].live == map[] && run[|run| - 1].live == map[]
    ensures run[|run| - 1] == run[0]
  {
    RunKeepsInv(run, lo, hi, |run| - 1);
    HistoryIndependent(run[0], run[|run| - 1], lo, hi);
  }

  /** A run from one state to another. */
  ghost predicate RunFrom(run: seq<Pool>, s: Pool, t: Pool) {
    IsRun(run) && run[0] == s && run[|run| - 1] == t
  }

  lemma RunOneMore(run: seq<Pool>, t: Pool)
    requires IsRun(run) && Step(run[|run| - 1], t)
    ensures IsRun(run + [t])
  {
    var more := run + [t];
    forall i | 0 <= i < |more| - 1
      ensures Step(more[i], more[i + 1])
    {
      if i < |run| - 1 {
        assert Step(run[i], run[i + 1]);
      }
    }
  }

  /** What clients ask for: a block of an order, or the release of one of the blocks they hold. */
  datatype Request = Take(order: nat) | Give(index: nat)

  /** The orders of the blocks held after a request. */
  function AfterRequest(orders: seq<nat>, r: Request): (after: seq<nat>) {
    match r
    case Take(order) => orders + [order]
    case Give(i) => if i < |orders| then orders[..i] + orders[i + 1..] else orders
  }

  /** The orders of the blocks the requests leave outstanding, in the order they were taken. */
  function Outstanding(requests: seq<Request>): (orders: seq<nat>)
    decreases |requests|
  {
    if requests == [] then [] else AfterRequest(Outstanding(requests[..|requests| - 1]), requests[|requests| - 1])
  }

  lemma OutstandingMore(requests: seq<Request>, k: nat)
    requires k < |requests|
    ensures Outstanding(requests[..k + 1]) == AfterRequest(Outstanding(requests[..k]), requests[k])
  {
    assert requests[..k + 1][..k] == requests[..k];
  }

  /** The blocks held are exactly the live ones, each once, with these orders. */
  ghost predicate Holding(live: Blocks, held: seq<nat>, orders: seq<nat>) {
    && Distinct(held) && (forall p :: p in held <==> p in live) && |held| == |orders|
    && forall i | 0 <= i < |held| :: held[i] in live && live[held[i]] == orders[i]
  }

  /** The requests that end in the assertion or the out-of-memory panic of buddy_alloc. */
  ghost predicate Panics(f: Blocks, r: Request) {
    r.Take? && (r.order >= MAX_ORDER || Exhausted(f, r.order))
  }

  // ---------------------------------------------------------------- the allocator object

  class BuddySystem {
    const nrPages: nat
    const status: array<Status>
    const lists: FreeLists

    /** The region managed, in page frame numbers: [lo, hi). */
    ghost const lo: nat
    ghost const hi: nat
    ghost var free: Blocks
    ghost var live: Blocks

    ghost function Repr(): set<object>
      reads this
    {
      {this, status, lists, lists.next, lists.prev}
    }

    ghost function State(): (s: Pool)
      reads this
    {
      Pool(free, live)
    }

    /** Lists, flags and block sets agree. */
    ghost predicate Agree()
      reads Repr()
    {
      && lists.Valid()
      && status.Length == lists.pageCount == nrPages
      && ListsAgree(lists.rings, free)
      && FlagsAgree(status[..], free)
      && LiveAgree(status[..], live)
    }

    ghost predicate Valid()
      reads Repr()
    {
      Agree() && hi <= nrPages && Inv(State(), lo, hi)
    }

    /**
     Zeroed page metadata with alloc = 3, empty lists, then the greedy partition of
     the page-rounded address range.
     */
    constructor (pages: nat, startAddr: nat, endAddr: nat)
      requires DRAM_BASE <= startAddr && DRAM_BASE <= endAddr <= PfnToAddr(pages)
      ensures Valid() && nrPages == pages && live == map[]
      ensures lo == AddrToPfn(RoundUp(startAddr, PGSIZE)) && hi == AddrToPfn(RoundDown(endAddr, PGSIZE))
      ensures fresh(Repr() - {this})
    {
      var first := RoundUp(startAddr, PGSIZE);
      var stop := RoundDown(endAddr, PGSIZE);
      nrPages := pages;
      status := new Status[pages](_ => Status(false, false, 0, 3));
      var l := new FreeLists(pages);
      lists := l;
      lo := AddrToPfn(first);
      hi := AddrToPfn(stop);
      free, live := map[], map[];
      new;
      Partition(first, stop);
      assert free + live == free;
    }

    /** The greedy loop over page-aligned addresses [first, stop). */
    method Partition(first: nat, stop: nat)
      requires Agree() && free == live == map[] && hi <= nrPages
      requires first == PfnToAddr(lo) && stop == PfnToAddr(hi)
      modifies this`free, status, lists`rings, lists.next, lists.prev
      ensures Agree() && GreedyState(free, lo, hi, hi)
    {
      var curr := first;
      ghost var cur: nat := lo;
      EmptyPartition(lo, hi);
      while curr < stop
        invariant curr == PfnToAddr(cur) && lo <= cur && (cur <= hi || GreedyState(free, lo, hi, hi))
        invariant Agree() && live == map[] && GreedyState(free, lo, cur, hi)
        decreases stop - curr
      {
        var order := ChooseOrder(curr, stop);
        var pfn := AddrToPfn(curr);
        ghost var f1 := free[pfn := order];
        ghost var next := cur + Pow2(order);
        assert pfn == cur && cur < hi && next <= hi;
        assert pfn !in free && GreedyState(f1, lo, next, hi) by {
          GreedyStep(free, lo, cur, hi, order);
        }
        status[pfn] := status[pfn].(order := order);
        AddFreeBlock(pfn, order);
        curr := curr + Pow2(order) * PGSIZE;
        cur := next;
      }
    }

    /** A page becomes the head of a free block: its flags are set and it is linked. */
    method AddFreeBlock(p: nat, order: nat)
      requires Agree() && p < nrPages && order < MAX_ORDER && p !in free && p !in live && status[p].order == order
      modifies this`free, status, lists`rings, lists.next, lists.prev
      ensures Agree() && free == old(free)[p := order]
      ensures lists.rings[order] != [] && lists.rings[order][0] == p
    {
      status[p] := status[p].(isFree := true, isHead := true, alloc := 0);
      LinkBlock(order, p, free);
      free := free[p := order];
    }

    /** __list_pop, read on block sets: the front block of list o leaves the lists. */
    method PopBlock(o: nat, ghost f: Blocks) returns (x: nat)
      requires lists.Valid() && ListsAgree(lists.rings, f) && o < MAX_ORDER && lists.rings[o] != []
      modifies lists`rings, lists.next, lists.prev
      ensures lists.Valid() && x == old(lists.rings[o])[0] && x in f && f[x] == o && x < lists.pageCount
      ensures ListsAgree(lists.rings, f - {x})
    {
      AgreeDel(lists.rings, f, lists.pageCount, o, 0);
      assert lists.rings[o][0] in lists.rings[o];
      assert Without(lists.rings[o], 0) == lists.rings[o][1..];
      x := lists.ListPop(o);
    }

    /** __list_del of a block found by its flags: it leaves the list of its order. */
    method UnlinkBlock(x: nat, ghost f: Blocks)
      requires lists.Valid() && ListsAgree(lists.rings, f) && x in f && f[x] < MAX_ORDER
      modifies lists`rings, lists.next, lists.prev
      ensures lists.Valid() && ListsAgree(lists.rings, f - {x})
    {
      ghost var o := f[x];
      assert x in lists.rings[o];
      ghost var j :| 0 <= j < |lists.rings[o]| && lists.rings[o][j] == x;
      AgreeDel(lists.rings, f, lists.pageCount, o, j);
      lists.ListDel(x, o, j);
    }

    /** __list_add behind a list head: the block joins the list of its order. */
    method LinkBlock(o: nat, x: nat, ghost f: Blocks)
      requires lists.Valid() && ListsAgree(lists.rings, f) && o < MAX_ORDER && x !in f && x < lists.pageCount
      modifies lists`rings, lists.next, lists.prev
      ensures lists.Valid() && ListsAgree(lists.rings, f[x := o])
      ensures lists.rings[o] != [] && lists.rings[o][0] == x
    {
      AgreeAdd(lists.rings, f, o, x);
      lists.ListAdd(o, x);
    }

    /** One turn of the split loop: the front block n of list i becomes its two halves. */
    method SplitTurn(i: nat, ghost n: nat)
      requires Agree() && 0 < i < MAX_ORDER && lists.rings[i] != [] && lists.rings[i][0] == n
      requires n in free && free[n] == i && n !in live
      requires n + Pow2(i - 1) < nrPages && n + Pow2(i - 1) !in free && n + Pow2(i - 1) !in live
      modifies this`free, status, lists`rings, lists.next, lists.prev
      ensures Agree() && free == SplitOnce(old(free), n)
      ensures lists.rings[i - 1] != [] && lists.rings[i - 1][0] == n
    {
      ghost var f0, st0 := free, status[..];
      ghost var st1 := st0[n + Pow2(i - 1) := Status(true, true, i - 1, 0)][n := st0[n].(order := i - 1)];
      ghost var g := SplitOnce(f0, n);
      FlagsSplit(st0, f0, live, n, i - 1, st1, g);
      SplitAsUpdates(f0, n);
      var p := PopBlock(i, f0);
      var bud := p + Pow2(i - 1);
      status[bud] := Status(true, true, i - 1, 0);
      LinkBlock(i - 1, bud, f0 - {p});
      status[p] := status[p].(order := i - 1);
      LinkBlock(i - 1, p, (f0 - {p})[bud := i - 1]);
      assert ListsAgree(lists.rings, g);
      free := g;
      assert status[..] == st1;
    }

    /** The split loop, from the front block r of list `big` down to list `target`. */
    method Split(big: nat, target: nat, ghost r: nat)
      requires Agree() && target <= big < MAX_ORDER && lists.rings[big] != [] && lists.rings[big][0] == r
      requires r in free && free[r] == big && r !in live && SplitSafe(free, live, nrPages, r, target)
      modifies this`free, status, lists`rings, lists.next, lists.prev
      ensures Agree() && free == SplitDown(old(free), r, target)
      ensures lists.rings[target] != [] && lists.rings[target][0] == r
    {
      var i := big;
      ghost var goal := SplitDown(free, r, target);
      while i > target
        invariant target <= i <= big && Agree() && lists.rings[i] != [] && lists.rings[i][0] == r
        invariant free in SplitStates(live, nrPages, r, i, target, goal)
      {
        SplitUnfolds(free, live, nrPages, r, i, target, goal);
        SplitTurn(i, r);
        i := i - 1;
      }
      SplitDone(free, live, nrPages, r, target, goal);
    }

    /**
     buddy_alloc: the first nonempty list at or above the order is found, its front
     block split down, and the block handed out is the front of the target list.
     The best-fitting order is used, and the out-of-memory branch is reached exactly
     when no free block is large enough.
     */
    method BuddyAlloc(order: nat) returns (res: AllocResult)
      requires Valid()
      modifies this`free, this`live, status, lists`rings, lists.next, lists.prev
      ensures Valid()
      ensures res.BadOrder? <==> order >= MAX_ORDER
      ensures res.OutOfMemory? <==> order < MAX_ORDER && Exhausted(old(free), order)
      ensures !res.Allocated? ==> State() == old(State())
      ensures res.Allocated? ==>
                exists r ::
                  && res.addr == PfnToAddr(r)
                  && r in old(free) && order <= old(free)[r]
                  && (forall p | p in old(free) && old(free)[p] >= order :: old(free)[r] <= old(free)[p])
                  && State() == AfterAlloc(old(State()), r, order)
                  && Handed(old(State()), order, r, State())
    {
      if order >= MAX_ORDER {
        return BadOrder;
      }
      var i := FirstNonempty(order);
      NoSmaller(lists.rings, free, order, i);
      if i == MAX_ORDER {
        return OutOfMemory;
      }
      ghost var r := lists.rings[i][0];
      AllocIsHanded(State(), r, order, lo, hi, nrPages);
      if i > order {
        Split(i, order, r);
      }
      var p := TakeFront(order, r);
      return Allocated(PfnToAddr(p));
    }

    /** The scan over the lists: the first nonempty one from `order` up. */
    method FirstNonempty(order: nat) returns (i: nat)
      requires lists.Valid() && order <= MAX_ORDER
      ensures order <= i <= MAX_ORDER && (i < MAX_ORDER ==> lists.rings[i] != [])
      ensures forall u | order <= u < i :: lists.rings[u] == []
    {
      i := order;
      while i < MAX_ORDER
        invariant order <= i <= MAX_ORDER && forall u | order <= u < i :: lists.rings[u] == []
      {
        var empty := lists.IsEmpty(i);
        if !empty {
          break;
        }
        i := i + 1;
      }
    }

    /** The front block of the list leaves it and is marked in use. */
    method TakeFront(order: nat, ghost r: nat) returns (p: nat)
      requires Agree() && order < MAX_ORDER && lists.rings[order] != [] && lists.rings[order][0] == r && r !in live
      modifies this`free, this`live, status, lists`rings, lists.next, lists.prev
      ensures Agree() && p == r && r in old(free) && old(free)[r] == order
      ensures free == old(free) - {r} && live == old(live)[r := order]
    {
      p := PopBlock(order, free);
      status[p] := status[p].(isFree := false, alloc := 1);
      free := free - {p};
      live := live[p := order];
    }

    /**
     __buddy_merge_inner: the block leaves the live set; while its buddy is free and
     whole, the buddy is unlinked and the pair becomes one block of the next order.
     */
    method MergeInner(p: nat)
      requires Valid() && nrPages % 1024 == 0 && p in live
      modifies this`free, this`live, status, lists`rings, lists.next, lists.prev
      ensures Valid() && State() == AfterFree(old(State()), p) && Returned(old(State()), p, State())
    {
      PoolInside(State(), lo, hi, nrPages);
      FreeIsReturned(State(), p, lo, hi);
      LivePartDisjoint(State(), lo, hi);
      var order := status[p].order;
      status[p] := status[p].(isFree := false, isHead := false, alloc := 0);
      live := live - {p};
      MergeLoop(p, order);
    }

    /** The merge loop for the block (p, k), set aside, and the final insertion. */
    method MergeLoop(p: nat, k: nat)
      requires Agree() && nrPages % 1024 == 0 && free.Keys !! live.Keys
      requires k < MAX_ORDER && Aligned(p, k) && p + Pow2(k) <= nrPages && p !in free && p !in live && status[p].order == k
      modifies this`free, status, lists`rings, lists.next, lists.prev
      ensures Agree() && free == MergeUp(old(free), p, k)
    {
      var pfn: nat, order: nat, more := p, k, true;
      while more && order < MAX_ORDER - 1
        invariant Agree() && free.Keys !! live.Keys
        invariant order < MAX_ORDER && Aligned(pfn, order) && pfn + Pow2(order) <= nrPages
        invariant pfn !in live && pfn !in free && MergeUp(free, pfn, order) == MergeUp(old(free), p, k)
        invariant status[pfn].order == order
        invariant more || MergeUp(free, pfn, order) == free[pfn := order]
        decreases MAX_ORDER - order, more
      {
        more, pfn, order := MergeTurn(pfn, order);
      }
      AddFreeBlock(pfn, order);
    }

    /** One turn of the merge loop: the buddy is absorbed if its flags allow it. */
    method MergeTurn(p: nat, k: nat) returns (merged: bool, pfn: nat, order: nat)
      requires Agree() && nrPages % 1024 == 0 && free.Keys !! live.Keys
      requires k < MAX_ORDER - 1 && Aligned(p, k) && p + Pow2(k) <= nrPages && p !in free && p !in live && status[p].order == k
      modifies this`free, status, lists`rings, lists.next, lists.prev
      ensures Agree() && free.Keys !! live.Keys
      ensures merged <==> FlipBit(p, k) in old(free) && old(free)[FlipBit(p, k)] == k
      ensures merged ==> pfn == ClearBit(p, k) && order == k + 1 && free == old(free) - {FlipBit(p, k)}
      ensures !merged ==> pfn == p && order == k && free == old(free)
      ensures Aligned(pfn, order) && pfn + Pow2(order) <= nrPages && pfn !in live && pfn !in free
      ensures status[pfn].order == order
    {
      var buddy := FlipBit(p, k);
      BuddyInBounds(nrPages, p, k);
      if status[buddy].order != k || !status[buddy].isFree || !status[buddy].isHead {
        return false, p, k;
      }
      BuddyPair(p, k);
      DropFree(buddy);
      merged, pfn, order := true, ClearBit(p, k), k + 1;
      status[pfn] := status[pfn].(order := order);
    }

    /** A free block found by its flags is unlinked and its flags cleared. */
    method DropFree(x: nat)
      requires Agree() && x in free && x !in live && free[x] < MAX_ORDER
      modifies this`free, status, lists`rings, lists.next, lists.prev
      ensures Agree() && free == old(free) - {x}
    {
      UnlinkBlock(x, free);
      status[x] := status[x].(isFree := false, isHead := false);
      free := free - {x};
    }

    /**
     buddy_free.  The assertion of the source does not protect the allocator
     (RangeTestFailsIff); what does is that the caller frees a live block.  Any other page
     breaks the invariant (FreeNeedsLive), or, if it heads a free block, its list
     (DoubleLinkBreaksRing).  The buddy index stays in pages[] when their number is a
     multiple of 1024.
     */
    method BuddyFree(addr: nat)
      requires Valid() && nrPages % 1024 == 0 && addr >= DRAM_BASE && AddrToPfn(addr) in live
      modifies this`free, this`live, status, lists`rings, lists.next, lists.prev
      ensures Valid() && State() == AfterFree(old(State()), AddrToPfn(addr))
      ensures Returned(old(State()), AddrToPfn(addr), State())
    {
      MergeInner(AddrToPfn(addr));
    }

    /** Allocating and at once freeing puts every free block back as it was. */
    method AllocThenFree(order: nat) returns (res: AllocResult)
      requires Valid() && nrPages % 1024 == 0
      modifies this`free, this`live, status, lists`rings, lists.next, lists.prev
      ensures Valid() && State() == old(State())
    {
      ghost var s := State();
      res := BuddyAlloc(order);
      if res.Allocated? {
        ghost var r :| res.addr == PfnToAddr(r) && Handed(s, order, r, State());
        FreeBack(res.addr, s, order, r);
      }
    }

    /**
     Any sequence of requests, up to the first that panics.  The states passed through are a run
     of splits and merges, the blocks held are exactly the live ones, and once all are released
     the allocator is as it was.
     */
    method Run(requests: seq<Request>) returns (held: seq<nat>, done: nat, ghost run: seq<Pool>)
      requires Valid() && nrPages % 1024 == 0 && live == map[]
      modifies this`free, this`live, status, lists`rings, lists.next, lists.prev
      ensures Valid() && RunFrom(run, old(State()), State())
      ensures done <= |requests| && (done < |requests| ==> Panics(free, requests[done]))
      ensures Holding(live, held, Outstanding(requests[..done]))
      ensures held == [] ==> State() == old(State())
    {
      held, done, run := [], 0, [State()];
      ghost var orders: seq<nat> := [];
      var ok := true;
      while done < |requests| && ok
        invariant done <= |requests| && Valid() && Holding(live, held, orders) && orders == Outstanding(requests[..done])
        invariant RunFrom(run, old(State()), State())
        invariant !ok ==> done < |requests| && Panics(free, requests[done])
        decreases |requests| - done, if ok then 1 else 0
      {
        ok, held, run := Serve(requests[done], held, orders, run);
        if ok {
          OutstandingMore(requests, done);
          orders, done := AfterRequest(orders, requests[done]), done + 1;
        }
      }
      RunEnds(run, held, orders, lo, hi);
    }

    /** One request: a block taken goes to the end of those held, and block i given back leaves them. */
    method Serve(request: Request, held: seq<nat>, ghost orders: seq<nat>, ghost run: seq<Pool>)
      returns (ok: bool, now: seq<nat>, ghost more: seq<Pool>)
      requires Valid() && nrPages % 1024 == 0 && Holding(live, held, orders) && run != [] && RunFrom(run, run[0], State())
      modifies this`free, this`live, status, lists`rings, lists.next, lists.prev
      ensures Valid() && RunFrom(more, run[0], State())
      ensures if ok then Holding(live, now, AfterRequest(orders, request))
              else now == held && State() == old(State()) && Panics(free, request)
    {
      ok, now, more := true, held, run;
      match request {
        case Take(order) =>
          var p;
          ok, p := TakeBlock(order, run);
          if ok {
            HoldsMore(old(live), held, orders, p, order);
            now := held + [p];
            more := run + [State()];
          }
        case Give(i) =>
          if i < |held| {
            HoldsLess(live, held, orders, i);
            GiveBlock(held[i], run);
            now := held[..i] + held[i + 1..];
            more := run + [State()];
          }
      }
    }

    method TakeBlock(order: nat, ghost run: seq<Pool>) returns (ok: bool, p: nat)
      requires Valid() && IsRun(run) && run[|run| - 1] == State()
      modifies this`free, this`live, status, lists`rings, lists.next, lists.prev
      ensures Valid() && (ok ==> p !in old(live) && live == old(live)[p := order] && IsRun(run + [State()]))
      ensures !ok ==> State() == old(State()) && (order >= MAX_ORDER || Exhausted(free, order))
    {
      ghost var s := State();
      var res := BuddyAlloc(order);
      if !res.Allocated? {
        return false, 0;
      }
      ghost var r :| res.addr == PfnToAddr(r) && r in s.free && order <= s.free[r] && State() == AfterAlloc(s, r, order);
      AllocIsHanded(s, r, order, lo, hi, nrPages);
      PfnRoundTrip(r);
      assert AllocStep(s, r, order, State());
      RunOneMore(run, State());
      ok, p := true, AddrToPfn(res.addr);
    }

    method GiveBlock(p: nat, ghost run: seq<Pool>)
      requires Valid() && nrPages % 1024 == 0 && p in live && IsRun(run) && run[|run| - 1] == State()
      modifies this`free, this`live, status, lists`rings, lists.next, lists.prev
      ensures Valid() && live == old(live) - {p} && IsRun(run + [State()])
    {
      ghost var s := State();
      PfnRoundTrip(p);
      BuddyFree(PfnToAddr(p));
      assert FreeStep(s, p, State());
      RunOneMore(run, State());
    }

    method FreeBack(addr: nat, ghost s: Pool, ghost order: nat, ghost r: nat)
      requires Valid() && nrPages % 1024 == 0
      requires Inv(s, lo, hi) && Handed(s, order, r, State()) && addr == PfnToAddr(r)
      modifies this`free, this`live, status, lists`rings, lists.next, lists.prev
      ensures Valid() && State() == s
    {
      ghost var t := State();
      PfnRoundTrip(r);
      assert r in t.live;
      BuddyFree(addr);
      HandThenReturn(s, order, r, t, State(), lo, hi);
    }
  }

  /** A page-aligned address is the address of its page frame number. */
  lemma PageRounding(a: nat)
    requires a >= DRAM_BASE && a % PGSIZE == 0
    ensures PfnToAddr(AddrToPfn(a)) == a && RoundUp(a, PGSIZE) == RoundDown(a, PGSIZE) == a
  {
  }

  /** The end of memory, rounded down to a page, is the address of the page after the last. */
  lemma WholePages(size: nat)
    ensures RoundDown(size + DRAM_BASE, PGSIZE) == PfnToAddr(size / PGSIZE)
  {
    assert (size + DRAM_BASE) / PGSIZE == size / PGSIZE + DRAM_BASE / PGSIZE;
  }

  lemma LayoutFits(kernelEnd: nat, size: nat, start: nat, end: nat)
    requires kernelEnd >= DRAM_BASE
    requires start == RoundUp(size / PGSIZE * PAGE_T_SIZE + RoundUp(kernelEnd, 8), PGSIZE)
    requires end == RoundDown(size + DRAM_BASE, PGSIZE)
    ensures DRAM_BASE <= start && DRAM_BASE <= end == PfnToAddr(size / PGSIZE)
    ensures kernelEnd + size / PGSIZE * PAGE_T_SIZE <= PfnToAddr(AddrToPfn(RoundUp(start, PGSIZE)))
    ensures AddrToPfn(RoundDown(end, PGSIZE)) == size / PGSIZE
  {
    WholePages(size);
    PageRounding(start);
    PageRounding(PfnToAddr(size / PGSIZE));
    PfnRoundTrip(size / PGSIZE);
  }

  /**
   pmm_init up to the caches: the memory size is capped, the page metadata follows
   the kernel image, and the allocator manages what is left.  Nothing it manages
   overlaps the kernel or the metadata.
   */
  method PmmInit(kernelEnd: nat, memSize: nat) returns (b: BuddySystem?)
    requires kernelEnd >= DRAM_BASE
    ensures b == null <==> memSize < kernelEnd - DRAM_BASE || PKE_MAX_ALLOWABLE_RAM < kernelEnd - DRAM_BASE
    ensures b != null ==> b.Valid() && fresh(b) && fresh(b.Repr()) && b.live == map[]
    ensures b != null ==> b.hi == b.nrPages == Min(memSize, PKE_MAX_ALLOWABLE_RAM) / PGSIZE
    ensures b != null ==> kernelEnd + b.nrPages * PAGE_T_SIZE <= PfnToAddr(b.lo)
    ensures b != null ==> forall i: nat ::
              Covered(b.free, i) <==> i < b.nrPages && MetadataEnd(kernelEnd, b.nrPages) <= PfnToAddr(i)
    ensures b != null ==> forall i: nat ::
              b.lo <= i < b.hi <==> i < b.nrPages && MetadataEnd(kernelEnd, b.nrPages) <= PfnToAddr(i)
  {
    var size := Min(PKE_MAX_ALLOWABLE_RAM, memSize);
    if size < kernelEnd - DRAM_BASE {
      return null;
    }
    var pages := RoundUp(kernelEnd, 8);
    var nrPages := size / PGSIZE;
    var buddyStart := RoundUp(nrPages * PAGE_T_SIZE + pages, PGSIZE);
    var buddyEnd := RoundDown(size + DRAM_BASE, PGSIZE);
    LayoutFits(kernelEnd, size, buddyStart, buddyEnd);
    b := new BuddySystem(nrPages, buddyStart, buddyEnd);
    forall i: nat
      ensures Covered(b.free, i) <==> b.lo <= i < b.hi
      ensures b.lo <= i < b.hi <==> i < nrPages && MetadataEnd(kernelEnd, nrPages) <= PfnToAddr(i)
    {
      FreeIsComplement(b.State(), b.lo, b.hi, i);
      NothingWasted(kernelEnd, nrPages, buddyStart, i);
    }
  }

  /** Where the page metadata end: they follow the kernel from the next multiple of 8 on. */
  ghost function MetadataEnd(kernelEnd: nat, pages: nat): (e: nat)
    ensures kernelEnd + pages * PAGE_T_SIZE <= e < kernelEnd + 8 + pages * PAGE_T_SIZE
    ensures (e - pages * PAGE_T_SIZE) % 8 == 0
  {
    pages * PAGE_T_SIZE + RoundUp(kernelEnd, 8)
  }

  /** The managed region starts at the very first page that lies wholly behind the metadata. */
  lemma NothingWasted(kernelEnd: nat, pages: nat, start: nat, i: nat)
    requires kernelEnd >= DRAM_BASE && start == RoundUp(pages * PAGE_T_SIZE + RoundUp(kernelEnd, 8), PGSIZE)
    ensures start >= DRAM_BASE && start % PGSIZE == 0
    ensures AddrToPfn(RoundUp(start, PGSIZE)) <= i <==> MetadataEnd(kernelEnd, pages) <= PfnToAddr(i)
  {
    PageRounding(start);
    FirstPage(MetadataEnd(kernelEnd, pages), start, i);
  }

  lemma FirstPage(e: nat, start: nat, i: nat)
    requires DRAM_BASE <= e <= start < e + PGSIZE && start % PGSIZE == 0
    ensures AddrToPfn(start) <= i <==> e <= PfnToAddr(i)
  {
  }

  /** alloc_page as pmm_init calls it: one order-0 page becomes live. */
  method TakePage(b: BuddySystem) returns (ok: bool, page: nat)
    requires b.Valid()
    modifies b, b.status, b.lists, b.lists.next, b.lists.prev
    ensures b.Valid()
    ensures ok ==> page !in old(b.live) && b.live == old(b.live)[page := 0]
    ensures !ok ==> b.State() == old(b.State()) && Exhausted(b.free, 0)
  {
    ghost var s := b.State();
    var res := b.BuddyAlloc(0);
    if !res.Allocated? {
      return false, 0;
    }
    ghost var r :| res.addr == PfnToAddr(r) && Handed(s, 0, r, b.State());
    PfnRoundTrip(r);
    page := AddrToPfn(res.addr);
    HandedKeepsInv(s, 0, r, b.State(), b.lo, b.hi);
    ok := true;
  }

  lemma PfnRoundTrip(r: nat)
    ensures PfnToAddr(r) >= DRAM_BASE && AddrToPfn(PfnToAddr(r)) == r
  {
  }

  /**
   pmm_init's cache fill: n order-0 pages taken one by one.  They are distinct, and
   they are exactly what became live; a shortage is the allocator's panic.
   */
  method FillCache(b: BuddySystem, n: nat) returns (pages: seq<nat>, full: bool)
    requires b.Valid()
    modifies b, b.status, b.lists, b.lists.next, b.lists.prev
    ensures b.Valid() && full == (|pages| == n)
    ensures Distinct(pages) && (forall p | p in pages :: p !in old(b.live) && p in b.live && b.live[p] == 0)
    ensures b.live.Keys == old(b.live.Keys) + set p | p in pages
    ensures forall p | p in old(b.live) :: b.live[p] == old(b.live[p])
    ensures !full ==> Exhausted(b.free, 0)
  {
    pages, full := [], true;
    while |pages| < n
      invariant b.Valid() && full && |pages| <= n && Distinct(pages)
      invariant forall p | p in pages :: p !in old(b.live) && p in b.live && b.live[p] == 0
      invariant b.live.Keys == old(b.live.Keys) + set p | p in pages
      invariant forall p | p in old(b.live) :: b.live[p] == old(b.live[p])
      decreases n - |pages|
    {
      var ok, page := TakePage(b);
      if !ok {
        return pages, false;
      }
      pages := pages + [page];
    }
  }

  lemma HoldsMore(live: Blocks, held: seq<nat>, orders: seq<nat>, p: nat, order: nat)
    requires Holding(live, held, orders) && p !in live
    ensures Holding(live[p := order], held + [p], orders + [order])
  {
  }

  lemma HoldsLess(live: Blocks, held: seq<nat>, orders: seq<nat>, i: nat)
    requires Holding(live, held, orders) && i < |held|
    ensures held[i] in live && Holding(live - {held[i]}, held[..i] + held[i + 1..], orders[..i] + orders[i + 1..])
  {
    WithoutMember(held, i);
    var left, kept := held[..i] + held[i + 1..], orders[..i] + orders[i + 1..];
    forall j | 0 <= j < |left|
      ensures left[j] in live && left[j] != held[i] && live[left[j]] == kept[j]
    {
      assert left[j] in left;
      assert left[j] == held[if j < i then j else j + 1];
    }
  }

  /** With nothing held at the end, the run has come back to where it began. */
  lemma RunEnds(run: seq<Pool>, held: seq<nat>, orders: seq<nat>, lo: nat, hi: nat)
    requires IsRun(run) && Inv(run[0], lo, hi) && run[0].live == map[] && Holding(run[|run| - 1].live, held, orders)
    ensures held == [] ==> run[|run| - 1] == run[0]
  {
    if held == [] {
      var live := run[|run| - 1].live;
      assert forall p :: p in live <==> p in held;
      assert live == map[];
      DrainedRunRestoresInitial(run, lo, hi);
    }
  }

  lemma WithoutMember(s: seq<nat>, j: nat)
    requires Distinct(s) && j < |s|
    ensures Distinct(s[..j] + s[j + 1..])
    ensures forall x :: x in s[..j] + s[j + 1..] <==> x in s && x != s[j]
  {
    forall x | x in s && x != s[j]
      ensures x in s[..j] + s[j + 1..]
    {
      var i :| 0 <= i < |s| && s[i] == x;
      assert (s[..j] + s[j + 1..])[if i < j then i else i - 1] == x;
    }
  }

  /** Lists below i empty: no free block has an order in [order, i). */
  lemma NoSmaller(rings: seq<seq<nat>>, f: Blocks, order: nat, i: nat)
    requires ListsAgree(rings, f) && WellAligned(f) && order <= i <= MAX_ORDER
    requires forall u | order <= u < i :: rings[u] == []
    ensures forall p | p in f && f[p] >= order :: f[p] >= i
    ensures i < MAX_ORDER && rings[i] != [] ==> rings[i][0] in f && f[rings[i][0]] == i
  {
    forall p | p in f && f[p] >= order
      ensures f[p] >= i
    {
      assert p in rings[f[p]];
    }
    assert i < MAX_ORDER && rings[i] != [] ==> rings[i][0] in rings[i];
  }

  lemma SplitAsUpdates(f: Blocks, p: nat)
    requires p in f && f[p] > 0
    ensures (f - {p})[p + Pow2(f[p] - 1) := f[p] - 1][p := f[p] - 1] == SplitOnce(f, p)
  {
  }
}
