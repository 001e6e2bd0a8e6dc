/**
 Any number of harts running alloc_page, buddy_alloc, buddy_free and pfree (kernel/pmm.c)
 over one buddy allocator, its spin lock (kernel/sync_utils.c) and one page cache
 per hart, as a state machine whose steps are the atomic accesses of the code: the
 read of the lock word, the swap, one turn of the split or merge loop, one cache
 slot moved, the release.
 */
module BuddyHarts {
  import opened PowersOfTwo
  import opened BlockTiling
  import opened BuddyPool
  import opened PageCaches

  /** What a hart wants the lock for. */
  datatype Task =
    | Refill(left: nat)              // alloc_page with an empty cache: pages still to fetch
    | Grab(order: nat)               // buddy_alloc
    | Flush(left: nat, page: nat)    // pfree with a full cache: pages still to merge, page to cache then
    | GiveBack(block: nat)           // pfree of a block of order above 0, or buddy_free
    | Finish                         // nothing left but to release
    | Fail                           // out of memory: release, then panic

  datatype Call = AllocPage | BuddyAlloc(order: nat) | Pfree(block: nat) | BuddyFree(block: nat)

  datatype Pc =
    | Idle
    | Spin(task: Task)                          // lock_acquire: about to read the lock word
    | Swap(task: Task)                          // the word was 0: about to swap in 1
    | Locked(task: Task)                        // inside the lock
    | Splitting(task: Task, block: nat)         // inside the split loop for a free block
    | Merging(task: Task, block: nat, order: nat)  // inside the merge loop with a block set aside
    | Retail                                    // refilled: about to pop the page to return
    | Stash(page: nat)                          // flushed: about to push the page freed
    | Halted                                    // panicked

  /** Live cache slots objs[0..count) of each hart, the pool, the lock word, the clients' blocks. */
  datatype State = State(lock: nat, pool: Pool, caches: seq<seq<nat>>, held: set<nat>, pcs: seq<Pc>)

  predicate Critical(pc: Pc) {
    pc.Locked? || pc.Splitting? || pc.Merging?
  }

  // ---------------------------------------------------------------- where a live block is

  datatype Place = Hand(block: nat) | Slot(hart: nat, index: nat) | Flight(hart: nat)

  ghost predicate TaskCarries(t: Task, p: nat) {
    (t.Flush? && t.page == p) || (t.GiveBack? && t.block == p)
  }

  ghost predicate Carries(pc: Pc, p: nat) {
    match pc
    case Spin(t) => TaskCarries(t, p)
    case Swap(t) => TaskCarries(t, p)
    case Locked(t) => TaskCarries(t, p)
    case Splitting(t, _) => TaskCarries(t, p)
    case Merging(t, _, _) => TaskCarries(t, p)
    case Stash(page) => page == p
    case _ => false
  }

  ghost predicate At(s: State, pl: Place, p: nat) {
    match pl
    case Hand(b) => b == p && p in s.held
    case Slot(h, i) => h < |s.caches| && i < |s.caches[h]| && s.caches[h][i] == p
    case Flight(h) => h < |s.pcs| && Carries(s.pcs[h], p)
  }

  // ---------------------------------------------------------------- steps

  ghost function WithPc(s: State, h: nat, pc: Pc): (t: State)
    requires h < |s.pcs|
  {
    s.(pcs := s.pcs[h := pc])
  }

  ghost function WithCache(s: State, h: nat, c: seq<nat>): (t: State)
    requires h < |s.caches|
  {
    s.(caches := s.caches[h := c])
  }

  function Target(t: Task): (k: nat) {
    if t.Grab? then t.order else 0
  }

  /** A free block of the smallest sufficient order: what the scan over the lists finds. */
  ghost predicate BestFit(f: Blocks, k: nat, r: nat) {
    r in f && f[r] >= k && forall p | p in f && f[p] >= k :: f[r] <= f[p]
  }

  ghost predicate Mergeable(f: Blocks, p: nat, k: nat) {
    k < MAX_ORDER - 1 && FlipBit(p, k) in f && f[FlipBit(p, k)] == k
  }

  /** A call is entered: alone on its own cache where the cache suffices, else on the way to the lock. */
  ghost predicate Begins(s: State, h: nat, call: Call, t: State)
    requires h < |s.pcs| == |s.caches|
  {
    var c := s.caches[h];
    match call
    case AllocPage =>
      if c == [] then t == WithPc(s, h, Spin(Refill(BATCH)))
      else t == WithCache(s, h, c[..|c| - 1]).(held := s.held + {c[|c| - 1]})
    case BuddyAlloc(k) => t == WithPc(s, h, if k < MAX_ORDER then Spin(Grab(k)) else Halted)
    case Pfree(p) => p in s.held && p in s.pool.live && FreeStep(s, h, p, t)
    case BuddyFree(p) => p in s.held && p in s.pool.live && BuddyFreeStep(s, h, p, t)
  }

  /** buddy_free of a block of any order: never through the cache. */
  ghost predicate BuddyFreeStep(s: State, h: nat, p: nat, t: State)
    requires h < |s.pcs|
  {
    t == WithPc(s, h, Spin(GiveBack(p))).(held := s.held - {p})
  }

  /** pfree of a block a client holds. */
  ghost predicate FreeStep(s: State, h: nat, p: nat, t: State)
    requires h < |s.pcs| == |s.caches| && p in s.pool.live
  {
    var s' := s.(held := s.held - {p});
    if s.pool.live[p] != 0 then t == WithPc(s', h, Spin(GiveBack(p)))
    else if |s.caches[h]| == CACHE_SIZE then t == WithPc(s', h, Spin(Flush(BATCH, p)))
    else t == WithCache(s', h, s.caches[h] + [p])
  }

  ghost predicate LockedStep(s: State, h: nat, task: Task, t: State)
    requires h < |s.pcs| == |s.caches|
  {
    var c := s.caches[h];
    match task
    case Refill(n) =>
      if n == 0 then t == WithPc(s, h, Retail).(lock := 0) else FindStep(s, h, task, t)
    case Grab(_) => FindStep(s, h, task, t)
    case Flush(n, p) =>
      if n == 0 then t == WithPc(s, h, Stash(p)).(lock := 0)
      else
        && c != []
        && var q := c[|c| - 1];
           t == WithPc(WithCache(s, h, c[..|c| - 1]), h, Merging(Flush(n - 1, p), q, 0))
                .(pool := Pool(s.pool.free, s.pool.live - {q}))
    case GiveBack(p) =>
      && p in s.pool.live
      && t == WithPc(s, h, Merging(Finish, p, s.pool.live[p])).(pool := Pool(s.pool.free, s.pool.live - {p}))
    case Finish => t == WithPc(s, h, Idle).(lock := 0)
    case Fail => t == WithPc(s, h, Halted).(lock := 0)
  }

  ghost predicate FindStep(s: State, h: nat, task: Task, t: State)
    requires h < |s.pcs|
  {
    if Exhausted(s.pool.free, Target(task)) then t == WithPc(s, h, Locked(Fail))
    else exists r :: BestFit(s.pool.free, Target(task), r) && t == WithPc(s, h, Splitting(task, r))
  }

  ghost predicate SplitStep(s: State, h: nat, task: Task, r: nat, t: State)
    requires h < |s.pcs| == |s.caches|
  {
    var f := s.pool.free;
    && r in f
    && if f[r] > Target(task) then t == s.(pool := s.pool.(free := SplitOnce(f, r)))
       else
         var s' := s.(pool := Pool(f - {r}, s.pool.live[r := Target(task)]));
         if task.Refill? && task.left > 0 then
           t == WithPc(WithCache(s', h, s.caches[h] + [r]), h, Locked(Refill(task.left - 1)))
         else t == WithPc(s', h, Locked(Finish)).(held := s.held + {r})
  }

  ghost predicate MergeStep(s: State, h: nat, task: Task, p: nat, k: nat, t: State)
    requires h < |s.pcs|
  {
    var f := s.pool.free;
    if Mergeable(f, p, k)
    then t == WithPc(s, h, Merging(task, ClearBit(p, k), k + 1)).(pool := s.pool.(free := f - {FlipBit(p, k)}))
    else t == WithPc(s, h, Locked(task)).(pool := s.pool.(free := f[p := k]))
  }

  /** One atomic step of hart h. */
  ghost predicate HartStep(s: State, h: nat, t: State)
    requires h < |s.pcs| == |s.caches|
  {
    var c := s.caches[h];
    match s.pcs[h]
    case Idle => exists call :: Begins(s, h, call, t)
    case Spin(task) => t == if s.lock == 0 then WithPc(s, h, Swap(task)) else s
    case Swap(task) => t == WithPc(s, h, if s.lock == 0 then Locked(task) else Spin(task)).(lock := 1)
    case Locked(task) => LockedStep(s, h, task, t)
    case Splitting(task, r) => SplitStep(s, h, task, r, t)
    case Merging(task, p, k) => MergeStep(s, h, task, p, k, t)
    case Retail => c != [] && t == WithPc(WithCache(s, h, c[..|c| - 1]), h, Idle).(held := s.held + {c[|c| - 1]})
    case Stash(p) => t == WithPc(WithCache(s, h, c + [p]), h, Idle)
    case Halted => false
  }

  // ---------------------------------------------------------------- the invariant

  /** The pool while hart pc is inside the lock: one block is being split or is set aside. */
  ghost predicate PoolAt(pool: Pool, pc: Pc, lo: nat, hi: nat) {
    match pc
    case Splitting(task, r) =>
      r in pool.free && pool.free[r] >= Target(task) && pool.free.Keys !! pool.live.Keys &&
      CanonicalWithout(pool.free, r) && Tiling(pool.free + pool.live, lo, hi)
    case Merging(_, p, k) => p !in pool.live && Inv(Pool(pool.free, pool.live[p := k]), lo, hi)
    case _ => Inv(pool, lo, hi)
  }

  ghost predicate TaskFits(task: Task, count: nat) {
    match task
    case Refill(n) => n + count == BATCH
    case Flush(n, _) => n <= BATCH && count == CACHE_SIZE - BATCH + n
    case _ => true
  }

  /** Counter, remaining work and cache fill agree at every program point. */
  ghost predicate PcFits(pc: Pc, count: nat) {
    match pc
    case Idle => true
    case Spin(t) => TaskFits(t, count) && (t.Refill? ==> t.left == BATCH) && !t.Finish? && !t.Fail?
    case Swap(t) => TaskFits(t, count) && (t.Refill? ==> t.left == BATCH) && !t.Finish? && !t.Fail?
    case Locked(t) => TaskFits(t, count)
    case Splitting(t, _) => TaskFits(t, count) && (t.Grab? || (t.Refill? && t.left > 0))
    case Merging(t, _, _) => TaskFits(t, count) && (t.Finish? || (t.Flush? && t.left < BATCH))
    case Retail => count == BATCH
    case Stash(_) => count == CACHE_SIZE - BATCH
    case Halted => true
  }

  /** Order-0 blocks only, in caches and on the way to one. */
  ghost predicate OnePage(s: State, pl: Place, p: nat) {
    (pl.Slot? || (pl.Flight? && pl.hart < |s.pcs| && !(TaskOf(s.pcs[pl.hart]).GiveBack?))) ==>
      p in s.pool.live && s.pool.live[p] == 0
  }

  ghost function TaskOf(pc: Pc): (t: Task) {
    if pc.Spin? || pc.Swap? || pc.Locked? || pc.Splitting? || pc.Merging? then pc.task else Finish
  }

  ghost predicate Owned(s: State) {
    && (forall pl, p :: At(s, pl, p) ==> p in s.pool.live && OnePage(s, pl, p))
    && (forall p | p in s.pool.live :: exists pl :: At(s, pl, p))
    && (forall p, pl, pm :: At(s, pl, p) && At(s, pm, p) ==> pl == pm)
  }

  ghost predicate Exclusive(s: State) {
    && (s.lock == 0 || s.lock == 1)
    && (forall h, g | 0 <= h < |s.pcs| && 0 <= g < |s.pcs| && Critical(s.pcs[h]) && Critical(s.pcs[g]) :: h == g)
    && (s.lock == 0 ==> forall h | 0 <= h < |s.pcs| :: !Critical(s.pcs[h]))
    && (s.lock == 1 ==> exists h :: 0 <= h < |s.pcs| && Critical(s.pcs[h]))
  }

  ghost predicate PoolOk(s: State, lo: nat, hi: nat) {
    && (s.lock == 0 ==> Inv(s.pool, lo, hi))
    && (forall h | 0 <= h < |s.pcs| && Critical(s.pcs[h]) :: PoolAt(s.pool, s.pcs[h], lo, hi))
  }

  ghost predicate CachesOk(s: State)
    requires |s.pcs| == |s.caches|
  {
    forall h | 0 <= h < |s.pcs| :: |s.caches[h]| <= CACHE_SIZE && PcFits(s.pcs[h], |s.caches[h]|)
  }

  /** The invariant of the machine. */
  ghost predicate GoodState(s: State, lo: nat, hi: nat) {
    |s.pcs| == |s.caches| && Exclusive(s) && PoolOk(s, lo, hi) && CachesOk(s) && Owned(s)
  }

  // ---------------------------------------------------------------- mutual exclusion

  lemma ExclusiveKept(s: State, h: nat, pc: Pc, t: State)
    requires Exclusive(s) && h < |s.pcs| && t.pcs == s.pcs[h := pc]
    requires || (t.lock == s.lock && (Critical(pc) <==> Critical(s.pcs[h])))
             || (s.lock == 0 && t.lock == 1 && Critical(pc))
             || (Critical(s.pcs[h]) && !Critical(pc) && t.lock == 0)
    ensures Exclusive(t)
  {
    if t.lock == 1 {
      if s.lock == 1 {
        var g :| 0 <= g < |s.pcs| && Critical(s.pcs[g]);
        assert Critical(t.pcs[g]);
      } else {
        assert Critical(t.pcs[h]);
      }
    }
  }

  // ---------------------------------------------------------------- ownership

  /** Block q moves from the places `from` to the places `to` (each at most one place). */
  ghost predicate Moved(s: State, t: State, from: set<Place>, to: set<Place>, q: nat) {
    && (forall pl, p :: At(t, pl, p) <==> (At(s, pl, p) && pl !in from) || (pl in to && p == q))
    && (forall pl | pl in from :: At(s, pl, q))
    && (forall pl, p | pl in from && At(s, pl, p) :: p == q)
    && (forall pl, p | pl in to :: !At(s, pl, p))
    && (forall pl, pm | pl in to && pm in to :: pl == pm)
  }

  lemma OwnedMove(s: State, t: State, from: set<Place>, to: set<Place>, q: nat)
    requires Owned(s) && Moved(s, t, from, to, q)
    requires forall pl, p | At(t, pl, p) :: OnePage(t, pl, p)
    requires from == {} && to != {} ==> q !in s.pool.live
    requires forall p | p != q :: p in t.pool.live <==> p in s.pool.live
    requires from != {} || to != {} ==> (q in t.pool.live <==> to != {})
    requires from == {} && to == {} ==> (q in t.pool.live <==> q in s.pool.live)
    ensures Owned(t)
  {
    forall p | p in t.pool.live
      ensures exists pl :: At(t, pl, p)
    {
      if p == q && to != {} {
        var pl :| pl in to;
        assert At(t, pl, q);
      } else {
        var pl :| At(s, pl, p);
        assert pl !in from;
        assert At(t, pl, p);
      }
    }
  }

  // ---------------------------------------------------------------- the pool inside the lock

  lemma PoolFound(pool: Pool, task: Task, r: nat, lo: nat, hi: nat)
    requires Inv(pool, lo, hi) && r in pool.free && pool.free[r] >= Target(task)
    ensures PoolAt(pool, Splitting(task, r), lo, hi)
  {
    CanonicalMinus(pool.free, r);
  }

  lemma TilingKept(f: Blocks, g: Blocks, lo: nat, hi: nat)
    requires Tiling(f, lo, hi) && WellAligned(g) && Disjoint(g) && SameCover(f, g)
    ensures Tiling(g, lo, hi)
  {
    forall i: nat
      ensures Covered(g, i) <==> lo <= i < hi
    {
      assert Covered(f, i) <==> Covered(g, i);
    }
  }

  lemma SplitOfUnion(f: Blocks, l: Blocks, r: nat)
    requires f.Keys !! l.Keys && r in f && f[r] > 0 && r + Pow2(f[r] - 1) !in l
    ensures SplitOnce(f + l, r) == SplitOnce(f, r) + l && SplitOnce(f, r).Keys !! l.Keys
  {
  }

  lemma PoolSplit(pool: Pool, task: Task, r: nat, lo: nat, hi: nat)
    requires PoolAt(pool, Splitting(task, r), lo, hi) && pool.free[r] > Target(task)
    ensures PoolAt(pool.(free := SplitOnce(pool.free, r)), Splitting(task, r), lo, hi)
  {
    SplitTiling(pool.free, pool.live, r, lo, hi);
    SplitKeepsCanonicalWithout(pool.free, r);
  }

  lemma SplitTiling(f: Blocks, l: Blocks, r: nat, lo: nat, hi: nat)
    requires f.Keys !! l.Keys && r in f && f[r] > 0 && Tiling(f + l, lo, hi)
    ensures SplitOnce(f, r).Keys !! l.Keys && Tiling(SplitOnce(f, r) + l, lo, hi)
  {
    var all := f + l;
    assert all[r] == f[r];
    SplitKeepsTiles(all, r);
    SplitOfUnion(f, l, r);
    TilingKept(all, SplitOnce(all, r), lo, hi);
  }

  lemma PoolTake(pool: Pool, task: Task, r: nat, lo: nat, hi: nat)
    requires PoolAt(pool, Splitting(task, r), lo, hi)
    ensures Inv(Pool(pool.free - {r}, pool.live[r := pool.free[r]]), lo, hi)
  {
    RemoveSetAside(pool.free, r);
    assert (pool.free - {r}) + pool.live[r := pool.free[r]] == pool.free + pool.live;
  }

  lemma PoolSetAside(pool: Pool, task: Task, p: nat, lo: nat, hi: nat)
    requires Inv(pool, lo, hi) && p in pool.live
    ensures PoolAt(Pool(pool.free, pool.live - {p}), Merging(task, p, pool.live[p]), lo, hi)
  {
    assert (pool.live - {p})[p := pool.live[p]] == pool.live;
  }

  lemma JoinOfUnion(f: Blocks, l: Blocks, p: nat, k: nat)
    requires f.Keys !! l.Keys && p !in l && p !in f && FlipBit(p, k) in f && Aligned(p, k)
    ensures Joined(f + l[p := k], p, k) == (f - {FlipBit(p, k)}) + l[ClearBit(p, k) := k + 1]
    ensures ClearBit(p, k) !in l && ClearBit(p, k) !in f - {FlipBit(p, k)}
  {
    BuddyPair(p, k);
  }

  lemma AbsorbTiles(f: Blocks, l: Blocks, p: nat, k: nat, lo: nat, hi: nat)
    requires f.Keys !! l.Keys && p !in l && p !in f && Tiling(f + l[p := k], lo, hi) && Mergeable(f, p, k)
    ensures Tiling((f - {FlipBit(p, k)}) + l[ClearBit(p, k) := k + 1], lo, hi)
    ensures ClearBit(p, k) !in l && ClearBit(p, k) !in f - {FlipBit(p, k)}
  {
    var all: Blocks := f + l[p := k];
    assert p in all && all[p] == k && all[FlipBit(p, k)] == k;
    JoinKeepsTiles(all, p, k);
    TilingKept(all, Joined(all, p, k), lo, hi);
    JoinOfUnion(f, l, p, k);
  }

  lemma PoolAbsorb(pool: Pool, task: Task, p: nat, k: nat, lo: nat, hi: nat)
    requires PoolAt(pool, Merging(task, p, k), lo, hi) && Mergeable(pool.free, p, k)
    ensures PoolAt(pool.(free := pool.free - {FlipBit(p, k)}), Merging(task, ClearBit(p, k), k + 1), lo, hi)
  {
    AbsorbTiles(pool.free, pool.live, p, k, lo, hi);
    CanonicalMinus(pool.free, FlipBit(p, k));
  }

  lemma SetAsideClear(f: Blocks, l: Blocks, p: nat, k: nat)
    requires p !in f && p !in l && f.Keys !! l.Keys && Disjoint(f + l[p := k])
    ensures Clear(f, p, k) && f[p := k] + l == f + l[p := k]
  {
    var all: Blocks := f + l[p := k];
    forall q | q in f
      ensures q + Pow2(f[q]) <= p || p + Pow2(k) <= q
    {
      assert q in all && all[q] == f[q] && p in all && all[p] == k;
      Apart(all, p, q);
    }
  }

  lemma PoolInsert(pool: Pool, task: Task, p: nat, k: nat, lo: nat, hi: nat)
    requires PoolAt(pool, Merging(task, p, k), lo, hi) && !Mergeable(pool.free, p, k)
    ensures p !in pool.free && Inv(pool.(free := pool.free[p := k]), lo, hi)
  {
    assert (pool.free + pool.live[p := k])[p] == k;
    SetAsideClear(pool.free, pool.live, p, k);
    InsertCanonical(pool.free, p, k);
  }

  // ---------------------------------------------------------------- every step keeps the invariant

  /** What a step of hart h may change, and what it must leave consistent. */
  ghost predicate LocalChange(s: State, h: nat, pc: Pc, cache: seq<nat>, t: State, lo: nat, hi: nat)
    requires h < |s.pcs| == |s.caches|
  {
    && t.pcs == s.pcs[h := pc] && t.caches == s.caches[h := cache]
    && (|| (t.lock == s.lock && (Critical(pc) <==> Critical(s.pcs[h])))
        || (s.lock == 0 && t.lock == 1 && Critical(pc))
        || (Critical(s.pcs[h]) && !Critical(pc) && t.lock == 0))
    && (if Critical(s.pcs[h]) || Critical(pc) then PoolAt(t.pool, pc, lo, hi) else t.pool == s.pool)
    && |cache| <= CACHE_SIZE && PcFits(pc, |cache|)
  }

  lemma Advance(s: State, h: nat, pc: Pc, cache: seq<nat>, t: State, lo: nat, hi: nat)
    requires GoodState(s, lo, hi) && h < |s.pcs| && LocalChange(s, h, pc, cache, t, lo, hi) && Owned(t)
    ensures GoodState(t, lo, hi)
  {
    ExclusiveKept(s, h, pc, t);
  }

  ghost predicate SameLive(s: State, t: State) {
    t.pool.live == s.pool.live
  }

  /** A step that moves no block: only hart h's program counter changes, carrying what it carried. */
  lemma OwnedStay(s: State, h: nat, pc: Pc, t: State)
    requires Owned(s) && h < |s.pcs| && t.pcs == s.pcs[h := pc] && t.caches == s.caches && t.held == s.held
    requires SameLive(s, t) && (forall p :: Carries(pc, p) <==> Carries(s.pcs[h], p))
    requires (forall p :: !Carries(pc, p)) || (TaskOf(pc).GiveBack? <==> TaskOf(s.pcs[h]).GiveBack?)
    ensures Owned(t)
  {
    forall pl, p
      ensures At(t, pl, p) <==> At(s, pl, p)
    {
    }
    forall pl, p | At(t, pl, p)
      ensures OnePage(t, pl, p)
    {
      assert At(s, pl, p);
    }
    OwnedMove(s, t, {}, {}, 0);
  }

  lemma SpinKeeps(s: State, h: nat, t: State, lo: nat, hi: nat)
    requires GoodState(s, lo, hi) && h < |s.pcs| && (s.pcs[h].Spin? || s.pcs[h].Swap?) && HartStep(s, h, t)
    ensures GoodState(t, lo, hi)
  {
    var pc := t.pcs[h];
    assert t.pcs == s.pcs[h := pc];
    OwnedStay(s, h, pc, t);
    assert t.caches == s.caches[h := s.caches[h]];
    Advance(s, h, pc, s.caches[h], t, lo, hi);
  }

  /** pcs, caches and held of t are those of s but for hart h. */
  ghost predicate Only(s: State, h: nat, pc: Pc, cache: seq<nat>, held: set<nat>, t: State)
    requires h < |s.pcs| == |s.caches|
  {
    t.pcs == s.pcs[h := pc] && t.caches == s.caches[h := cache] && t.held == held
  }

  /** What hart h carries is what it carried, and as the same kind of task. */
  ghost predicate CarriesSame(a: Pc, b: Pc) {
    && (forall p :: Carries(b, p) <==> Carries(a, p))
    && ((forall p :: !Carries(b, p)) || (TaskOf(b).GiveBack? <==> TaskOf(a).GiveBack?))
  }

  ghost predicate CarriesNone(pc: Pc) {
    forall p :: !Carries(pc, p)
  }

  ghost predicate CarriesOnly(pc: Pc, q: nat) {
    forall p :: Carries(pc, p) <==> p == q
  }

  /** The last cache slot handed to a client. */
  lemma SlotToHand(s: State, h: nat, pc: Pc, t: State)
    requires Owned(s) && h < |s.pcs| == |s.caches| && s.caches[h] != []
    requires var c := s.caches[h]; Only(s, h, pc, c[..|c| - 1], s.held + {c[|c| - 1]}, t)
    requires CarriesSame(s.pcs[h], pc) && SameLive(s, t)
    ensures Owned(t)
  {
    var n := |s.caches[h]| - 1;
    var q := s.caches[h][n];
    assert At(s, Slot(h, n), q);
    assert Moved(s, t, {Slot(h, n)}, {Hand(q)}, q);
    assert forall pl, p | At(t, pl, p) && pl != Hand(q) :: At(s, pl, p);
    OwnedMove(s, t, {Slot(h, n)}, {Hand(q)}, q);
  }

  /** A page pushed on the cache, from a client's hands or from the hart's own. */
  lemma ToSlot(s: State, h: nat, q: nat, pc: Pc, t: State)
    requires Owned(s) && h < |s.pcs| == |s.caches| && q in s.pool.live && s.pool.live[q] == 0 && SameLive(s, t)
    requires || (q in s.held && Only(s, h, pc, s.caches[h] + [q], s.held - {q}, t) && CarriesSame(s.pcs[h], pc))
             || (CarriesOnly(s.pcs[h], q) && CarriesNone(pc) && Only(s, h, pc, s.caches[h] + [q], s.held, t))
    ensures Owned(t)
  {
    var n := |s.caches[h]|;
    var from := if q in s.held then Hand(q) else Flight(h);
    assert q in s.held ==> At(s, Hand(q), q);
    assert Carries(s.pcs[h], q) ==> At(s, Flight(h), q);
    assert Moved(s, t, {from}, {Slot(h, n)}, q);
    assert forall pl, p | At(t, pl, p) && pl != Slot(h, n) :: At(s, pl, p);
    OwnedMove(s, t, {from}, {Slot(h, n)}, q);
  }

  /** A block taken from a client's hands by the hart that frees it. */
  lemma HandToFlight(s: State, h: nat, q: nat, pc: Pc, t: State)
    requires Owned(s) && h < |s.pcs| == |s.caches| && q in s.held && SameLive(s, t)
    requires CarriesNone(s.pcs[h]) && CarriesOnly(pc, q) && Only(s, h, pc, s.caches[h], s.held - {q}, t)
    requires TaskOf(pc).GiveBack? || (q in s.pool.live && s.pool.live[q] == 0)
    ensures Owned(t)
  {
    assert At(s, Hand(q), q);
    assert Moved(s, t, {Hand(q)}, {Flight(h)}, q);
    assert forall pl, p | At(t, pl, p) && pl != Flight(h) :: At(s, pl, p);
    OwnedMove(s, t, {Hand(q)}, {Flight(h)}, q);
  }

  /** A block set aside for merging, from the last cache slot or from the hart's own hands. */
  lemma ToNowhere(s: State, h: nat, q: nat, pc: Pc, t: State)
    requires Owned(s) && h < |s.pcs| == |s.caches| && t.pool.live == s.pool.live - {q}
    requires var c := s.caches[h];
             || (c != [] && q == c[|c| - 1] && Only(s, h, pc, c[..|c| - 1], s.held, t) && CarriesSame(s.pcs[h], pc))
             || (CarriesOnly(s.pcs[h], q) && CarriesNone(pc) && Only(s, h, pc, c, s.held, t))
    ensures Owned(t)
  {
    var n := |s.caches[h]| - 1;
    var from := if |t.caches[h]| == n then Slot(h, n) else Flight(h);
    assert At(s, from, q);
    assert Moved(s, t, {from}, {}, q);
    assert forall pl, p | At(t, pl, p) :: At(s, pl, p);
    OwnedMove(s, t, {from}, {}, q);
  }

  /** A block newly allocated, into the cache or a client's hands. */
  lemma FromNowhere(s: State, h: nat, q: nat, k: nat, pc: Pc, t: State)
    requires Owned(s) && h < |s.pcs| == |s.caches| && q !in s.pool.live && t.pool.live == s.pool.live[q := k]
    requires CarriesSame(s.pcs[h], pc)
    requires || (k == 0 && Only(s, h, pc, s.caches[h] + [q], s.held, t))
             || Only(s, h, pc, s.caches[h], s.held + {q}, t)
    ensures Owned(t)
  {
    var n := |s.caches[h]|;
    var to := if |t.caches[h]| == n + 1 then Slot(h, n) else Hand(q);
    assert forall pl :: !At(s, pl, q);
    assert Moved(s, t, {}, {to}, q);
    assert forall pl, p | At(t, pl, p) && pl != to :: At(s, pl, p);
    OwnedMove(s, t, {}, {to}, q);
  }

  // ---------------------------------------------------------------- the steps, one program point at a time

  lemma IdleKeeps(s: State, h: nat, t: State, lo: nat, hi: nat)
    requires GoodState(s, lo, hi) && h < |s.pcs| && s.pcs[h].Idle? && HartStep(s, h, t)
    ensures GoodState(t, lo, hi)
  {
    var call :| Begins(s, h, call, t);
    BeginKeeps(s, h, call, t, lo, hi);
  }

  lemma BeginKeeps(s: State, h: nat, call: Call, t: State, lo: nat, hi: nat)
    requires GoodState(s, lo, hi) && h < |s.pcs| && s.pcs[h].Idle? && Begins(s, h, call, t)
    ensures GoodState(t, lo, hi)
  {
    var c := s.caches[h];
    assert s.pcs[h := Idle] == s.pcs;
    assert s.caches[h := c] == s.caches;
    if call.Pfree? {
      FreeKeeps(s, h, call.block, t, lo, hi);
    } else if call.BuddyFree? {
      HandToFlight(s, h, call.block, t.pcs[h], t);
      Advance(s, h, t.pcs[h], c, t, lo, hi);
    } else if call.AllocPage? && c != [] {
      SlotToHand(s, h, Idle, t);
      Advance(s, h, Idle, c[..|c| - 1], t, lo, hi);
    } else {
      OwnedStay(s, h, t.pcs[h], t);
      Advance(s, h, t.pcs[h], c, t, lo, hi);
    }
  }

  lemma FreeKeeps(s: State, h: nat, p: nat, t: State, lo: nat, hi: nat)
    requires GoodState(s, lo, hi) && h < |s.pcs| && s.pcs[h].Idle?
    requires p in s.held && p in s.pool.live && FreeStep(s, h, p, t)
    ensures GoodState(t, lo, hi)
  {
    var c := s.caches[h];
    assert s.pcs[h := Idle] == s.pcs;
    assert s.caches[h := c] == s.caches;
    if s.pool.live[p] == 0 && |c| < CACHE_SIZE {
      ToSlot(s, h, p, Idle, t);
      Advance(s, h, Idle, c + [p], t, lo, hi);
    } else {
      HandToFlight(s, h, p, t.pcs[h], t);
      Advance(s, h, t.pcs[h], c, t, lo, hi);
    }
  }

  lemma FindKeeps(s: State, h: nat, t: State, lo: nat, hi: nat)
    requires GoodState(s, lo, hi) && h < |s.pcs| && s.pcs[h].Locked?
    requires s.pcs[h].task.Grab? || (s.pcs[h].task.Refill? && s.pcs[h].task.left > 0)
    requires FindStep(s, h, s.pcs[h].task, t)
    ensures GoodState(t, lo, hi)
  {
    var task := s.pcs[h].task;
    var c := s.caches[h];
    assert s.caches[h := c] == s.caches;
    assert PoolAt(s.pool, s.pcs[h], lo, hi);
    if !Exhausted(s.pool.free, Target(task)) {
      var r :| BestFit(s.pool.free, Target(task), r) && t == WithPc(s, h, Splitting(task, r));
      PoolFound(s.pool, task, r, lo, hi);
    }
    OwnedStay(s, h, t.pcs[h], t);
    Advance(s, h, t.pcs[h], c, t, lo, hi);
  }

  lemma LockedKeeps(s: State, h: nat, t: State, lo: nat, hi: nat)
    requires GoodState(s, lo, hi) && h < |s.pcs| && s.pcs[h].Locked? && HartStep(s, h, t)
    ensures GoodState(t, lo, hi)
  {
    var task := s.pcs[h].task;
    var c := s.caches[h];
    assert s.caches[h := c] == s.caches;
    assert PoolAt(s.pool, s.pcs[h], lo, hi);
    if task.Grab? || (task.Refill? && task.left > 0) {
      FindKeeps(s, h, t, lo, hi);
    } else if task.Flush? && task.left > 0 {
      var q := c[|c| - 1];
      assert At(s, Slot(h, |c| - 1), q);
      PoolSetAside(s.pool, Flush(task.left - 1, task.page), q, lo, hi);
      ToNowhere(s, h, q, t.pcs[h], t);
      Advance(s, h, t.pcs[h], c[..|c| - 1], t, lo, hi);
    } else if task.GiveBack? {
      PoolSetAside(s.pool, Finish, task.block, lo, hi);
      ToNowhere(s, h, task.block, t.pcs[h], t);
      Advance(s, h, t.pcs[h], c, t, lo, hi);
    } else {
      OwnedStay(s, h, t.pcs[h], t);
      Advance(s, h, t.pcs[h], c, t, lo, hi);
    }
  }

  lemma SplittingKeeps(s: State, h: nat, t: State, lo: nat, hi: nat)
    requires GoodState(s, lo, hi) && h < |s.pcs| && s.pcs[h].Splitting? && HartStep(s, h, t)
    ensures GoodState(t, lo, hi)
  {
    var Splitting(task, r) := s.pcs[h];
    if s.pool.free[r] > Target(task) {
      SplitTurnKeeps(s, h, task, r, t, lo, hi);
    } else {
      TakeKeeps(s, h, task, r, t, lo, hi);
    }
  }

  lemma SplitTurnKeeps(s: State, h: nat, task: Task, r: nat, t: State, lo: nat, hi: nat)
    requires GoodState(s, lo, hi) && h < |s.pcs| && s.pcs[h] == Splitting(task, r)
    requires r in s.pool.free && s.pool.free[r] > Target(task) && SplitStep(s, h, task, r, t)
    ensures GoodState(t, lo, hi)
  {
    assert s.caches[h := s.caches[h]] == s.caches && s.pcs[h := s.pcs[h]] == s.pcs;
    assert PoolAt(s.pool, s.pcs[h], lo, hi);
    PoolSplit(s.pool, task, r, lo, hi);
    OwnedStay(s, h, s.pcs[h], t);
    Advance(s, h, s.pcs[h], s.caches[h], t, lo, hi);
  }

  lemma TakeKeeps(s: State, h: nat, task: Task, r: nat, t: State, lo: nat, hi: nat)
    requires GoodState(s, lo, hi) && h < |s.pcs| && s.pcs[h] == Splitting(task, r)
    requires r in s.pool.free && s.pool.free[r] <= Target(task) && SplitStep(s, h, task, r, t)
    ensures GoodState(t, lo, hi)
  {
    assert s.caches[h := s.caches[h]] == s.caches;
    assert PoolAt(s.pool, s.pcs[h], lo, hi);
    PoolTake(s.pool, task, r, lo, hi);
    var k, c := Target(task), s.caches[h];
    if task.Refill? && task.left > 0 {
      assert Only(s, h, t.pcs[h], c + [r], s.held, t);
      FromNowhere(s, h, r, k, t.pcs[h], t);
      Advance(s, h, t.pcs[h], c + [r], t, lo, hi);
    } else {
      assert Only(s, h, t.pcs[h], c, s.held + {r}, t);
      FromNowhere(s, h, r, k, t.pcs[h], t);
      Advance(s, h, t.pcs[h], c, t, lo, hi);
    }
  }

  lemma MergingKeeps(s: State, h: nat, t: State, lo: nat, hi: nat)
    requires GoodState(s, lo, hi) && h < |s.pcs| && s.pcs[h].Merging? && HartStep(s, h, t)
    ensures GoodState(t, lo, hi)
  {
    var Merging(task, p, k) := s.pcs[h];
    var c := s.caches[h];
    assert s.caches[h := c] == s.caches;
    assert PoolAt(s.pool, s.pcs[h], lo, hi);
    if Mergeable(s.pool.free, p, k) {
      PoolAbsorb(s.pool, task, p, k, lo, hi);
    } else {
      PoolInsert(s.pool, task, p, k, lo, hi);
    }
    OwnedStay(s, h, t.pcs[h], t);
    Advance(s, h, t.pcs[h], c, t, lo, hi);
  }

  lemma TailKeeps(s: State, h: nat, t: State, lo: nat, hi: nat)
    requires GoodState(s, lo, hi) && h < |s.pcs| && (s.pcs[h].Retail? || s.pcs[h].Stash?) && HartStep(s, h, t)
    ensures GoodState(t, lo, hi)
  {
    var c := s.caches[h];
    if s.pcs[h].Retail? {
      SlotToHand(s, h, Idle, t);
      Advance(s, h, Idle, c[..|c| - 1], t, lo, hi);
    } else {
      var p := s.pcs[h].page;
      assert At(s, Flight(h), p);
      ToSlot(s, h, p, Idle, t);
      Advance(s, h, Idle, c + [p], t, lo, hi);
    }
  }

  lemma StepKeepsGood(s: State, h: nat, t: State, lo: nat, hi: nat)
    requires GoodState(s, lo, hi) && h < |s.pcs| && HartStep(s, h, t)
    ensures GoodState(t, lo, hi) && |t.pcs| == |s.pcs|
  {
    match s.pcs[h]
    case Idle => IdleKeeps(s, h, t, lo, hi);
    case Spin(_) => SpinKeeps(s, h, t, lo, hi);
    case Swap(_) => SpinKeeps(s, h, t, lo, hi);
    case Locked(_) => LockedKeeps(s, h, t, lo, hi);
    case Splitting(_, _) => SplittingKeeps(s, h, t, lo, hi);
    case Merging(_, _, _) => MergingKeeps(s, h, t, lo, hi);
    case Retail => TailKeeps(s, h, t, lo, hi);
    case Stash(_) => TailKeeps(s, h, t, lo, hi);
    case Halted =>
  }

  lemma {:induction false} BestFitExists(f: Blocks, k: nat, r: nat) returns (q: nat)
    requires r in f && f[r] >= k
    ensures BestFit(f, k, q)
    decreases f[r]
  {
    if p :| p in f && k <= f[p] < f[r] {
      q := BestFitExists(f, k, p);
    } else {
      q := r;
    }
  }

  /** Inside the lock a hart is never stuck: it always has a next step of its own. */
  lemma LockHolderCanStep(s: State, h: nat, lo: nat, hi: nat)
    requires GoodState(s, lo, hi) && h < |s.pcs| && Critical(s.pcs[h])
    ensures exists t :: HartStep(s, h, t)
  {
    match s.pcs[h]
    case Locked(_) => LockedCanStep(s, h, lo, hi);
    case Splitting(_, _) => SplittingCanStep(s, h, lo, hi);
    case Merging(_, _, _) => MergingCanStep(s, h, lo, hi);
  }

  lemma LockedCanStep(s: State, h: nat, lo: nat, hi: nat)
    requires GoodState(s, lo, hi) && h < |s.pcs| && s.pcs[h].Locked?
    ensures exists t :: HartStep(s, h, t)
  {
    var c, task := s.caches[h], s.pcs[h].task;
    assert PoolAt(s.pool, s.pcs[h], lo, hi);
    if task.Grab? || (task.Refill? && task.left > 0) {
      if Exhausted(s.pool.free, Target(task)) {
        assert HartStep(s, h, WithPc(s, h, Locked(Fail)));
      } else {
        var r :| r in s.pool.free && s.pool.free[r] >= Target(task);
        var q := BestFitExists(s.pool.free, Target(task), r);
        assert HartStep(s, h, WithPc(s, h, Splitting(task, q)));
      }
    } else if task.Flush? && task.left > 0 {
      var q := c[|c| - 1];
      assert HartStep(s, h, WithPc(WithCache(s, h, c[..|c| - 1]), h, Merging(Flush(task.left - 1, task.page), q, 0))
                            .(pool := Pool(s.pool.free, s.pool.live - {q})));
    } else if task.GiveBack? {
      assert At(s, Flight(h), task.block);
      assert HartStep(s, h, WithPc(s, h, Merging(Finish, task.block, s.pool.live[task.block]))
                            .(pool := Pool(s.pool.free, s.pool.live - {task.block})));
    } else {
      var pc := if task.Refill? then Retail else if task.Flush? then Stash(task.page) else if task.Finish? then Idle else Halted;
      assert HartStep(s, h, WithPc(s, h, pc).(lock := 0));
    }
  }

  lemma SplittingCanStep(s: State, h: nat, lo: nat, hi: nat)
    requires GoodState(s, lo, hi) && h < |s.pcs| && s.pcs[h].Splitting?
    ensures exists t :: HartStep(s, h, t)
  {
    var c := s.caches[h];
    var Splitting(task, r) := s.pcs[h];
    assert PoolAt(s.pool, s.pcs[h], lo, hi);
    var f: Blocks := s.pool.free;
    var s' := s.(pool := Pool(f - {r}, s.pool.live[r := Target(task)]));
    var t := if f[r] > Target(task) then s.(pool := s.pool.(free := SplitOnce(f, r)))
             else if task.Refill? then WithPc(WithCache(s', h, c + [r]), h, Locked(Refill(task.left - 1)))
             else WithPc(s', h, Locked(Finish)).(held := s.held + {r});
    assert HartStep(s, h, t);
  }

  lemma MergingCanStep(s: State, h: nat, lo: nat, hi: nat)
    requires GoodState(s, lo, hi) && h < |s.pcs| && s.pcs[h].Merging?
    ensures exists t :: HartStep(s, h, t)
  {
    var Merging(task, p, k) := s.pcs[h];
    var f: Blocks := s.pool.free;
    var t := if Mergeable(f, p, k)
             then WithPc(s, h, Merging(task, ClearBit(p, k), k + 1)).(pool := s.pool.(free := f - {FlipBit(p, k)}))
             else WithPc(s, h, Locked(task)).(pool := s.pool.(free := f[p := k]));
    assert HartStep(s, h, t);
  }

  // ---------------------------------------------------------------- whole runs

  /** Any interleaving: each state follows from the one before by a step of some hart. */
  ghost predicate Steps(s: State, t: State) {
    |s.pcs| == |s.caches| && exists h :: 0 <= h < |s.pcs| && HartStep(s, h, t)
  }

  ghost predicate IsInterleaving(run: seq<State>) {
    |run| > 0 && forall i | 0 <= i < |run| - 1 :: Steps(run[i], run[i + 1])
  }

  lemma {:induction false} InterleavingKeepsGood(run: seq<State>, lo: nat, hi: nat, i: nat)
    requires IsInterleaving(run) && GoodState(run[0], lo, hi) && i < |run|
    ensures GoodState(run[i], lo, hi)
    decreases i
  {
    if i > 0 {
      InterleavingKeepsGood(run, lo, hi, i - 1);
      assert Steps(run[i - 1], run[i]);
      var h :| 0 <= h < |run[i - 1].pcs| && HartStep(run[i - 1], h, run[i]);
      StepKeepsGood(run[i - 1], h, run[i], lo, hi);
    }
  }

  /** The state pmm_init leaves: every hart idle, its cache full of distinct order-0 pages. */
  ghost predicate Booted(s: State, lo: nat, hi: nat) {
    && s.lock == 0 && s.held == {} && |s.pcs| == |s.caches| && Inv(s.pool, lo, hi)
    && (forall h | 0 <= h < |s.pcs| :: s.pcs[h] == Idle && |s.caches[h]| == CACHE_SIZE)
    && (forall h, i | 0 <= h < |s.pcs| && 0 <= i < CACHE_SIZE ::
          s.caches[h][i] in s.pool.live && s.pool.live[s.caches[h][i]] == 0)
    && (forall p | p in s.pool.live :: exists h, i :: At(s, Slot(h, i), p))
    && (forall pl, pm, p :: At(s, pl, p) && At(s, pm, p) ==> pl == pm)
  }

  lemma BootedIsGood(s: State, lo: nat, hi: nat)
    requires Booted(s, lo, hi)
    ensures GoodState(s, lo, hi)
  {
    BootedOwned(s, lo, hi);
  }

  lemma BootedOwned(s: State, lo: nat, hi: nat)
    requires Booted(s, lo, hi)
    ensures Owned(s)
  {
    forall p | p in s.pool.live
      ensures exists pl :: At(s, pl, p)
    {
      var h, i :| At(s, Slot(h, i), p);
    }
  }

  /**
   The theorem: in every state of every interleaving from boot, at most one hart is
   inside the lock, the buddy invariant holds whenever the lock word is 0, no cache
   over- or underflows, and every live block is in exactly one place.
   */
  lemma HartsAreSafe(run: seq<State>, lo: nat, hi: nat, i: nat)
    requires IsInterleaving(run) && Booted(run[0], lo, hi) && i < |run|
    ensures Exclusive(run[i])
    ensures run[i].lock == 0 ==> Inv(run[i].pool, lo, hi)
    ensures |run[i].pcs| == |run[i].caches|
    ensures forall h | 0 <= h < |run[i].caches| :: |run[i].caches[h]| <= CACHE_SIZE
    ensures Owned(run[i])
  {
    BootedIsGood(run[0], lo, hi);
    InterleavingKeepsGood(run, lo, hi, i);
  }

  /** Page i lies in the block p, which is at place pl. */
  ghost predicate PageAt(s: State, pl: Place, p: nat, i: nat) {
    At(s, pl, p) && p in s.pool.live && InRun(i, p, s.pool.live[p])
  }

  /**
   Conservation, page by page, whenever the lock is free: a page of the region is
   free, or it is in one block at one place, never both and never neither.
   */
  lemma PageInOnePlace(s: State, lo: nat, hi: nat, i: nat)
    requires GoodState(s, lo, hi) && s.lock == 0
    ensures lo <= i < hi <==> Covered(s.pool.free, i) || exists pl, p :: PageAt(s, pl, p, i)
    ensures !(Covered(s.pool.free, i) && exists pl, p :: PageAt(s, pl, p, i))
    ensures forall pl, p, pm, q :: PageAt(s, pl, p, i) && PageAt(s, pm, q, i) ==> pl == pm && p == q
  {
    FreeIsComplement(s.pool, lo, hi, i);
    LivePartDisjoint(s.pool, lo, hi);
    if Covered(s.pool.live, i) {
      var p :| Covers(s.pool.live, p, i);
      var pl :| At(s, pl, p);
      assert PageAt(s, pl, p, i);
    }
    forall pl, p | PageAt(s, pl, p, i)
      ensures Covers(s.pool.live, p, i)
    {
    }
  }
}
