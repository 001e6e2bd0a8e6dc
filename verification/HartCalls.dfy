/**
 What a whole call of alloc_page, buddy_alloc, pfree or buddy_free does (kernel/pmm.c:179-301),
 however the steps of other harts fall between its own.  A call is a stretch of a scheduled
 run that starts when its hart is idle and ends when the hart is idle again or has panicked.
 What the hart does to the pool and to the clients is counted over its own steps.
 */
module HartCalls {
  import opened BlockTiling
  import opened BuddyPool
  import opened BuddyHarts
  import opened Collections
  import opened PageCaches
  import opened PowersOfTwo

  // ---------------------------------------------------------------- runs and calls

  ghost predicate StepBy(s: State, h: nat, t: State) {
    h < |s.pcs| == |s.caches| && HartStep(s, h, t)
  }

  /** Step i of the run is made by hart hs[i]. */
  ghost predicate Scheduled(run: seq<State>, hs: seq<nat>) {
    |run| == |hs| + 1 && forall i | 0 <= i < |hs| :: StepBy(run[i], hs[i], run[i + 1])
  }

  ghost predicate Busy(s: State, h: nat) {
    h < |s.pcs| && !s.pcs[h].Idle? && !s.pcs[h].Halted?
  }

  /** One call of hart h, from its first step to its last. */
  ghost predicate CallOf(run: seq<State>, hs: seq<nat>, h: nat, call: Call) {
    && Scheduled(run, hs) && hs != [] && hs[0] == h
    && h < |run[0].pcs| == |run[0].caches| && run[0].pcs[h].Idle? && Begins(run[0], h, call, run[1])
    && (forall i | 0 < i < |hs| :: Busy(run[i], h))
    && !Busy(run[|hs|], h)
  }

  /** What a hart has taken from the pool, given to it, handed to clients and taken from them. */
  datatype Account = Account(took: set<nat>, gave: set<nat>, handed: set<nat>, dropped: set<nat>)

  const NOTHING: Account := Account({}, {}, {}, {})

  ghost function Charged(a: Account, s: State, t: State): (b: Account) {
    Account(a.took + (t.pool.live.Keys - s.pool.live.Keys), a.gave + (s.pool.live.Keys - t.pool.live.Keys),
            a.handed + (t.held - s.held), a.dropped + (s.held - t.held))
  }

  /** The account of hart h over the first n steps of a run. */
  ghost function Tally(run: seq<State>, hs: seq<nat>, h: nat, n: nat): (a: Account)
    requires n <= |hs| && |run| == |hs| + 1
  {
    if n == 0 then NOTHING
    else
      var a := Tally(run, hs, h, n - 1);
      if hs[n - 1] == h then Charged(a, run[n - 1], run[n]) else a
  }

  ghost function Total(run: seq<State>, hs: seq<nat>, h: nat): (a: Account)
    requires |run| == |hs| + 1
  {
    Tally(run, hs, h, |hs|)
  }

  ghost function Elements(c: seq<nat>): (e: set<nat>) {
    set p | p in c
  }

  // ---------------------------------------------------------------- other harts

  /** Another hart's step leaves hart h's cache and place, and inside the lock the pool as well. */
  lemma OthersLeave(s: State, g: nat, t: State, h: nat, lo: nat, hi: nat)
    requires GoodState(s, lo, hi) && StepBy(s, g, t) && g != h && h < |s.pcs|
    ensures h < |t.pcs| == |t.caches| && t.pcs[h] == s.pcs[h] && t.caches[h] == s.caches[h]
    ensures Critical(s.pcs[h]) ==> t.pool == s.pool && t.lock == s.lock
  {
    match s.pcs[g]
    case Idle =>
      var call :| Begins(s, g, call, t);
    case Spin(_) =>
    case Swap(_) =>
    case Locked(_) =>
      OutsideLock(s, g, t, h);
      LockedLeaves(s, g, t, h);
    case Splitting(_, _) => OutsideLock(s, g, t, h);
    case Merging(_, _, _) => OutsideLock(s, g, t, h);
    case Retail =>
    case Stash(_) =>
    case Halted =>
  }

  lemma OutsideLock(s: State, g: nat, t: State, h: nat)
    requires Exclusive(s) && g < |s.pcs| && h < |s.pcs| && g != h && Critical(s.pcs[g])
    ensures !Critical(s.pcs[h])
  {
  }

  lemma LockedLeaves(s: State, g: nat, t: State, h: nat)
    requires StepBy(s, g, t) && s.pcs[g].Locked? && g != h && h < |s.pcs|
    ensures h < |t.pcs| == |t.caches| && t.pcs[h] == s.pcs[h] && t.caches[h] == s.caches[h]
  {
  }

  // ---------------------------------------------------------------- induction over a call

  /** What hart h's steps and everyone else's keep, from the first step of a call on. */
  lemma {:induction false} KeptByCall(kept: iset<(State, Account)>, run: seq<State>, hs: seq<nat>, h: nat, n: nat)
    requires Scheduled(run, hs) && (forall i | 0 < i < |hs| :: Busy(run[i], h))
    requires 1 <= n <= |hs| && (run[1], Tally(run, hs, h, 1)) in kept
    requires forall s, a, t | (s, a) in kept && Busy(s, h) && StepBy(s, h, t) :: (t, Charged(a, s, t)) in kept
    requires forall s, a, g, t | (s, a) in kept && Busy(s, h) && g != h && StepBy(s, g, t) :: (t, a) in kept
    ensures (run[n], Tally(run, hs, h, n)) in kept
    decreases n
  {
    if n > 1 {
      KeptByCall(kept, run, hs, h, n - 1);
      assert Busy(run[n - 1], h);
      assert StepBy(run[n - 1], hs[n - 1], run[n - 1 + 1]);
    }
  }

  /** The state after the first step is good, and the account then is that step's. */
  lemma AfterFirst(run: seq<State>, hs: seq<nat>, h: nat, call: Call, lo: nat, hi: nat)
    requires CallOf(run, hs, h, call) && GoodState(run[0], lo, hi)
    ensures GoodState(run[1], lo, hi) && h < |run[1].pcs| && StepBy(run[0], h, run[1])
    ensures Tally(run, hs, h, 1) == Charged(NOTHING, run[0], run[1])
  {
    assert StepBy(run[0], hs[0], run[0 + 1]);
    StepKeepsGood(run[0], h, run[1], lo, hi);
    assert Tally(run, hs, h, 0) == NOTHING;
  }

  lemma ElementsMore(c: seq<nat>, p: nat)
    ensures Elements(c + [p]) == Elements(c) + {p}
  {
    assert forall q | q in c :: q in c + [p];
    assert (c + [p])[|c|] == p;
  }

  lemma CacheDistinct(s: State, h: nat, lo: nat, hi: nat)
    requires GoodState(s, lo, hi) && h < |s.caches|
    ensures Distinct(s.caches[h]) && forall p | p in s.caches[h] :: p in s.pool.live
  {
    var c := s.caches[h];
    forall i, j | 0 <= i < j < |c|
      ensures c[i] != c[j]
    {
      assert At(s, Slot(h, i), c[i]) && At(s, Slot(h, j), c[j]);
    }
    forall p | p in c
      ensures p in s.pool.live
    {
      var i :| 0 <= i < |c| && c[i] == p;
      assert At(s, Slot(h, i), p);
    }
  }

  lemma {:induction false} DistinctSize(c: seq<nat>)
    requires Distinct(c)
    ensures |Elements(c)| == |c|
  {
    if c != [] {
      var b, p := c[..|c| - 1], c[|c| - 1];
      DistinctSize(b);
      ElementsMore(b, p);
      assert b + [p] == c;
      assert p !in b;
    }
  }

  // ---------------------------------------------------------------- alloc_page from an empty cache

  /** Hart h is refilling: all it took lies in its cache, and at the end one page more in a client's hands. */
  ghost predicate Refilling(s: State, h: nat, a: Account)
    requires h < |s.pcs| == |s.caches|
  {
    var c := s.caches[h];
    match s.pcs[h]
    case Spin(task) => task.Refill? && a == Fetched(c)
    case Swap(task) => task.Refill? && a == Fetched(c)
    case Locked(task) => (task.Refill? || (task.Fail? && Exhausted(s.pool.free, 0))) && a == Fetched(c)
    case Splitting(task, _) => task.Refill? && a == Fetched(c)
    case Retail => a == Fetched(c)
    case Idle => |c| == 15 && exists x :: x !in c && OneHeld(s, x) && a == Account(Elements(c) + {x}, {}, {x}, {})
    case Halted => Exhausted(s.pool.free, 0) && a == Fetched(c)
    case _ => false
  }

  /** A client holds the single page x. */
  ghost predicate OneHeld(s: State, x: nat) {
    x in s.held && x in s.pool.live && s.pool.live[x] == 0
  }

  ghost function Fetched(c: seq<nat>): (a: Account) {
    Account(Elements(c), {}, {}, {})
  }

  lemma RefillOwnStep(s: State, h: nat, a: Account, t: State, lo: nat, hi: nat)
    requires GoodState(s, lo, hi) && Busy(s, h) && StepBy(s, h, t) && Refilling(s, h, a)
    ensures h < |t.pcs| == |t.caches| && Refilling(t, h, Charged(a, s, t))
  {
    if s.pcs[h].Splitting? {
      TakeForCache(s, h, a, t, lo, hi);
    } else if s.pcs[h].Retail? {
      RetailOwnStep(s, h, a, t, lo, hi);
    }
  }

  lemma TakeForCache(s: State, h: nat, a: Account, t: State, lo: nat, hi: nat)
    requires GoodState(s, lo, hi) && h < |s.pcs| && s.pcs[h].Splitting? && StepBy(s, h, t) && Refilling(s, h, a)
    ensures h < |t.pcs| == |t.caches| && Refilling(t, h, Charged(a, s, t))
  {
    var r := s.pcs[h].block;
    assert PoolAt(s.pool, s.pcs[h], lo, hi) && PcFits(s.pcs[h], |s.caches[h]|);
    CacheTaken(s, h, s.pcs[h].task, r, t);
    if s.pool.free[r] <= 0 {
      ElementsMore(s.caches[h], r);
    }
  }

  lemma CacheTaken(s: State, h: nat, task: Task, r: nat, t: State)
    requires h < |s.pcs| == |s.caches| && SplitStep(s, h, task, r, t) && s.pcs[h] == Splitting(task, r)
    requires task.Refill? && task.left > 0 && s.pool.free.Keys !! s.pool.live.Keys
    ensures t.held == s.held && |t.pcs| == |s.pcs| == |t.caches|
    ensures r in s.pool.free
    ensures s.pool.free[r] > 0 ==>
              t.caches == s.caches && t.pool.live == s.pool.live && t.pcs[h] == s.pcs[h]
    ensures s.pool.free[r] <= 0 ==>
              && t.caches[h] == s.caches[h] + [r] && t.pcs[h] == Locked(Refill(task.left - 1))
              && t.pool.live.Keys - s.pool.live.Keys == {r} && s.pool.live.Keys <= t.pool.live.Keys
  {
  }

  lemma RetailOwnStep(s: State, h: nat, a: Account, t: State, lo: nat, hi: nat)
    requires GoodState(s, lo, hi) && h < |s.pcs| && s.pcs[h].Retail? && StepBy(s, h, t) && a == Fetched(s.caches[h])
    ensures h < |t.pcs| == |t.caches| && t.pcs[h].Idle? && Refilling(t, h, Charged(a, s, t))
  {
    var c := s.caches[h];
    CacheDistinct(s, h, lo, hi);
    var b, x := c[..|c| - 1], c[|c| - 1];
    assert c == b + [x];
    ElementsMore(b, x);
    assert At(s, Slot(h, |c| - 1), x);
    HeldNotCached(s, h, |c| - 1);
    assert t.held - s.held == {x};
    assert PcFits(s.pcs[h], |c|);
    assert x !in b;
  }

  lemma RefillCall(run: seq<State>, hs: seq<nat>, h: nat, lo: nat, hi: nat)
    requires CallOf(run, hs, h, AllocPage) && GoodState(run[0], lo, hi) && run[0].caches[h] == []
    ensures GoodState(run[|hs|], lo, hi) && h < |run[|hs|].pcs| && Refilling(run[|hs|], h, Total(run, hs, h))
  {
    var kept := iset s: State, a: Account | GoodState(s, lo, hi) && h < |s.pcs| && Refilling(s, h, a) :: (s, a);
    AfterFirst(run, hs, h, AllocPage, lo, hi);
    assert Refilling(run[1], h, Tally(run, hs, h, 1));
    forall s, a, t | (s, a) in kept && Busy(s, h) && StepBy(s, h, t)
      ensures (t, Charged(a, s, t)) in kept
    {
      StepKeepsGood(s, h, t, lo, hi);
      RefillOwnStep(s, h, a, t, lo, hi);
    }
    forall s, a, g, t | (s, a) in kept && Busy(s, h) && g != h && StepBy(s, g, t)
      ensures (t, a) in kept
    {
      StepKeepsGood(s, g, t, lo, hi);
      OthersLeave(s, g, t, h, lo, hi);
    }
    KeptByCall(kept, run, hs, h, |hs|);
  }

  /**
   alloc_page of an empty cache: it hands out one page and leaves 15 in the cache, 16 different pages
   which it took from the pool, or it panics for want of a free block.
   */
  lemma AllocPageRefills(run: seq<State>, hs: seq<nat>, h: nat, lo: nat, hi: nat)
    requires CallOf(run, hs, h, AllocPage) && GoodState(run[0], lo, hi) && run[0].caches[h] == []
    ensures GoodState(run[|hs|], lo, hi) && h < |run[|hs|].pcs|
    ensures var s, a := run[|hs|], Total(run, hs, h);
            && a.gave == {} && a.dropped == {}
            && if s.pcs[h].Idle? then
                 && |s.caches[h]| == 15 && |a.took| == 16
                 && exists x :: a.handed == {x} && OneHeld(s, x) && x !in s.caches[h] && a.took == Elements(s.caches[h]) + {x}
               else
                 s.pcs[h].Halted? && Exhausted(s.pool.free, 0) && a.handed == {} && a.took == Elements(s.caches[h])
  {
    RefillCall(run, hs, h, lo, hi);
    var s, a := run[|hs|], Total(run, hs, h);
    if s.pcs[h].Idle? {
      var x :| x !in s.caches[h] && OneHeld(s, x) && a == Account(Elements(s.caches[h]) + {x}, {}, {x}, {});
      CacheDistinct(s, h, lo, hi);
      DistinctSize(s.caches[h]);
    }
  }

  // ---------------------------------------------------------------- pfree with a full cache

  /** Hart h, its cache c when it began, is flushing half of it to make room for page p. */
  ghost predicate Flushing(c: seq<nat>, p: nat, s: State, h: nat, a: Account)
    requires h < |s.pcs| == |s.caches|
  {
    var n := |s.caches[h]|;
    match s.pcs[h]
    case Idle => |c| == 32 && s.caches[h] == c[..16] + [p] && a == Flushed(c, 16, p)
    case Spin(task) => task.Flush? && task.page == p && LeftOf(c, s.caches[h], p, a)
    case Swap(task) => task.Flush? && task.page == p && LeftOf(c, s.caches[h], p, a)
    case Locked(task) => task.Flush? && task.page == p && LeftOf(c, s.caches[h], p, a)
    case Merging(task, _, _) => task.Flush? && task.page == p && LeftOf(c, s.caches[h], p, a)
    case Stash(page) => page == p && LeftOf(c, s.caches[h], p, a)
    case _ => false
  }

  /** The cache is what is left of c, and the rest of c was given back. */
  ghost predicate LeftOf(c: seq<nat>, cache: seq<nat>, p: nat, a: Account) {
    |c| == 32 && |cache| <= 32 && cache == c[..|cache|] && a == Flushed(c, |cache|, p)
  }

  ghost function Flushed(c: seq<nat>, n: nat, p: nat): (a: Account)
    requires n <= |c|
  {
    Account({}, Elements(c[n..]), {}, {p})
  }

  lemma FlushOwnStep(c: seq<nat>, p: nat, s: State, h: nat, a: Account, t: State, lo: nat, hi: nat)
    requires GoodState(s, lo, hi) && Busy(s, h) && StepBy(s, h, t) && Flushing(c, p, s, h, a)
    ensures h < |t.pcs| == |t.caches| && Flushing(c, p, t, h, Charged(a, s, t))
  {
    assert PcFits(s.pcs[h], |s.caches[h]|);
    if s.pcs[h].Locked? && s.pcs[h].task.left > 0 {
      CacheDistinct(s, h, lo, hi);
      FlushTurn(c, p, s, h, a, t);
    }
  }

  /** One page of the cache set aside for merging. */
  lemma FlushTurn(c: seq<nat>, p: nat, s: State, h: nat, a: Account, t: State)
    requires h < |s.pcs| && StepBy(s, h, t) && Flushing(c, p, s, h, a) && s.pcs[h].Locked? && s.pcs[h].task.left > 0
    requires forall q | q in s.caches[h] :: q in s.pool.live
    ensures h < |t.pcs| == |t.caches| && Flushing(c, p, t, h, Charged(a, s, t))
  {
    var cache := s.caches[h];
    MoreGiven(c, |cache|);
    assert cache[|cache| - 1] == c[|cache| - 1] && cache[|cache| - 1] in cache;
  }

  /** One slot less of c left is one page of c more given back. */
  lemma MoreGiven(c: seq<nat>, n: nat)
    requires 0 < n <= |c|
    ensures Elements(c[n - 1..]) == Elements(c[n..]) + {c[n - 1]} && c[..n][..n - 1] == c[..n - 1]
  {
    assert c[n - 1..] == [c[n - 1]] + c[n..];
  }

  lemma FlushCall(run: seq<State>, hs: seq<nat>, h: nat, p: nat, lo: nat, hi: nat)
    requires CallOf(run, hs, h, Pfree(p)) && GoodState(run[0], lo, hi)
    requires p in run[0].pool.live && run[0].pool.live[p] == 0 && |run[0].caches[h]| == 32
    ensures GoodState(run[|hs|], lo, hi) && h < |run[|hs|].pcs|
    ensures Flushing(run[0].caches[h], p, run[|hs|], h, Total(run, hs, h))
  {
    var c := run[0].caches[h];
    var kept := iset s: State, a: Account | GoodState(s, lo, hi) && h < |s.pcs| && Flushing(c, p, s, h, a) :: (s, a);
    AfterFirst(run, hs, h, Pfree(p), lo, hi);
    assert c[..32] == c && Elements(c[32..]) == {};
    assert Flushing(c, p, run[1], h, Tally(run, hs, h, 1));
    forall s, a, t | (s, a) in kept && Busy(s, h) && StepBy(s, h, t)
      ensures (t, Charged(a, s, t)) in kept
    {
      StepKeepsGood(s, h, t, lo, hi);
      FlushOwnStep(c, p, s, h, a, t, lo, hi);
    }
    forall s, a, g, t | (s, a) in kept && Busy(s, h) && g != h && StepBy(s, g, t)
      ensures (t, a) in kept
    {
      StepKeepsGood(s, g, t, lo, hi);
      OthersLeave(s, g, t, h, lo, hi);
    }
    KeptByCall(kept, run, hs, h, |hs|);
  }

  /**
   pfree of a single page with 32 pages cached: the younger 16 of them go back to the pool, and the page
   follows the older 16 into the cache.
   */
  lemma PfreeFlushes(run: seq<State>, hs: seq<nat>, h: nat, p: nat, lo: nat, hi: nat)
    requires CallOf(run, hs, h, Pfree(p)) && GoodState(run[0], lo, hi)
    requires p in run[0].pool.live && run[0].pool.live[p] == 0 && |run[0].caches[h]| == 32
    ensures GoodState(run[|hs|], lo, hi) && h < |run[|hs|].pcs| && run[|hs|].pcs[h].Idle?
    ensures run[|hs|].caches[h] == run[0].caches[h][..16] + [p]
    ensures var a := Total(run, hs, h);
            && a.took == {} && a.handed == {} && a.dropped == {p}
            && a.gave == Elements(run[0].caches[h][16..]) && |a.gave| == 16
  {
    FlushCall(run, hs, h, p, lo, hi);
    CacheDistinct(run[0], h, lo, hi);
    DistinctSize(run[0].caches[h][16..]);
  }

  // ---------------------------------------------------------------- buddy_alloc

  /** Hart h, its cache c throughout, is allocating a block of order k. */
  ghost predicate Grabbing(c: seq<nat>, k: nat, s: State, h: nat, a: Account)
    requires h < |s.pcs| == |s.caches|
  {
    && s.caches[h] == c
    && match s.pcs[h]
       case Idle => k < 11 && GrabbedOne(s, k, a)
       case Spin(task) => k < 11 && task == Grab(k) && a == NOTHING
       case Swap(task) => k < 11 && task == Grab(k) && a == NOTHING
       case Locked(task) =>
         k < 11 && if task.Finish? then GrabbedOne(s, k, a)
         else (task == Grab(k) || (task.Fail? && Exhausted(s.pool.free, k))) && a == NOTHING
       case Splitting(task, _) => k < 11 && task == Grab(k) && a == NOTHING
       case Halted => (k >= 11 || Exhausted(s.pool.free, k)) && a == NOTHING
       case _ => false
  }

  ghost predicate GrabbedOne(s: State, k: nat, a: Account) {
    exists x :: x in s.pool.live && s.pool.live[x] == k && a == Account({x}, {}, {x}, {})
  }

  lemma GrabOwnStep(c: seq<nat>, k: nat, s: State, h: nat, a: Account, t: State, lo: nat, hi: nat)
    requires GoodState(s, lo, hi) && Busy(s, h) && StepBy(s, h, t) && Grabbing(c, k, s, h, a)
    ensures h < |t.pcs| == |t.caches| && Grabbing(c, k, t, h, Charged(a, s, t))
  {
    if s.pcs[h].Splitting? {
      TakeForClient(c, k, s, h, a, t, lo, hi);
    } else if s.pcs[h] == Locked(Finish) {
      var x :| x in s.pool.live && s.pool.live[x] == k && a == Account({x}, {}, {x}, {});
      assert x in t.pool.live && Charged(a, s, t) == a;
    }
  }

  lemma TakeForClient(c: seq<nat>, k: nat, s: State, h: nat, a: Account, t: State, lo: nat, hi: nat)
    requires GoodState(s, lo, hi) && h < |s.pcs| && s.pcs[h].Splitting? && StepBy(s, h, t) && Grabbing(c, k, s, h, a)
    ensures h < |t.pcs| == |t.caches| && Grabbing(c, k, t, h, Charged(a, s, t))
  {
    var r := s.pcs[h].block;
    assert PoolAt(s.pool, s.pcs[h], lo, hi);
    assert r in s.held ==> At(s, Hand(r), r);
    if s.pool.free[r] <= k {
      assert r in t.pool.live && t.held - s.held == {r};
    }
  }

  lemma GrabCall(run: seq<State>, hs: seq<nat>, h: nat, k: nat, lo: nat, hi: nat)
    requires CallOf(run, hs, h, BuddyAlloc(k)) && GoodState(run[0], lo, hi)
    ensures GoodState(run[|hs|], lo, hi) && h < |run[|hs|].pcs|
    ensures Grabbing(run[0].caches[h], k, run[|hs|], h, Total(run, hs, h))
  {
    var c := run[0].caches[h];
    var kept := iset s: State, a: Account | GoodState(s, lo, hi) && h < |s.pcs| && Grabbing(c, k, s, h, a) :: (s, a);
    AfterFirst(run, hs, h, BuddyAlloc(k), lo, hi);
    assert Grabbing(c, k, run[1], h, Tally(run, hs, h, 1));
    forall s, a, t | (s, a) in kept && Busy(s, h) && StepBy(s, h, t)
      ensures (t, Charged(a, s, t)) in kept
    {
      StepKeepsGood(s, h, t, lo, hi);
      GrabOwnStep(c, k, s, h, a, t, lo, hi);
    }
    forall s, a, g, t | (s, a) in kept && Busy(s, h) && g != h && StepBy(s, g, t)
      ensures (t, a) in kept
    {
      StepKeepsGood(s, g, t, lo, hi);
      OthersLeave(s, g, t, h, lo, hi);
    }
    KeptByCall(kept, run, hs, h, |hs|);
  }

  /**
   buddy_alloc: one block of exactly the order asked for, and no cache touched, or a panic with no block as
   large.  Orders from 11 on always panic.
   */
  lemma BuddyAllocTakesOne(run: seq<State>, hs: seq<nat>, h: nat, k: nat, lo: nat, hi: nat)
    requires CallOf(run, hs, h, BuddyAlloc(k)) && GoodState(run[0], lo, hi)
    ensures GoodState(run[|hs|], lo, hi) && h < |run[|hs|].pcs| && run[|hs|].caches[h] == run[0].caches[h]
    ensures var s, a := run[|hs|], Total(run, hs, h);
            && a.gave == {} && a.dropped == {}
            && if s.pcs[h].Idle? then
                 k < 11 && exists x :: x in s.pool.live && s.pool.live[x] == k && a.took == {x} && a.handed == {x}
               else
                 s.pcs[h].Halted? && (k >= 11 || Exhausted(s.pool.free, k)) && a.took == {} && a.handed == {}
  {
    GrabCall(run, hs, h, k, lo, hi);
  }

  // ---------------------------------------------------------------- buddy_free, and pfree of larger blocks

  /** Hart h, its cache c throughout, is giving back the block p. */
  ghost predicate Returning(c: seq<nat>, p: nat, s: State, h: nat, a: Account)
    requires h < |s.pcs| == |s.caches|
  {
    && s.caches[h] == c
    && match s.pcs[h]
       case Idle => a == Account({}, {p}, {}, {p})
       case Spin(task) => task == GiveBack(p) && a == Account({}, {}, {}, {p})
       case Swap(task) => task == GiveBack(p) && a == Account({}, {}, {}, {p})
       case Locked(task) =>
         (task == GiveBack(p) && a == Account({}, {}, {}, {p})) || (task.Finish? && a == Account({}, {p}, {}, {p}))
       case Merging(task, _, _) => task.Finish? && a == Account({}, {p}, {}, {p})
       case _ => false
  }

  lemma ReturnOwnStep(c: seq<nat>, p: nat, s: State, h: nat, a: Account, t: State)
    requires Busy(s, h) && StepBy(s, h, t) && Returning(c, p, s, h, a)
    ensures h < |t.pcs| == |t.caches| && Returning(c, p, t, h, Charged(a, s, t))
  {
  }

  lemma ReturnFirst(s: State, h: nat, call: Call, p: nat, t: State)
    requires h < |s.pcs| == |s.caches| && Begins(s, h, call, t)
    requires call == BuddyFree(p) || (call == Pfree(p) && p in s.pool.live && s.pool.live[p] != 0)
    ensures h < |t.pcs| == |t.caches| && Returning(s.caches[h], p, t, h, Charged(NOTHING, s, t))
  {
  }

  lemma ReturnCall(run: seq<State>, hs: seq<nat>, h: nat, call: Call, c: seq<nat>, p: nat, lo: nat, hi: nat)
    requires CallOf(run, hs, h, call) && GoodState(run[1], lo, hi) && h < |run[1].pcs|
    requires Returning(c, p, run[1], h, Tally(run, hs, h, 1))
    ensures GoodState(run[|hs|], lo, hi) && h < |run[|hs|].pcs|
    ensures Returning(c, p, run[|hs|], h, Total(run, hs, h))
  {
    var kept := iset s: State, a: Account | GoodState(s, lo, hi) && h < |s.pcs| && Returning(c, p, s, h, a) :: (s, a);
    forall s, a, t | (s, a) in kept && Busy(s, h) && StepBy(s, h, t)
      ensures (t, Charged(a, s, t)) in kept
    {
      StepKeepsGood(s, h, t, lo, hi);
      ReturnOwnStep(c, p, s, h, a, t);
    }
    forall s, a, g, t | (s, a) in kept && Busy(s, h) && g != h && StepBy(s, g, t)
      ensures (t, a) in kept
    {
      StepKeepsGood(s, g, t, lo, hi);
      OthersLeave(s, g, t, h, lo, hi);
    }
    KeptByCall(kept, run, hs, h, |hs|);
  }

  /**
   buddy_free of any block, and pfree of a block of more than one page: the block goes back to the pool,
   and no cache is touched.
   */
  lemma FreeReturnsBlock(run: seq<State>, hs: seq<nat>, h: nat, call: Call, p: nat, lo: nat, hi: nat)
    requires CallOf(run, hs, h, call) && GoodState(run[0], lo, hi)
    requires call == BuddyFree(p) || (call == Pfree(p) && p in run[0].pool.live && run[0].pool.live[p] != 0)
    ensures GoodState(run[|hs|], lo, hi) && h < |run[|hs|].pcs| && run[|hs|].pcs[h].Idle?
    ensures run[|hs|].caches[h] == run[0].caches[h]
    ensures Total(run, hs, h) == Account({}, {p}, {}, {p})
  {
    AfterFirst(run, hs, h, call, lo, hi);
    ReturnFirst(run[0], h, call, p, run[1]);
    ReturnCall(run, hs, h, call, run[0].caches[h], p, lo, hi);
  }

  // ---------------------------------------------------------------- calls that stay on their cache

  lemma HeldNotCached(s: State, h: nat, i: nat)
    requires Owned(s) && h < |s.caches| && i < |s.caches[h]|
    ensures s.caches[h][i] !in s.held
  {
    assert At(s, Slot(h, i), s.caches[h][i]);
    assert At(s, Hand(s.caches[h][i]), s.caches[h][i]) <==> s.caches[h][i] in s.held;
  }

  /** alloc_page with a page cached hands out the youngest one, in one step, far from the lock. */
  lemma AllocPagePops(run: seq<State>, hs: seq<nat>, h: nat, lo: nat, hi: nat)
    requires CallOf(run, hs, h, AllocPage) && GoodState(run[0], lo, hi) && run[0].caches[h] != []
    ensures |hs| == 1 && run[1].pcs == run[0].pcs && run[1].lock == run[0].lock && run[1].pool == run[0].pool
    ensures var c := run[0].caches[h];
            && run[1].caches == run[0].caches[h := c[..|c| - 1]]
            && c[|c| - 1] !in run[0].held && run[1].held == run[0].held + {c[|c| - 1]}
  {
    AfterFirst(run, hs, h, AllocPage, lo, hi);
    assert !Busy(run[1], h);
    var c := run[0].caches[h];
    var x := c[|c| - 1];
    HeldNotCached(run[0], h, |c| - 1);
  }

  /** pfree of a single page with room in the cache keeps it there, in one step, far from the lock. */
  lemma PfreePushes(run: seq<State>, hs: seq<nat>, h: nat, p: nat, lo: nat, hi: nat)
    requires CallOf(run, hs, h, Pfree(p)) && GoodState(run[0], lo, hi)
    requires p in run[0].pool.live && run[0].pool.live[p] == 0 && |run[0].caches[h]| < 32
    ensures |hs| == 1 && run[1].pcs == run[0].pcs && run[1].lock == run[0].lock && run[1].pool == run[0].pool
    ensures run[1].caches == run[0].caches[h := run[0].caches[h] + [p]]
    ensures p in run[0].held && run[1].held == run[0].held - {p}
  {
    AfterFirst(run, hs, h, Pfree(p), lo, hi);
    assert !Busy(run[1], h);
  }

  // ---------------------------------------------------------------- progress

  /** An idle hart can enter any allocation, and free exactly the blocks that clients hold. */
  lemma CallCanBegin(s: State, h: nat, call: Call, lo: nat, hi: nat)
    requires GoodState(s, lo, hi) && h < |s.pcs|
    ensures (exists t :: Begins(s, h, call, t)) <==> (call.Pfree? || call.BuddyFree? ==> call.block in s.held)
  {
    var c := s.caches[h];
    match call
    case AllocPage =>
      var t := if c == [] then WithPc(s, h, Spin(Refill(BATCH)))
               else WithCache(s, h, c[..|c| - 1]).(held := s.held + {c[|c| - 1]});
      assert Begins(s, h, call, t);
    case BuddyAlloc(k) => assert Begins(s, h, call, WithPc(s, h, if k < MAX_ORDER then Spin(Grab(k)) else Halted));
    case Pfree(p) =>
      if p in s.held {
        assert At(s, Hand(p), p);
        var s' := s.(held := s.held - {p});
        var t := if s.pool.live[p] != 0 then WithPc(s', h, Spin(GiveBack(p)))
                 else if |c| == CACHE_SIZE then WithPc(s', h, Spin(Flush(BATCH, p)))
                 else WithCache(s', h, c + [p]);
        assert Begins(s, h, call, t);
      }
    case BuddyFree(p) =>
      if p in s.held {
        assert At(s, Hand(p), p);
        assert Begins(s, h, call, WithPc(s, h, Spin(GiveBack(p))).(held := s.held - {p}));
      }
  }

  /** A hart within a call always has a next step. */
  lemma BusyCanStep(s: State, h: nat, lo: nat, hi: nat)
    requires GoodState(s, lo, hi) && Busy(s, h)
    ensures exists t :: StepBy(s, h, t)
  {
    var c := s.caches[h];
    if Critical(s.pcs[h]) {
      LockHolderCanStep(s, h, lo, hi);
      var t :| HartStep(s, h, t);
      assert StepBy(s, h, t);
    } else if s.pcs[h].Retail? {
      assert PcFits(s.pcs[h], |c|);
      assert StepBy(s, h, WithPc(WithCache(s, h, c[..|c| - 1]), h, Idle).(held := s.held + {c[|c| - 1]}));
    } else if s.pcs[h].Stash? {
      assert StepBy(s, h, WithPc(WithCache(s, h, c + [s.pcs[h].page]), h, Idle));
    } else {
      SpinCanStep(s, h);
    }
  }

  lemma SpinCanStep(s: State, h: nat)
    requires h < |s.pcs| == |s.caches| && (s.pcs[h].Spin? || s.pcs[h].Swap?)
    ensures exists t :: StepBy(s, h, t)
  {
    var task := s.pcs[h].task;
    var t := if s.pcs[h].Spin? then if s.lock == 0 then WithPc(s, h, Swap(task)) else s
             else WithPc(s, h, if s.lock == 0 then Locked(task) else Spin(task)).(lock := 1);
    assert StepBy(s, h, t);
  }

  /** A hart that spins on a free lock is inside after two undisturbed steps. */
  lemma FreeLockIsTaken(s: State, h: nat, t: State, u: State)
    requires StepBy(s, h, t) && StepBy(t, h, u) && s.lock == 0 && s.pcs[h].Spin?
    ensures u.pcs == s.pcs[h := Locked(s.pcs[h].task)] && u.lock == 1
    ensures u.pool == s.pool && u.caches == s.caches && u.held == s.held
  {
  }

  /** The search over the lists settles on a free block of the smallest sufficient order. */
  lemma FindsSmallest(s: State, h: nat, t: State, task: Task, r: nat, p: nat)
    requires StepBy(s, h, t) && s.pcs[h].Locked? && t.pcs == s.pcs[h := Splitting(task, r)] && p in s.pool.free
    ensures s.pcs[h] == Locked(task) && t.pool == s.pool && r in s.pool.free
    ensures var k := if task.Grab? then task.order else 0;
            s.pool.free[r] >= k && (s.pool.free[p] >= k ==> s.pool.free[r] <= s.pool.free[p])
  {
    assert t.pcs[h] == Splitting(task, r);
  }

  // ---------------------------------------------------------------- no hart keeps the lock for long

  /** Steps a task has yet to make from the top of its loop: at most twelve for each page or block. */
  function TaskSteps(task: Task): (n: nat) {
    match task
    case Refill(left) => 12 * left + 1
    case Grab(_) => 13
    case Flush(left, _) => 12 * left + 1
    case GiveBack(_) => 13
    case Finish => 1
    case Fail => 1
  }

  ghost function StepsLeft(s: State, h: nat): (n: int)
    requires h < |s.pcs|
  {
    match s.pcs[h]
    case Locked(task) => TaskSteps(task)
    case Splitting(task, r) =>
      (if task.Refill? then 12 * (task.left - 1) else 0) + 2 + if r in s.pool.free then s.pool.free[r] else 0
    case Merging(task, _, k) => TaskSteps(task) + MAX_ORDER - k
    case _ => 0
  }

  lemma BelowTop(f: Blocks, g: Blocks, p: nat, lo: nat, hi: nat)
    requires p in f && f.Keys !! g.Keys && (Tiling(f + g, lo, hi) || Tiling(g + f, lo, hi))
    ensures f[p] < MAX_ORDER
  {
    assert (f + g)[p] == f[p] && (g + f)[p] == f[p];
  }

  lemma SplittingFits(s: State, h: nat, lo: nat, hi: nat)
    requires GoodState(s, lo, hi) && h < |s.pcs| && s.pcs[h].Splitting?
    ensures s.pcs[h].block in s.pool.free && s.pool.free[s.pcs[h].block] < MAX_ORDER
    ensures s.pcs[h].task.Grab? || (s.pcs[h].task.Refill? && 0 < s.pcs[h].task.left <= 16)
  {
    assert PoolAt(s.pool, s.pcs[h], lo, hi) && PcFits(s.pcs[h], |s.caches[h]|);
    BelowTop(s.pool.free, s.pool.live, s.pcs[h].block, lo, hi);
  }

  lemma MergingFits(s: State, h: nat, lo: nat, hi: nat)
    requires GoodState(s, lo, hi) && h < |s.pcs| && s.pcs[h].Merging?
    ensures s.pcs[h].order < MAX_ORDER
    ensures s.pcs[h].task.Finish? || (s.pcs[h].task.Flush? && s.pcs[h].task.left < 16)
  {
    assert PoolAt(s.pool, s.pcs[h], lo, hi) && PcFits(s.pcs[h], |s.caches[h]|);
    BelowTop(s.pool.live[s.pcs[h].block := s.pcs[h].order], s.pool.free, s.pcs[h].block, lo, hi);
  }

  lemma StepsBounded(s: State, h: nat, lo: nat, hi: nat)
    requires GoodState(s, lo, hi) && h < |s.pcs| && Critical(s.pcs[h])
    ensures 0 < StepsLeft(s, h) <= 193
  {
    match s.pcs[h]
    case Locked(_) => assert PcFits(s.pcs[h], |s.caches[h]|);
    case Splitting(_, _) => SplittingFits(s, h, lo, hi);
    case Merging(_, _, _) => MergingFits(s, h, lo, hi);
  }

  lemma LockedCounts(s: State, h: nat, t: State)
    requires StepBy(s, h, t) && s.pcs[h].Locked? && h < |t.pcs|
    requires t.pcs[h].Splitting? ==> var r := t.pcs[h].block; r in t.pool.free && t.pool.free[r] < MAX_ORDER
    ensures StepsLeft(t, h) < StepsLeft(s, h)
  {
  }

  lemma SplittingCounts(s: State, h: nat, t: State, lo: nat, hi: nat)
    requires GoodState(s, lo, hi) && StepBy(s, h, t) && s.pcs[h].Splitting? && h < |t.pcs|
    ensures StepsLeft(t, h) < StepsLeft(s, h)
  {
    SplittingFits(s, h, lo, hi);
  }

  lemma MergingCounts(s: State, h: nat, t: State)
    requires StepBy(s, h, t) && s.pcs[h].Merging? && s.pcs[h].order < MAX_ORDER && h < |t.pcs|
    ensures StepsLeft(t, h) < StepsLeft(s, h)
  {
  }

  /** Hart h's own steps inside the lock use up its steps; nobody else's add to them. */
  lemma StepCounts(s: State, g: nat, t: State, h: nat, lo: nat, hi: nat)
    requires GoodState(s, lo, hi) && StepBy(s, g, t) && h < |s.pcs| && Critical(s.pcs[h])
    ensures GoodState(t, lo, hi) && h < |t.pcs|
    ensures StepsLeft(t, h) <= StepsLeft(s, h) - if g == h then 1 else 0
  {
    StepKeepsGood(s, g, t, lo, hi);
    if g != h {
      OthersLeave(s, g, t, h, lo, hi);
    } else if s.pcs[h].Locked? {
      if t.pcs[h].Splitting? {
        SplittingFits(t, h, lo, hi);
      }
      LockedCounts(s, h, t);
    } else if s.pcs[h].Splitting? {
      SplittingCounts(s, h, t, lo, hi);
    } else {
      MergingFits(s, h, lo, hi);
      MergingCounts(s, h, t);
    }
  }

  ghost predicate Inside(s: State, h: nat) {
    h < |s.pcs| && Critical(s.pcs[h])
  }

  /** How many of the first n steps are hart h's. */
  ghost function OwnSteps(hs: seq<nat>, h: nat, n: nat): (m: nat)
    requires n <= |hs|
  {
    if n == 0 then 0 else OwnSteps(hs, h, n - 1) + if hs[n - 1] == h then 1 else 0
  }

  /** What every step keeps of a state and of the steps hart h still has, starting from k of them. */
  lemma {:induction false} KeptWhileInside(
        kept: iset<(State, int)>, step: iset<(State, nat, State)>, run: seq<State>, hs: seq<nat>, h: nat, k: int, n: nat)
    requires n <= |hs| == |run| - 1 && (run[0], k) in kept && forall i | 0 <= i < n :: (run[i], hs[i], run[i + 1]) in step
    requires forall s, m, t | (s, m) in kept && (s, h, t) in step :: (t, m - 1) in kept
    requires forall s, m, g, t | (s, m) in kept && g != h && (s, g, t) in step :: (t, m) in kept
    ensures (run[n], k - OwnSteps(hs, h, n)) in kept
    decreases n
  {
    if n > 0 {
      KeptWhileInside(kept, step, run, hs, h, k, n - 1);
      assert (run[n - 1], hs[n - 1], run[n - 1 + 1]) in step;
    }
  }

  ghost function InsideSteps(h: nat): (step: iset<(State, nat, State)>) {
    iset s: State, g: nat, t: State | Inside(s, h) && StepBy(s, g, t) :: (s, g, t)
  }

  lemma RunInside(run: seq<State>, hs: seq<nat>, h: nat, i: nat)
    requires Scheduled(run, hs) && i < |hs| && Inside(run[i], h)
    ensures (run[i], hs[i], run[i + 1]) in InsideSteps(h)
  {
    assert StepBy(run[i], hs[i], run[i + 1]);
  }

  /** Good states in which hart h has no more than m steps left. */
  ghost function FewLeft(h: nat, lo: nat, hi: nat): (kept: iset<(State, int)>) {
    iset s: State, m: int | GoodState(s, lo, hi) && h < |s.pcs| && StepsLeft(s, h) <= m :: (s, m)
  }

  lemma FewerLeft(s: State, m: int, g: nat, t: State, h: nat, lo: nat, hi: nat)
    requires (s, m) in FewLeft(h, lo, hi) && (s, g, t) in InsideSteps(h)
    ensures (t, if g == h then m - 1 else m) in FewLeft(h, lo, hi)
  {
    StepCounts(s, g, t, h, lo, hi);
  }

  lemma StepsRunOut(run: seq<State>, hs: seq<nat>, h: nat, lo: nat, hi: nat)
    requires |run| == |hs| + 1 && h < |run[0].pcs| && (run[0], StepsLeft(run[0], h)) in FewLeft(h, lo, hi)
    requires forall i | 0 <= i < |hs| :: (run[i], hs[i], run[i + 1]) in InsideSteps(h)
    ensures (run[|hs|], StepsLeft(run[0], h) - OwnSteps(hs, h, |hs|)) in FewLeft(h, lo, hi)
  {
    var kept, step := FewLeft(h, lo, hi), InsideSteps(h);
    forall s, m, g, t | (s, m) in kept && (s, g, t) in step
      ensures (t, if g == h then m - 1 else m) in kept
    {
      FewerLeft(s, m, g, t, h, lo, hi);
    }
    KeptWhileInside(kept, step, run, hs, h, StepsLeft(run[0], h), |hs|);
  }

  /** However the harts interleave, one that stays inside the lock makes at most 192 steps there. */
  lemma LockHeldBriefly(run: seq<State>, hs: seq<nat>, h: nat, lo: nat, hi: nat)
    requires Scheduled(run, hs) && GoodState(run[0], lo, hi)
    requires forall i | 0 <= i < |run| :: Inside(run[i], h)
    ensures OwnSteps(hs, h, |hs|) <= 192
  {
    assert Inside(run[0], h) && Inside(run[|hs|], h);
    forall i | 0 <= i < |hs|
      ensures (run[i], hs[i], run[i + 1]) in InsideSteps(h)
    {
      RunInside(run, hs, h, i);
    }
    StepsRunOut(run, hs, h, lo, hi);
    StepsBounded(run[0], h, lo, hi);
    StepsBounded(run[|hs|], h, lo, hi);
  }

  // ---------------------------------------------------------------- calls that nobody disturbs return

  /** Steps hart h makes until its call is over, if it finds the lock free. */
  ghost function Alone(s: State, h: nat): (n: int)
    requires h < |s.pcs|
  {
    match s.pcs[h]
    case Spin(_) => 196
    case Swap(_) => 195
    case Retail => 1
    case Stash(_) => 1
    case Idle => 0
    case Halted => 0
    case _ => StepsLeft(s, h) + 1
  }

  ghost predicate Unhindered(s: State, h: nat, lo: nat, hi: nat) {
    GoodState(s, lo, hi) && h < |s.pcs| && (s.pcs[h].Spin? || s.pcs[h].Swap? ==> s.lock == 0)
  }

  lemma AloneCounts(s: State, h: nat, t: State, lo: nat, hi: nat)
    requires Unhindered(s, h, lo, hi) && Busy(s, h) && StepBy(s, h, t)
    ensures Unhindered(t, h, lo, hi) && 0 <= Alone(t, h) < Alone(s, h)
  {
    StepKeepsGood(s, h, t, lo, hi);
    if Critical(t.pcs[h]) {
      StepsBounded(t, h, lo, hi);
    }
    if Critical(s.pcs[h]) {
      StepCounts(s, h, t, h, lo, hi);
      StepsBounded(s, h, lo, hi);
    }
    AloneMoves(s, h, t);
  }

  lemma AloneMoves(s: State, h: nat, t: State)
    requires Busy(s, h) && StepBy(s, h, t) && h < |t.pcs| && (s.pcs[h].Spin? || s.pcs[h].Swap? ==> s.lock == 0)
    ensures s.pcs[h].Spin? ==> t.pcs[h].Swap? && t.lock == 0
    ensures s.pcs[h].Swap? ==> t.pcs[h].Locked?
    ensures Critical(s.pcs[h]) ==> !t.pcs[h].Spin? && !t.pcs[h].Swap?
    ensures s.pcs[h].Retail? || s.pcs[h].Stash? ==> t.pcs[h].Idle?
  {
  }

  /** The rest of a call, when no other hart moves. */
  ghost predicate RestOf(run: seq<State>, hs: seq<nat>, h: nat) {
    && Scheduled(run, hs) && (forall i | 0 <= i < |hs| :: hs[i] == h)
    && (forall i | 0 <= i < |hs| :: Busy(run[i], h)) && !Busy(run[|hs|], h)
  }

  lemma {:induction false} Finishes(s: State, h: nat, lo: nat, hi: nat) returns (run: seq<State>, hs: seq<nat>)
    requires Unhindered(s, h, lo, hi)
    ensures RestOf(run, hs, h) && run[0] == s
    decreases Alone(s, h)
  {
    if !Busy(s, h) {
      run, hs := [s], [];
    } else {
      BusyCanStep(s, h, lo, hi);
      var t :| StepBy(s, h, t);
      AloneCounts(s, h, t, lo, hi);
      run, hs := Finishes(t, h, lo, hi);
      OneBefore(s, run, hs, h);
      run, hs := [s] + run, [h] + hs;
    }
  }

  lemma OneBefore(s: State, run: seq<State>, hs: seq<nat>, h: nat)
    requires RestOf(run, hs, h) && Busy(s, h) && StepBy(s, h, run[0])
    ensures RestOf([s] + run, [h] + hs, h)
  {
    forall i | 0 <= i < |hs| + 1
      ensures StepBy(([s] + run)[i], ([h] + hs)[i], ([s] + run)[i + 1]) && Busy(([s] + run)[i], h) && ([h] + hs)[i] == h
    {
      if i > 0 {
        assert StepBy(run[i - 1], hs[i - 1], run[i - 1 + 1]);
      }
    }
  }

  /** With the lock free, any call that can be entered returns or panics if its hart alone moves. */
  lemma CallReturns(s: State, h: nat, call: Call, lo: nat, hi: nat) returns (run: seq<State>, hs: seq<nat>)
    requires GoodState(s, lo, hi) && h < |s.pcs| && s.pcs[h].Idle? && s.lock == 0
    requires call.Pfree? || call.BuddyFree? ==> call.block in s.held
    ensures CallOf(run, hs, h, call) && run[0] == s && IsInterleaving(run)
  {
    CallCanBegin(s, h, call, lo, hi);
    var t :| Begins(s, h, call, t);
    assert StepBy(s, h, t);
    StepKeepsGood(s, h, t, lo, hi);
    assert t.lock == 0;
    var rest, gs := Finishes(t, h, lo, hi);
    run, hs := [s] + rest, [h] + gs;
    FirstBefore(s, rest, gs, h, call);
    ScheduledInterleaves(run, hs);
  }

  lemma FirstBefore(s: State, rest: seq<State>, gs: seq<nat>, h: nat, call: Call)
    requires RestOf(rest, gs, h) && StepBy(s, h, rest[0]) && s.pcs[h].Idle? && Begins(s, h, call, rest[0])
    ensures CallOf([s] + rest, [h] + gs, h, call)
  {
    var run, hs := [s] + rest, [h] + gs;
    forall i | 0 <= i < |hs|
      ensures StepBy(run[i], hs[i], run[i + 1]) && (i > 0 ==> Busy(run[i], h))
    {
      if i > 0 {
        assert StepBy(rest[i - 1], gs[i - 1], rest[i - 1 + 1]);
      }
    }
  }

  lemma ScheduledInterleaves(run: seq<State>, hs: seq<nat>)
    requires Scheduled(run, hs)
    ensures IsInterleaving(run)
  {
    forall i | 0 <= i < |run| - 1
      ensures Steps(run[i], run[i + 1])
    {
      assert StepBy(run[i], hs[i], run[i + 1]);
    }
  }
}
