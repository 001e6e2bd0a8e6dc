/**
 alloc_page as written (kernel/pmm.c): with an empty cache it takes the buddy lock and,
 holding it, calls buddy_alloc, which takes the same lock again.  Harts running it beside
 pfree and the other users of the lock, one step for each access to the lock word.
 */
module NestedLock {
  import opened PageCaches

  /** What a hart acquires the lock for. */
  datatype Purpose =
    | Refill              // alloc_page with an empty cache
    | Nested(done: nat)   // buddy_alloc inside the refill, after so many pages
    | Flush               // pfree with a full cache
    | Other               // buddy_alloc or buddy_free on its own, pfree of a larger block

  datatype Pc =
    | Idle
    | Entry                   // alloc_page called; about to test the cache count
    | Spin(purpose: Purpose)  // lock_acquire: about to read the lock word
    | Swap(purpose: Purpose)  // the word was 0: about to swap in 1
    | Inside(purpose: Purpose)
    | Unlock                  // refilled; about to release the outer lock
    | Retail                  // about to pop the page to return

  /** The lock word, and each hart's program counter and cache count. */
  datatype State = State(lock: nat, pcs: seq<Pc>, counts: seq<nat>)

  ghost function Moved(s: State, h: nat, lock: nat, pc: Pc, count: nat): (t: State)
    requires h < |s.pcs| == |s.counts|
  {
    State(lock, s.pcs[h := pc], s.counts[h := count])
  }

  ghost predicate HartStep(s: State, h: nat, t: State)
    requires h < |s.pcs| == |s.counts|
  {
    var c := s.counts[h];
    match s.pcs[h]
    case Idle =>
      || t == Moved(s, h, s.lock, Entry, c)
      || t == (if c < CACHE_SIZE then Moved(s, h, s.lock, Idle, c + 1) else Moved(s, h, s.lock, Spin(Flush), c))
      || t == Moved(s, h, s.lock, Spin(Other), c)
    case Entry => t == Moved(s, h, s.lock, if c == 0 then Spin(Refill) else Retail, c)
    case Spin(w) => t == Moved(s, h, s.lock, if s.lock == 0 then Swap(w) else Spin(w), c)
    case Swap(w) => t == Moved(s, h, 1, if s.lock == 0 then Inside(w) else Spin(w), c)
    case Inside(w) =>
      (match w
       case Refill => t == Moved(s, h, s.lock, Spin(Nested(0)), c)
       case Nested(n) => t == Moved(s, h, 0, if n + 1 < BATCH then Spin(Nested(n + 1)) else Unlock, c + 1)
       case Flush => c >= BATCH && t == Moved(s, h, 0, Idle, c - BATCH + 1)
       case Other => t == Moved(s, h, 0, Idle, c))
    case Unlock => t == Moved(s, h, 0, Retail, c)
    case Retail => c > 0 && t == Moved(s, h, s.lock, Idle, c - 1)
  }

  ghost predicate Steps(s: State, t: State) {
    |s.pcs| == |s.counts| && exists h :: 0 <= h < |s.pcs| && HartStep(s, h, t)
  }

  ghost predicate IsInterleaving(run: seq<State>) {
    |run| > 0 && forall i | 0 <= i < |run| - 1 :: Steps(run[i], run[i + 1])
  }

  // ---------------------------------------------------------------- who holds the lock

  predicate Holds(pc: Pc) {
    (pc.Inside? && !pc.purpose.Nested?) || pc == Spin(Nested(0))
  }

  /** Past the inner acquire, where no hart ever comes. */
  predicate Beyond(pc: Pc) {
    pc.Unlock? || ((pc.Swap? || pc.Inside?) && pc.purpose.Nested?) || (pc.Spin? && pc.purpose.Nested? && pc.purpose.done > 0)
  }

  ghost predicate Sound(s: State) {
    && |s.pcs| == |s.counts| && (s.lock == 0 || s.lock == 1)
    && (forall h | 0 <= h < |s.pcs| :: !Beyond(s.pcs[h]))
    && (forall h | 0 <= h < |s.pcs| && Holds(s.pcs[h]) :: s.lock == 1)
    && (forall h, g | 0 <= h < |s.pcs| && 0 <= g < |s.pcs| && Holds(s.pcs[h]) && Holds(s.pcs[g]) :: h == g)
  }

  lemma StepKeepsSound(s: State, h: nat, t: State)
    requires Sound(s) && h < |s.pcs| && HartStep(s, h, t)
    ensures Sound(t)
  {
    var pc, lock := t.pcs[h], t.lock;
    if s.pcs[h] == Spin(Nested(0)) {
      assert Holds(s.pcs[h]);
    }
    MoveKeepsSound(s, h, lock, pc, t.counts[h], t);
  }

  /** A hart comes to hold the lock only when it was free or its own, and frees it only when it holds it. */
  lemma MoveKeepsSound(s: State, h: nat, lock: nat, pc: Pc, count: nat, t: State)
    requires Sound(s) && h < |s.pcs| && t == Moved(s, h, lock, pc, count) && !Beyond(pc) && (lock == 0 || lock == 1)
    requires Holds(pc) ==> lock == 1 && (s.lock == 0 || Holds(s.pcs[h]))
    requires lock == 0 ==> s.lock == 0 || Holds(s.pcs[h])
    ensures Sound(t)
  {
  }

  lemma {:induction false} InterleavingKeepsSound(run: seq<State>, i: nat)
    requires IsInterleaving(run) && Sound(run[0]) && i < |run|
    ensures Sound(run[i]) && |run[i].pcs| == |run[0].pcs|
    decreases i
  {
    if i > 0 {
      InterleavingKeepsSound(run, i - 1);
      AnyStepKeepsSound(run[i - 1], run[i - 1 + 1]);
    }
  }

  lemma AnyStepKeepsSound(s: State, t: State)
    requires Sound(s) && Steps(s, t)
    ensures Sound(t) && |t.pcs| == |s.pcs|
  {
    var h :| 0 <= h < |s.pcs| && HartStep(s, h, t);
    StepKeepsSound(s, h, t);
  }

  // ---------------------------------------------------------------- a call with an empty cache

  /** Hart h called alloc_page with an empty cache and has got no page yet. */
  ghost predicate Refilling(s: State, h: nat)
    requires |s.pcs| == |s.counts|
  {
    && h < |s.pcs| && s.counts[h] == 0
    && var pc := s.pcs[h];
       pc == Entry || ((pc.Spin? || pc.Swap? || pc.Inside?) && pc.purpose == Refill) || pc == Spin(Nested(0))
  }

  /** Neither its own steps nor those of other harts get it any further. */
  lemma StaysRefilling(s: State, g: nat, t: State, h: nat)
    requires Sound(s) && g < |s.pcs| && HartStep(s, g, t) && Refilling(s, h)
    ensures Sound(t) && Refilling(t, h)
  {
    StepKeepsSound(s, g, t);
    if g == h && s.pcs[h] == Spin(Nested(0)) {
      assert Holds(s.pcs[h]);
    }
  }

  lemma {:induction false} RefillNeverReturns(run: seq<State>, h: nat, i: nat)
    requires IsInterleaving(run) && Sound(run[0]) && Refilling(run[0], h) && i < |run|
    ensures Sound(run[i]) && Refilling(run[i], h)
    decreases i
  {
    if i > 0 {
      RefillNeverReturns(run, h, i - 1);
      AnyStepStaysRefilling(run[i - 1], run[i - 1 + 1], h);
    }
  }

  lemma AnyStepStaysRefilling(s: State, t: State, h: nat)
    requires Sound(s) && Refilling(s, h) && Steps(s, t)
    ensures Sound(t) && Refilling(t, h)
  {
    var g :| 0 <= g < |s.pcs| && HartStep(s, g, t);
    StaysRefilling(s, g, t, h);
  }

  // ---------------------------------------------------------------- the allocator is dead

  /** A hart at the inner acquire holds the lock it waits for: nobody else is inside. */
  ghost predicate Dead(s: State, h: nat) {
    && Sound(s) && h < |s.pcs| && s.pcs[h] == Spin(Nested(0)) && s.lock == 1
    && forall g | 0 <= g < |s.pcs| :: !s.pcs[g].Inside?
  }

  /** At the outer acquire, for whatever purpose. */
  predicate Waiting(pc: Pc) {
    (pc.Spin? || pc.Swap?) && !pc.purpose.Nested?
  }

  lemma NestedIsDead(s: State, h: nat)
    requires Sound(s) && h < |s.pcs| && s.pcs[h] == Spin(Nested(0))
    ensures Dead(s, h)
  {
    assert Holds(s.pcs[h]);
    forall g | 0 <= g < |s.pcs|
      ensures !s.pcs[g].Inside?
    {
      assert s.pcs[g].Inside? ==> Holds(s.pcs[g]) || Beyond(s.pcs[g]);
    }
  }

  lemma DeathStays(s: State, t: State, h: nat)
    requires Dead(s, h) && Steps(s, t)
    ensures Dead(t, h) && |t.pcs| == |s.pcs|
    ensures forall g | 0 <= g < |s.pcs| && Waiting(s.pcs[g]) :: Waiting(t.pcs[g])
  {
    AnyStepKeepsSound(s, t);
    var g :| 0 <= g < |s.pcs| && HartStep(s, g, t);
    NestedIsDead(t, h);
  }

  /**
   Once one hart has come to the inner acquire, in every later state of every interleaving the lock
   is taken, no hart is inside it, and every hart that waits for it still waits: the whole allocator
   is dead.
   */
  lemma {:induction false} AllocatorDead(run: seq<State>, h: nat, k: nat, i: nat)
    requires IsInterleaving(run) && Sound(run[0]) && k <= i < |run| && h < |run[k].pcs| && run[k].pcs[h] == Spin(Nested(0))
    ensures Dead(run[i], h) && |run[i].pcs| == |run[k].pcs|
    ensures forall g | 0 <= g < |run[k].pcs| && Waiting(run[k].pcs[g]) :: Waiting(run[i].pcs[g])
    decreases i
  {
    InterleavingKeepsSound(run, k);
    NestedIsDead(run[k], h);
    if i > k {
      AllocatorDead(run, h, k, i - 1);
      DeathStays(run[i - 1], run[i - 1 + 1], h);
    }
  }

  // ---------------------------------------------------------------- which calls return

  /** Some interleaving from here brings hart h back from its call. */
  ghost predicate CanReturn(s: State, h: nat) {
    exists run: seq<State> :: IsInterleaving(run) && run[0] == s && ReturnedIn(run[|run| - 1], h)
  }

  ghost predicate ReturnedIn(s: State, h: nat) {
    h < |s.pcs| && s.pcs[h] == Idle
  }

  /** The initial state: lock free, every hart outside any call, caches of any size. */
  ghost predicate Unlocked(s: State) {
    s.lock == 0 && |s.pcs| == |s.counts| && forall h | 0 <= h < |s.pcs| :: s.pcs[h] == Idle
  }

  /**
   In every state of every interleaving from the unlocked state: a call of alloc_page as written
   can return if and only if the hart's cache is not empty at the call.
   */
  lemma ReturnsIffCached(run: seq<State>, i: nat, h: nat)
    requires IsInterleaving(run) && Unlocked(run[0]) && i < |run| && h < |run[i].pcs| && run[i].pcs[h] == Entry
    ensures |run[i].pcs| == |run[i].counts|
    ensures CanReturn(run[i], h) <==> run[i].counts[h] > 0
  {
    InterleavingKeepsSound(run, i);
    var s := run[i];
    if s.counts[h] > 0 {
      var t := Moved(s, h, s.lock, Retail, s.counts[h]);
      var u := Moved(t, h, s.lock, Idle, s.counts[h] - 1);
      assert HartStep(s, h, t) && HartStep(t, h, u);
      var back := [s, t, u];
      assert IsInterleaving(back) && ReturnedIn(back[|back| - 1], h);
    } else if CanReturn(s, h) {
      var back: seq<State> :| IsInterleaving(back) && back[0] == s && ReturnedIn(back[|back| - 1], h);
      RefillNeverReturns(back, h, |back| - 1);
      assert false;
    }
  }

  /** With pages in its cache the call returns in two steps of its own, whatever the lock. */
  lemma CachedReturns(s: State, h: nat, t: State, u: State)
    requires |s.pcs| == |s.counts| && h < |s.pcs| && s.pcs[h] == Entry && s.counts[h] > 0
    requires HartStep(s, h, t) && u == Moved(t, h, t.lock, Idle, t.counts[h] - 1)
    ensures HartStep(t, h, u) && u.counts[h] == s.counts[h] - 1 && u.lock == s.lock
  {
  }

  // ---------------------------------------------------------------- the counts

  /** No cache holds more than 32 pages, and only a full one is being flushed. */
  ghost predicate CountsFit(s: State)
    requires |s.pcs| == |s.counts|
  {
    forall h | 0 <= h < |s.pcs| :: s.counts[h] <= 32 && (Flushes(s.pcs[h]) ==> s.counts[h] == 32)
  }

  predicate Flushes(pc: Pc) {
    (pc.Spin? || pc.Swap? || pc.Inside?) && pc.purpose == Flush
  }

  /**
   From boot on every cache stays within its 32 slots: a page pushed is one page more, a page returned one
   fewer, and a flush leaves 17, since nobody ever completes a refill.
   */
  lemma CountsStayFit(s: State, h: nat, t: State)
    requires Sound(s) && CountsFit(s) && h < |s.pcs| && HartStep(s, h, t)
    ensures |t.pcs| == |t.counts| == |s.pcs| && CountsFit(t)
    ensures forall g | 0 <= g < |s.pcs| && g != h :: t.counts[g] == s.counts[g]
    ensures t.counts[h] == if Flushes(s.pcs[h]) && s.pcs[h].Inside? then 17
                           else if s.pcs[h] == Retail then s.counts[h] - 1
                           else if s.pcs[h] == Idle == t.pcs[h] then s.counts[h] + 1
                           else s.counts[h]
    ensures (s.pcs[h].Spin? || s.pcs[h].Swap? || s.pcs[h].Inside?) && t.pcs[h] == Idle ==> t.lock == 0
  {
  }

  // ---------------------------------------------------------------- the first refill after boot

  ghost predicate Booted(s: State) {
    Unlocked(s) && forall h | 0 <= h < |s.counts| :: s.counts[h] == CACHE_SIZE
  }

  /** Hart h allocates until its cache is empty. */
  lemma {:induction false} Drain(s: State, h: nat) returns (run: seq<State>)
    requires |s.pcs| == |s.counts| && h < |s.pcs| && s.pcs[h] == Idle
    ensures IsInterleaving(run) && run[0] == s
    ensures run[|run| - 1] == Moved(s, h, s.lock, Idle, 0) && |run| == 3 * s.counts[h] + 1
    decreases s.counts[h]
  {
    if s.counts[h] == 0 {
      run := [s];
      assert s == Moved(s, h, s.lock, Idle, 0);
    } else {
      var c := s.counts[h];
      var s1, s2 := Moved(s, h, s.lock, Entry, c), Moved(s, h, s.lock, Retail, c);
      var s3 := Moved(s, h, s.lock, Idle, c - 1);
      assert Moved(s1, h, s.lock, Retail, c) == s2 && Moved(s2, h, s.lock, Idle, c - 1) == s3;
      assert HartStep(s, h, s1) && HartStep(s1, h, s2) && HartStep(s2, h, s3);
      var rest := Drain(s3, h);
      assert Moved(s3, h, s.lock, Idle, 0) == Moved(s, h, s.lock, Idle, 0);
      run := [s, s1, s2] + rest;
      Prepend(s, s1, s2, rest);
    }
  }

  lemma Prepend(s: State, s1: State, s2: State, rest: seq<State>)
    requires IsInterleaving(rest) && Steps(s, s1) && Steps(s1, s2) && Steps(s2, rest[0])
    ensures IsInterleaving([s, s1, s2] + rest)
  {
    var run := [s, s1, s2] + rest;
    forall i | 0 <= i < |run| - 1
      ensures Steps(run[i], run[i + 1])
    {
      if i >= 3 {
        assert run[i] == rest[i - 3] && run[i + 1] == rest[i - 3 + 1];
      }
    }
  }

  /**
   From boot any hart reaches, on its own, a call of alloc_page that can never return: its 33rd, after 32 calls
   of three steps.
   */
  lemma BootReachesDeadlock(s: State, h: nat) returns (run: seq<State>)
    requires Booted(s) && h < |s.pcs|
    ensures IsInterleaving(run) && run[0] == s && |run| == 32 * 3 + 2
    ensures var last := run[|run| - 1];
            h < |last.pcs| == |last.counts| && last.pcs[h] == Entry && last.counts[h] == 0 && !CanReturn(last, h)
  {
    var drained := Drain(s, h);
    var empty := drained[|drained| - 1];
    var call := Moved(empty, h, empty.lock, Entry, 0);
    assert HartStep(empty, h, call);
    run := drained + [call];
    forall i | 0 <= i < |run| - 1
      ensures Steps(run[i], run[i + 1])
    {
      if i < |drained| - 1 {
        assert Steps(drained[i], drained[i + 1]);
      }
    }
    ReturnsIffCached(run, |run| - 1, h);
  }
}
