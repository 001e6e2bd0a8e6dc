/**
 buddy_alloc as written (kernel/pmm.c:194-200) releases the lock before it clears the flags of the
 block it popped.  In between the block is in no list but its flags still say it heads a free block,
 and several harts can be there at once.  Another hart's merge trusts those flags; here is exactly
 when it unlinks such a block a second time, and what that does to the list.
 */
module StaleFlags {
  import opened PowersOfTwo
  import opened BlockTiling
  import opened BuddyPool
  import opened Collections
  import opened RingLists
  import opened BuddySystems

  /** Blocks w are popped and their flags not yet cleared: lists show f free, flags show f and w. */
  ghost predicate Window(rings: seq<seq<nat>>, status: seq<Status>, f: Blocks, w: Blocks) {
    f.Keys !! w.Keys && ListsAgree(rings, f) && FlagsAgree(status, f + w)
  }

  /** Popping the front block of a list, and nothing more, opens the window, or widens it. */
  lemma PopOpensWindow(rings: seq<seq<nat>>, status: seq<Status>, f: Blocks, w: Blocks, n: nat, k: nat)
    requires Window(rings, status, f, w) && Shape(n, rings) && k < MAX_ORDER && rings[k] != []
    ensures var p := rings[k][0];
            p in f && f[p] == k && Window(rings[k := Without(rings[k], 0)], status, f - {p}, w[p := k])
  {
    var p := rings[k][0];
    assert p in rings[k];
    AgreeDel(rings, f, n, k, 0);
    assert (f - {p}) + w[p := k] == f + w;
  }

  /**
   The merge loop of the source on the flags of all pages: some turn unlinks a node that is not
   linked.  The turns before it have unlinked buddies and raised the order of their parents.
   */
  ghost predicate UnlinksUnlinked(status: seq<Status>, linked: set<nat>, q: nat, o: nat)
    decreases MAX_ORDER - o
  {
    o < MAX_ORDER - 1 &&
    var b, c := FlipBit(q, o), ClearBit(q, o);
    && b < |status| && c < |status|
    && status[b].order == o && status[b].isFree && status[b].isHead
    && (b !in linked || UnlinksUnlinked(Merged(status, b, c, o + 1), linked - {b}, c, o + 1))
  }

  ghost function Merged(status: seq<Status>, b: nat, c: nat, order: nat): (r: seq<Status>)
    requires b < |status| && c < |status|
  {
    var cleared := status[b := status[b].(isFree := false, isHead := false)];
    cleared[c := cleared[c].(order := order)]
  }

  /** The same on block sets: the loop from (q, o) comes to take p, of order k, for its buddy. */
  ghost predicate Reaches(f: Blocks, p: nat, k: nat, q: nat, o: nat)
    decreases MAX_ORDER - o
  {
    o < MAX_ORDER - 1 &&
    var b := FlipBit(q, o);
    if b == p then k == o else b in f && f[b] == o && Reaches(f - {b}, p, k, ClearBit(q, o), o + 1)
  }

  lemma MergedAgrees(status: seq<Status>, f: Blocks, b: nat, c: nat, order: nat)
    requires FlagsAgree(status, f) && b in f && c < |status| && (c == b || c !in f)
    ensures FlagsAgree(Merged(status, b, c, order), f - {b})
  {
  }

  /** ... and to take one of the blocks w for its buddy. */
  ghost predicate ReachesAny(f: Blocks, w: Blocks, q: nat, o: nat)
    decreases MAX_ORDER - o
  {
    o < MAX_ORDER - 1 &&
    var b := FlipBit(q, o);
    if b in w then w[b] == o else b in f && f[b] == o && ReachesAny(f - {b}, w, ClearBit(q, o), o + 1)
  }

  lemma {:induction false} ReachesAnyIff(f: Blocks, w: Blocks, q: nat, o: nat)
    requires f.Keys !! w.Keys
    ensures ReachesAny(f, w, q, o) <==> exists p :: p in w && Reaches(f, p, w[p], q, o)
    decreases MAX_ORDER - o
  {
    if o < MAX_ORDER - 1 {
      var b := FlipBit(q, o);
      if b in w {
        assert w[b] == o ==> Reaches(f, b, w[b], q, o);
      } else if b in f && f[b] == o {
        ReachesAnyIff(f - {b}, w, ClearBit(q, o), o + 1);
        forall p | p in w
          ensures Reaches(f, p, w[p], q, o) <==> Reaches(f - {b}, p, w[p], ClearBit(q, o), o + 1)
        {
          ReachesFurther(f, p, w[p], q, o);
        }
      }
    }
  }

  /** The block to free is apart from the free blocks and from every popped one. */
  ghost predicate AllApart(f: Blocks, w: Blocks, q: nat, o: nat) {
    && Canonical(f) && Clear(f, q, o) && Aligned(q, o) && o < MAX_ORDER && q !in w
    && forall p | p in w :: Apart3(f, p, w[p], q, o)
  }

  /** Reading flags is reading block sets, the popped blocks included. */
  lemma {:induction false} FlagsReach(status: seq<Status>, f: Blocks, w: Blocks, q: nat, o: nat)
    requires f.Keys !! w.Keys && FlagsAgree(status, f + w) && q < |status| && AllApart(f, w, q, o)
    ensures UnlinksUnlinked(status, f.Keys, q, o) <==> ReachesAny(f, w, q, o)
    decreases MAX_ORDER - o
  {
    if o < MAX_ORDER - 1 {
      var b := FlipBit(q, o);
      BuddyPair(q, o);
      if b in f && f[b] == o {
        AfterMerge(status, f, w, q, o);
        FlagsReach(Merged(status, b, ClearBit(q, o), o + 1), f - {b}, w, ClearBit(q, o), o + 1);
        FlagTest(status, f + w, b, o);
        AnyFurther(f, w, q, o);
        UnlinksFurther(status, f.Keys, q, o);
      } else {
        FlagsStop(status, f, w, q, o);
      }
    }
  }

  lemma AnyFurther(f: Blocks, w: Blocks, q: nat, o: nat)
    requires f.Keys !! w.Keys && o < MAX_ORDER - 1 && FlipBit(q, o) in f && f[FlipBit(q, o)] == o
    ensures ReachesAny(f, w, q, o) <==> ReachesAny(f - {FlipBit(q, o)}, w, ClearBit(q, o), o + 1)
  {
  }

  lemma UnlinksFurther(status: seq<Status>, linked: set<nat>, q: nat, o: nat)
    requires o < MAX_ORDER - 1 && FlipBit(q, o) < |status| && ClearBit(q, o) < |status| && FlipBit(q, o) in linked
    requires var e := status[FlipBit(q, o)]; e.order == o && e.isFree && e.isHead
    ensures UnlinksUnlinked(status, linked, q, o) <==>
            UnlinksUnlinked(Merged(status, FlipBit(q, o), ClearBit(q, o), o + 1), linked - {FlipBit(q, o)}, ClearBit(q, o), o + 1)
  {
  }

  lemma FlagsStop(status: seq<Status>, f: Blocks, w: Blocks, q: nat, o: nat)
    requires f.Keys !! w.Keys && FlagsAgree(status, f + w) && q < |status| && Aligned(q, o) && o < MAX_ORDER - 1
    requires !(FlipBit(q, o) in f && f[FlipBit(q, o)] == o)
    ensures UnlinksUnlinked(status, f.Keys, q, o) <==> ReachesAny(f, w, q, o)
  {
    BuddyPair(q, o);
    FlagTest(status, f + w, FlipBit(q, o), o);
  }

  lemma FlagTest(status: seq<Status>, g: Blocks, b: nat, o: nat)
    requires FlagsAgree(status, g)
    ensures b < |status| && status[b].order == o && status[b].isFree && status[b].isHead <==> b in g && g[b] == o
  {
  }

  lemma AfterMerge(status: seq<Status>, f: Blocks, w: Blocks, q: nat, o: nat)
    requires f.Keys !! w.Keys && FlagsAgree(status, f + w) && q < |status| && AllApart(f, w, q, o) && o < MAX_ORDER - 1
    requires FlipBit(q, o) in f && f[FlipBit(q, o)] == o
    ensures var b, c := FlipBit(q, o), ClearBit(q, o);
            && b < |status| && c < |status|
            && FlagsAgree(Merged(status, b, c, o + 1), (f - {b}) + w)
            && (f - {b}).Keys == f.Keys - {b} && AllApart(f - {b}, w, c, o + 1)
  {
    BuddyPair(q, o);
    ApartAfterMerge(f, w, q, o, f - {FlipBit(q, o)}, ClearBit(q, o));
    FlagsAfterMerge(status, f, w, FlipBit(q, o), ClearBit(q, o), o);
  }

  lemma ApartAfterMerge(f: Blocks, w: Blocks, q: nat, o: nat, g: Blocks, c: nat)
    requires AllApart(f, w, q, o) && o < MAX_ORDER - 1 && FlipBit(q, o) in f && f[FlipBit(q, o)] == o
    requires g == f - {FlipBit(q, o)} && c == ClearBit(q, o)
    ensures AllApart(g, w, c, o + 1) && c !in g
  {
    AbsorbBuddy(f, q, o);
    ClearMisses(g, c, o + 1);
    forall p | p in w
      ensures c != p && Apart3(g, p, w[p], c, o + 1)
    {
      ParentApart(f, p, w[p], q, o);
    }
  }

  lemma FlagsAfterMerge(status: seq<Status>, f: Blocks, w: Blocks, b: nat, c: nat, o: nat)
    requires f.Keys !! w.Keys && FlagsAgree(status, f + w) && b in f && f[b] == o && c !in w && c !in f - {b} && c < |status|
    ensures b < |status| && FlagsAgree(Merged(status, b, c, o + 1), (f - {b}) + w) && (f - {b}).Keys == f.Keys - {b}
  {
    MergedAgrees(status, f + w, b, c, o + 1);
    assert (f + w) - {b} == (f - {b}) + w;
  }

  /** The block to free, the popped block and the free blocks share no page; the free ones are canonical. */
  ghost predicate Apart3(f: Blocks, p: nat, k: nat, q: nat, o: nat) {
    && Canonical(f) && Clear(f, p, k) && Clear(f, q, o) && Aligned(p, k) && Aligned(q, o)
    && k < MAX_ORDER && o < MAX_ORDER && (p + Pow2(k) <= q || q + Pow2(o) <= p)
  }

  lemma ParentApart(f: Blocks, p: nat, k: nat, q: nat, o: nat)
    requires Apart3(f, p, k, q, o) && o < MAX_ORDER - 1 && FlipBit(q, o) in f && f[FlipBit(q, o)] == o
    ensures Apart3(f - {FlipBit(q, o)}, p, k, ClearBit(q, o), o + 1)
    ensures ClearBit(q, o) !in f - {FlipBit(q, o)} && ClearBit(q, o) != p
  {
    AbsorbBuddy(f, q, o);
    BuddyPair(q, o);
    ClearMisses(f - {FlipBit(q, o)}, ClearBit(q, o), o + 1);
  }

  /** Every page of the run of order k at b is free, or in the block (q, o) about to be freed. */
  ghost predicate FreeBut(f: Blocks, b: nat, k: nat, q: nat, o: nat) {
    forall i: nat | InRun(i, b, k) :: Covered(f, i) || InRun(i, q, o)
  }

  lemma {:induction false} PastOrder(f: Blocks, p: nat, k: nat, q: nat, o: nat)
    requires o > k
    ensures !Reaches(f, p, k, q, o)
    decreases MAX_ORDER - o
  {
    if o < MAX_ORDER - 1 {
      PastOrder(f - {FlipBit(q, o)}, p, k, ClearBit(q, o), o + 1);
    }
  }

  /** When all of the buddy of (q, o) is free, it is one free block. */
  lemma BuddyIsBlock(f: Blocks, q: nat, o: nat)
    requires Canonical(f) && Aligned(q, o) && o < MAX_ORDER - 1 && Clear(f, q, o) && RunCovered(f, FlipBit(q, o), o)
    ensures FlipBit(q, o) in f && f[FlipBit(q, o)] == o
  {
    var b := FlipBit(q, o);
    BuddyPair(q, o);
    var d: nat := FullCoalescing(f, b, o);
    var e: nat := f[d];
    if e > o {
      Nested(ClearBit(q, o), o + 1, d, e);
      assert false;
    }
  }

  lemma ParentInRun(b: nat, k: nat, q: nat, o: nat)
    requires o < k && Aligned(b, k) && Aligned(q, o)
    ensures InRun(q, b, k) <==> InRun(ClearBit(q, o), b, k)
    ensures InRun(q, b, k) ==> forall i: nat | InRun(i, FlipBit(q, o), o) :: InRun(i, b, k) && !InRun(i, q, o)
  {
    BuddyPair(q, o);
    var c := ClearBit(q, o);
    assert Pow2(o + 1) == 2 * Pow2(o);
    if InRun(q, b, k) || InRun(c, b, k) {
      Nested(c, o + 1, b, k);
    }
  }

  /** Absorbing the buddy and growing the block leave the same pages to be covered. */
  lemma FreeButParent(f: Blocks, b: nat, k: nat, q: nat, o: nat)
    requires Disjoint(f) && Aligned(q, o) && FlipBit(q, o) in f && f[FlipBit(q, o)] == o
    ensures FreeBut(f, b, k, q, o) <==> FreeBut(f - {FlipBit(q, o)}, b, k, ClearBit(q, o), o + 1)
  {
    BuddyPair(q, o);
    var d, c := FlipBit(q, o), ClearBit(q, o);
    assert Pow2(o + 1) == 2 * Pow2(o);
    forall i: nat
      ensures Covered(f, i) || InRun(i, q, o) <==> Covered(f - {d}, i) || InRun(i, c, o + 1)
    {
      RemoveUncovers(f, d, i);
      assert InRun(i, d, o) ==> Covers(f, d, i);
      assert InRun(i, c, o + 1) <==> InRun(i, q, o) || InRun(i, d, o);
    }
  }

  /** p is below the top order, block (q, o) lies in the buddy of p, and all the rest of that buddy is free. */
  ghost predicate FillsBuddy(f: Blocks, p: nat, k: nat, q: nat, o: nat) {
    k < MAX_ORDER - 1 && o <= k && InRun(q, FlipBit(p, k), k) && FreeBut(f, FlipBit(p, k), k, q, o)
  }

  /** Exactly when another hart's merge of block (q, o) comes to the popped block. */
  lemma {:induction false} ReachesIff(f: Blocks, p: nat, k: nat, q: nat, o: nat)
    requires Apart3(f, p, k, q, o)
    ensures Reaches(f, p, k, q, o) <==> FillsBuddy(f, p, k, q, o)
    decreases MAX_ORDER - o
  {
    if o > k {
      PastOrder(f, p, k, q, o);
    } else if o == k {
      ReachesAtOrder(f, p, k, q);
    } else {
      NotTheBuddy(p, k, q, o);
      if FlipBit(q, o) in f && f[FlipBit(q, o)] == o {
        ParentApart(f, p, k, q, o);
        FillsFurther(f, p, k, q, o);
        ReachesIff(f - {FlipBit(q, o)}, p, k, ClearBit(q, o), o + 1);
        ReachesFurther(f, p, k, q, o);
      } else {
        StopsBelow(f, p, k, q, o);
      }
    }
  }

  lemma FillsFurther(f: Blocks, p: nat, k: nat, q: nat, o: nat)
    requires Apart3(f, p, k, q, o) && o < k && FlipBit(q, o) in f && f[FlipBit(q, o)] == o
    ensures FillsBuddy(f, p, k, q, o) <==> FillsBuddy(f - {FlipBit(q, o)}, p, k, ClearBit(q, o), o + 1)
  {
    BuddyPair(p, k);
    ParentInRun(FlipBit(p, k), k, q, o);
    FreeButParent(f, FlipBit(p, k), k, q, o);
  }

  lemma ReachesFurther(f: Blocks, p: nat, k: nat, q: nat, o: nat)
    requires o < MAX_ORDER - 1 && FlipBit(q, o) in f && f[FlipBit(q, o)] == o && FlipBit(q, o) != p
    ensures Reaches(f, p, k, q, o) <==> Reaches(f - {FlipBit(q, o)}, p, k, ClearBit(q, o), o + 1)
  {
  }

  lemma StopsBelow(f: Blocks, p: nat, k: nat, q: nat, o: nat)
    requires Apart3(f, p, k, q, o) && o < k && FlipBit(q, o) != p && !(FlipBit(q, o) in f && f[FlipBit(q, o)] == o)
    ensures !Reaches(f, p, k, q, o)
    ensures !FillsBuddy(f, p, k, q, o)
  {
    var b := FlipBit(p, k);
    BuddyPair(p, k);
    if InRun(q, b, k) && FreeBut(f, b, k, q, o) && o < MAX_ORDER - 1 {
      ParentInRun(b, k, q, o);
      BuddyPair(q, o);
      assert RunCovered(f, FlipBit(q, o), o);
      BuddyIsBlock(f, q, o);
    }
  }

  /** A buddy of lower order does not start where p starts: p's run would meet q's. */
  lemma NotTheBuddy(p: nat, k: nat, q: nat, o: nat)
    requires o < k && Aligned(p, k) && Aligned(q, o) && (p + Pow2(k) <= q || q + Pow2(o) <= p)
    ensures FlipBit(q, o) != p
  {
    BuddyPair(q, o);
    if FlipBit(q, o) == p {
      AlignedDown(p, o + 1, k);
      Halves(p, o);
      PowerMonotone(o + 1, k);
    }
  }

  lemma ReachesAtOrder(f: Blocks, p: nat, k: nat, q: nat)
    requires Apart3(f, p, k, q, k)
    ensures Reaches(f, p, k, q, k) <==> FillsBuddy(f, p, k, q, k)
  {
    BuddyPair(p, k);
    BuddyPair(q, k);
    if InRun(q, FlipBit(p, k), k) {
      Nested(q, k, FlipBit(p, k), k);
    }
    if k < MAX_ORDER - 1 && FlipBit(q, k) != p {
      PastOrder(f - {FlipBit(q, k)}, p, k, ClearBit(q, k), k + 1);
    }
  }

  /** Two live blocks, such as the one just popped and one another hart is about to free, are apart. */
  lemma LiveBlocksApart(s: Pool, p: nat, q: nat, lo: nat, hi: nat)
    requires Inv(s, lo, hi) && p in s.live && q in s.live && p != q
    ensures p !in s.free && Apart3(s.free, p, s.live[p], q, s.live[q])
  {
    LivePartDisjoint(s, lo, hi);
    LiveClear(s, p, lo, hi);
    LiveClear(s, q, lo, hi);
    Apart(s.live, p, q);
  }

  lemma LiveClear(s: Pool, p: nat, lo: nat, hi: nat)
    requires Inv(s, lo, hi) && p in s.live
    ensures Clear(s.free, p, s.live[p]) && p !in s.free
  {
    forall i: nat | InRun(i, p, s.live[p])
      ensures !Covered(s.free, i)
    {
      assert Covers(s.live, p, i);
      FreeIsComplement(s, lo, hi, i);
    }
    RunClear(s.free, p, s.live[p]);
  }

  /**
   The theorem, on the flags another hart reads: merging (q, o) unlinks a node that is in no list if
   and only if, for some popped block, (q, o) lies in its buddy and all the rest of that buddy is free.
   */
  lemma MergeUnlinksTwiceIff(rings: seq<seq<nat>>, status: seq<Status>, f: Blocks, w: Blocks, q: nat, o: nat)
    requires Window(rings, status, f, w) && AllApart(f, w, q, o) && q < |status|
    ensures forall x: nat :: x in f.Keys <==> exists u :: 0 <= u < MAX_ORDER && x in rings[u]
    ensures UnlinksUnlinked(status, f.Keys, q, o) <==> exists p :: p in w && FillsBuddy(f, p, w[p], q, o)
  {
    FlagsReach(status, f, w, q, o);
    ReachesAnyIff(f, w, q, o);
    forall p | p in w
      ensures Reaches(f, p, w[p], q, o) <==> FillsBuddy(f, p, w[p], q, o)
    {
      ReachesIff(f, p, w[p], q, o);
    }
    forall x: nat
      ensures x in f.Keys <==> exists u :: 0 <= u < MAX_ORDER && x in rings[u]
    {
      if x in f {
        assert x in rings[f[x]];
      }
    }
  }

  ghost predicate Unlinked(rings: seq<seq<nat>>, p: nat) {
    forall u | 0 <= u < |rings| :: p !in rings[u]
  }

  /** A whole buddy about to be freed fills the buddy, whatever else is free. */
  lemma BuddyFills(f: Blocks, p: nat, k: nat)
    requires Aligned(p, k) && k < MAX_ORDER - 1
    ensures FillsBuddy(f, p, k, FlipBit(p, k), k)
  {
    BuddyPair(p, k);
  }

  /**
   From every state of the allocator in which the front block of a list has a live buddy of its order:
   one hart pops the block, another frees the buddy before the flags are cleared, and its merge unlinks
   a node that is in no list.
   */
  lemma PopThenFreeUnlinksTwice(rings: seq<seq<nat>>, status: seq<Status>, s: Pool, n: nat, k: nat, lo: nat, hi: nat)
    requires Inv(s, lo, hi) && ListsAgree(rings, s.free) && Shape(n, rings) && FlagsAgree(status, s.free)
    requires k < MAX_ORDER - 1 && rings[k] != [] && hi <= |status|
    requires FlipBit(rings[k][0], k) in s.live && s.live[FlipBit(rings[k][0], k)] == k
    ensures var p := rings[k][0];
            && p in s.free && s.free[p] == k
            && UnlinksUnlinked(status, (s.free - {p}).Keys, FlipBit(p, k), k)
            && Unlinked(rings[k := Without(rings[k], 0)], p)
  {
    var p := rings[k][0];
    var q := FlipBit(p, k);
    var none: Blocks, w: Blocks := map[], map[p := k];
    assert s.free + none == s.free && none[p := k] == w;
    PopOpensWindow(rings, status, s.free, none, n, k);
    AllocIsHanded(s, p, k, lo, hi, hi);
    var t := AfterAlloc(s, p, k);
    assert t == Pool(s.free - {p}, s.live[p := k]);
    BlocksStayInside(s, lo, hi, q);
    LiveBlocksApart(t, p, q, lo, hi);
    BuddyFills(t.free, p, k);
    MergeUnlinksTwiceIff(rings[k := Without(rings[k], 0)], status, t.free, w, q, k);
  }

  /** Such a state: two pages, one handed out and the other free. */
  lemma TwoPages()
    ensures var s, status := Pool(map[1 := 0], map[0 := 0]), [Status(false, true, 0, 1), Status(true, true, 0, 0)];
            var rings := seq(MAX_ORDER, o => if o == 0 then [1] else []);
            && Inv(s, 0, 2) && Step(Pool(map[0 := 1], map[]), s) && Inv(Pool(map[0 := 1], map[]), 0, 2)
            && ListsAgree(rings, s.free) && Shape(2, rings) && FlagsAgree(status, s.free)
            && rings[0][0] == 1 && FlipBit(1, 0) == 0
            && UnlinksUnlinked(status, (s.free - {1}).Keys, 0, 0)
  {
    var whole: Pool := Pool(map[0 := 1], map[]);
    var s: Pool := Pool(map[1 := 0], map[0 := 0]);
    var status := [Status(false, true, 0, 1), Status(true, true, 0, 0)];
    var rings: seq<seq<nat>> := seq(MAX_ORDER, o => if o == 0 then [1] else []);
    TwoPagesWhole();
    TwoPagesSplit();
    AllocIsHanded(whole, 0, 0, 0, 2, 2);
    assert AllocStep(whole, 0, 0, s);
    assert rings[0] == [1] && Pow2(0) == 1;
    PopThenFreeUnlinksTwice(rings, status, s, 2, 0, 0, 2);
  }

  lemma TwoPagesWhole()
    ensures Inv(Pool(map[0 := 1], map[]), 0, 2)
  {
    var f: Blocks := map[0 := 1];
    assert Pow2(1) == 2 && f + map[] == f;
    forall i: nat
      ensures Covered(f, i) <==> i < 2
    {
      assert i < 2 ==> Covers(f, 0, i);
    }
  }

  lemma TwoPagesSplit()
    ensures AfterAlloc(Pool(map[0 := 1], map[]), 0, 0) == Pool(map[1 := 0], map[0 := 0])
  {
    var f: Blocks := map[0 := 1];
    assert Pow2(0) == 1;
    var g := SplitOnce(f, 0);
    assert g == map[0 := 0, 1 := 0];
    assert SplitDown(f, 0, 0) == SplitDown(g, 0, 0) == g;
    assert g - {0} == map[1 := 0];
  }

  /** What the second unlinking does: a block linked in front meanwhile is no longer reached from the head. */
  lemma SecondUnlinkLosesFront(next: seq<nat>, prev: seq<nat>, head: nat, ring: seq<nat>, p: nat, y: nat,
                               n1: seq<nat>, r1: seq<nat>, n2: seq<nat>, r2: seq<nat>)
    requires Ring(next, prev, head, [p] + ring) && Distinct([p] + ring)
    requires y < |next| && y != head && y != p && y !in ring && n1 == Relinked(next, prev[p], next[p]) && r1 == Relinked(prev, next[p], prev[p])
    requires head < |n1| && n2 == Relinked(Relinked(n1, y, n1[head]), head, y) && r2 == Relinked(Relinked(r1, y, head), n1[head], y)
    ensures prev[p] == head && Ring(n2, r2, head, [y] + ring)
    ensures n2[p] == next[p] && Relinked(n2, r2[p], n2[p])[head] != y
  {
    PoppedLinks(next, prev, head, ring, p);
    DistinctTail(p, ring);
    RingAdd(n1, r1, head, ring, y);
  }

  lemma PoppedLinks(next: seq<nat>, prev: seq<nat>, head: nat, ring: seq<nat>, p: nat)
    requires Ring(next, prev, head, [p] + ring) && Distinct([p] + ring)
    ensures p < |next| && p != head && prev[p] == head && next[p] == After(head, ring, -1) < |next|
    ensures Ring(next[head := next[p]], prev[next[p] := head], head, ring)
  {
    assert ([p] + ring)[0] == p;
    assert Without([p] + ring, 0) == ring;
    RingDel(next, prev, head, [p] + ring, 0);
  }

  /** One link write of a list operation. */
  ghost function Relinked(links: seq<nat>, i: nat, to': nat): (r: seq<nat>) {
    if i < |links| then links[i := to'] else links
  }

  lemma DistinctTail(p: nat, ring: seq<nat>)
    requires Distinct([p] + ring)
    ensures Distinct(ring)
  {
    forall i | 0 <= i < |ring|
      ensures ring[i] == ([p] + ring)[i + 1]
    {
    }
  }
}
