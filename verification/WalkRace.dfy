/**
 Any number of harts walking one page directory with alloc = 1 (page_walk,
 kernel/vmm.c), each missing table installed by a compare-and-swap on its slot
 (atomic_cas_d, kernel/sync_utils.c).  The steps are the shared accesses of the
 walk: the read of a slot, the allocation, the swap, the return of a page that
 lost the swap, and the second read.  A table is zeroed as part of its install.
 */
module WalkRace {
  import opened PageTableTree

  datatype Pc =
    | Reading(level: nat, table: nat)             // about to read the slot of this level
    | Wanting(level: nat, table: nat)             // found it unset; about to allocate a page
    | Holding(level: nat, table: nat, page: nat)  // about to swap the page in
    | Lost(level: nat, table: nat, page: nat)     // the swap failed; about to free the page
    | Rereading(level: nat, table: nat)           // the slot is filled; about to read it again and follow it
    | Arrived(table: nat)                         // the leaf table
    | NoMemory                                    // alloc_page had no page: the walk returns 0

  /** The directory, the allocator's pages, and each walker with the page it looks for. */
  datatype State = State(tables: Tables, shape: Shape, pool: set<nat>, pcs: seq<Pc>, vpns: seq<nat>)

  function Onward(level: nat, table: nat): (pc: Pc) {
    if level == 2 then Reading(1, table) else Arrived(table)
  }

  ghost predicate WalkerStep(s: State, h: nat, t: State)
    requires h < |s.pcs| == |s.vpns|
  {
    var v := s.vpns[h];
    match s.pcs[h]
    case Reading(l, x) =>
      && SlotExists(s.tables, x, l, v)
      && var e := SlotValue(s.tables, x, l, v);
         t == s.(pcs := s.pcs[h := if Valid(e) then Rereading(l, x) else Wanting(l, x)])
    case Wanting(l, x) =>
      if s.pool == {} then t == s.(pcs := s.pcs[h := NoMemory])
      else exists p :: p in s.pool && t == s.(pool := s.pool - {p}, pcs := s.pcs[h := Holding(l, x, p)])
    case Holding(l, x, p) =>
      && SlotExists(s.tables, x, l, v)
      && if SlotValue(s.tables, x, l, v) == 0
         then t == s.(tables := Installed(s.tables, x, Index(l, v), p), shape := Grown(s.shape, x, p),
                      pcs := s.pcs[h := Onward(l, p)])
         else t == s.(pcs := s.pcs[h := Lost(l, x, p)])
    case Lost(l, x, p) => t == s.(pool := s.pool + {p}, pcs := s.pcs[h := Rereading(l, x)])
    case Rereading(l, x) =>
      SlotExists(s.tables, x, l, v) && t == s.(pcs := s.pcs[h := Onward(l, Ppn(SlotValue(s.tables, x, l, v)))])
    case Arrived(_) => false
    case NoMemory => false
  }

  // ---------------------------------------------------------------- the invariant

  ghost predicate InHand(pc: Pc, p: nat) {
    (pc.Holding? || pc.Lost?) && pc.page == p
  }

  /** Table x is the one reached at this level on the way to vpn. */
  ghost predicate OnLevel(ts: Tables, s: Shape, level: nat, x: nat, vpn: nat)
    requires TreeOk(ts, s)
    ensures OnLevel(ts, s, level, x, vpn) ==> level <= 2 && (x == s.root || x in s.mids) && x in ts
  {
    (level == 2 && x == s.root) || (level == 1 && MidOf(ts, s, vpn) == Slot(x, Index(1, vpn)))
  }

  /** A walker is on the path of its page in the tree as it is now. */
  ghost predicate OnPath(ts: Tables, s: Shape, pc: Pc, vpn: nat)
    requires TreeOk(ts, s)
  {
    match pc
    case Reading(l, x) => OnLevel(ts, s, l, x, vpn)
    case Wanting(l, x) => OnLevel(ts, s, l, x, vpn)
    case Holding(l, x, _) => OnLevel(ts, s, l, x, vpn)
    case Lost(l, x, _) => OnLevel(ts, s, l, x, vpn) && Valid(ts[x][Index(l, vpn)])
    case Rereading(l, x) => OnLevel(ts, s, l, x, vpn) && Valid(ts[x][Index(l, vpn)])
    case Arrived(x) => SlotOf(ts, s, vpn) == Slot(x, Index(0, vpn))
    case NoMemory => true
  }

  /** An interior slot is 0 or valid, so the swap, which expects 0, fills exactly the empty ones. */
  ghost predicate CleanSlots(ts: Tables, s: Shape)
    requires TreeOk(ts, s)
  {
    forall t, i | (t == s.root || t in s.mids) && 0 <= i < ENTRIES :: ts[t][i] == 0 || Valid(ts[t][i])
  }

  /** Each page is in the directory, with the allocator, or in one walker's hands. */
  ghost predicate PagesApart(s: State) {
    && s.pool !! s.tables.Keys
    && (forall h, p | 0 <= h < |s.pcs| && InHand(s.pcs[h], p) :: p !in s.pool && p !in s.tables)
    && (forall h, g, p | 0 <= h < |s.pcs| && 0 <= g < |s.pcs| && InHand(s.pcs[h], p) && InHand(s.pcs[g], p) :: h == g)
  }

  /** The invariant: a tree, clean unset slots, pages in one place, every walker on its path. */
  ghost function GoodStates(): iset<State> {
    iset s: State | && |s.pcs| == |s.vpns|
                    && TreeOk(s.tables, s.shape) && CleanSlots(s.tables, s.shape) && PagesApart(s)
                    && forall h | 0 <= h < |s.pcs| :: OnPath(s.tables, s.shape, s.pcs[h], s.vpns[h])
  }

  ghost predicate Good(s: State) {
    s in GoodStates()
  }

  /** The tree only grows: what a walker has passed stays as it saw it. */
  lemma InstallKeepsPaths(ts: Tables, s: Shape, t: nat, i: nat, p: nat, pc: Pc, vpn: nat)
    requires TreeOk(ts, s) && (t == s.root || t in s.mids) && i < ENTRIES && !Valid(ts[t][i]) && p !in ts
    requires TreeOk(Installed(ts, t, i, p), Grown(s, t, p)) && OnPath(ts, s, pc, vpn)
    ensures OnPath(Installed(ts, t, i, p), Grown(s, t, p), pc, vpn)
  {
    NewEntry(p);
  }

  lemma InstallKeepsClean(ts: Tables, s: Shape, t: nat, i: nat, p: nat)
    requires TreeOk(ts, s) && (t == s.root || t in s.mids) && i < ENTRIES && !Valid(ts[t][i]) && p !in ts
    requires TreeOk(Installed(ts, t, i, p), Grown(s, t, p)) && CleanSlots(ts, s)
    ensures CleanSlots(Installed(ts, t, i, p), Grown(s, t, p))
  {
    NewEntry(p);
  }

  /** The winner of the swap moves on to its own table. */
  lemma WinnerOnPath(ts: Tables, s: Shape, l: nat, x: nat, p: nat, vpn: nat)
    requires TreeOk(ts, s) && OnPath(ts, s, Holding(l, x, p), vpn) && p !in ts
    requires !Valid(ts[x][Index(l, vpn)]) && TreeOk(Installed(ts, x, Index(l, vpn), p), Grown(s, x, p))
    ensures OnPath(Installed(ts, x, Index(l, vpn), p), Grown(s, x, p), Onward(l, p), vpn)
  {
    NewEntry(p);
  }

  lemma SwapKeepsGood(s: State, h: nat, t: State)
    requires Good(s) && h < |s.pcs| && s.pcs[h].Holding? && WalkerStep(s, h, t)
    ensures Good(t)
  {
    var Holding(l, x, p) := s.pcs[h];
    var v := s.vpns[h];
    assert InHand(s.pcs[h], p);
    assert x == s.shape.root || x in s.shape.mids;
    NewEntry(0);
    if SlotValue(s.tables, x, l, v) == 0 {
      InstallOk(s.tables, s.shape, x, Index(l, v), p);
      InstallKeepsClean(s.tables, s.shape, x, Index(l, v), p);
      WinnerOnPath(s.tables, s.shape, l, x, p, v);
      OthersOnPath(s, h, x, Index(l, v), p);
      PageHandedOver(s, h, p, t.pcs[h], t);
    } else {
      MoveKeepsGood(s, h, t.pcs[h], t.pool, t);
    }
  }

  /** The page in a walker's hands becomes a table. */
  lemma PageHandedOver(s: State, h: nat, p: nat, pc: Pc, t: State)
    requires PagesApart(s) && h < |s.pcs| && InHand(s.pcs[h], p) && (forall q :: !InHand(pc, q))
    requires t.pool == s.pool && t.pcs == s.pcs[h := pc] && t.tables.Keys == s.tables.Keys + {p}
    ensures PagesApart(t)
  {
  }

  lemma OthersOnPath(s: State, h: nat, x: nat, i: nat, p: nat)
    requires Good(s) && h < |s.pcs| && (x == s.shape.root || x in s.shape.mids) && p !in s.tables
    requires i < ENTRIES && !Valid(s.tables[x][i]) && TreeOk(Installed(s.tables, x, i, p), Grown(s.shape, x, p))
    ensures forall g | 0 <= g < |s.pcs| && g != h ::
              OnPath(Installed(s.tables, x, i, p), Grown(s.shape, x, p), s.pcs[g], s.vpns[g])
  {
    forall g | 0 <= g < |s.pcs| && g != h
      ensures OnPath(Installed(s.tables, x, i, p), Grown(s.shape, x, p), s.pcs[g], s.vpns[g])
    {
      InstallKeepsPaths(s.tables, s.shape, x, i, p, s.pcs[g], s.vpns[g]);
    }
  }

  /** Following a filled slot leads one table further along the path. */
  lemma FollowOnPath(ts: Tables, s: Shape, l: nat, x: nat, vpn: nat)
    requires TreeOk(ts, s) && OnLevel(ts, s, l, x, vpn) && Valid(ts[x][Index(l, vpn)])
    ensures OnPath(ts, s, Onward(l, Ppn(ts[x][Index(l, vpn)])), vpn)
  {
  }

  /** A step that leaves the tree alone: walker h moves to a point on its path. */
  lemma MoveKeepsGood(s: State, h: nat, pc: Pc, pool: set<nat>, t: State)
    requires Good(s) && h < |s.pcs| && t == s.(pool := pool, pcs := s.pcs[h := pc])
    requires OnPath(s.tables, s.shape, pc, s.vpns[h])
    requires || (pool == s.pool && forall p :: InHand(pc, p) ==> InHand(s.pcs[h], p))
             || (pc.Holding? && pc.page in s.pool && pool == s.pool - {pc.page})
             || (!pc.Holding? && !pc.Lost? && exists p :: InHand(s.pcs[h], p) && pool == s.pool + {p})
    ensures Good(t)
  {
  }

  lemma StepKeepsGood(s: State, h: nat, t: State)
    requires Good(s) && h < |s.pcs| && WalkerStep(s, h, t)
    ensures Good(t) && t.vpns == s.vpns && |t.pcs| == |s.pcs|
  {
    var v := s.vpns[h];
    match s.pcs[h]
    case Reading(l, x) =>
      MoveKeepsGood(s, h, t.pcs[h], t.pool, t);
    case Wanting(_, _) => MoveKeepsGood(s, h, t.pcs[h], t.pool, t);
    case Holding(_, _, _) => SwapKeepsGood(s, h, t);
    case Lost(l, x, p) =>
      assert InHand(s.pcs[h], p);
      MoveKeepsGood(s, h, t.pcs[h], t.pool, t);
    case Rereading(l, x) =>
      FollowOnPath(s.tables, s.shape, l, x, v);
      MoveKeepsGood(s, h, t.pcs[h], t.pool, t);
    case Arrived(_) =>
    case NoMemory =>
  }

  /** A zeroed directory, a pool of other pages, and walkers about to read the root. */
  ghost function Start(root: nat, pool: set<nat>, vpns: seq<nat>): (s: State) {
    State(map[root := ZeroTable()], Shape(root, {}, {}), pool, seq(|vpns|, _ => Reading(2, root)), vpns)
  }

  lemma StartIsGood(root: nat, pool: set<nat>, vpns: seq<nat>)
    requires root !in pool
    ensures Good(Start(root, pool, vpns)) && HandPages(Start(root, pool, vpns).pcs) == {}
  {
    NewEntry(0);
  }

  // ---------------------------------------------------------------- whole runs

  ghost predicate Steps(s: State, t: State) {
    |s.pcs| == |s.vpns| && exists h :: 0 <= h < |s.pcs| && WalkerStep(s, h, t)
  }

  ghost predicate IsInterleaving(run: seq<State>) {
    |run| > 0 && forall i | 0 <= i < |run| - 1 :: Steps(run[i], run[i + 1])
  }

  /** What every step keeps, every state of an interleaving has. */
  lemma {:induction false} KeptByRun(kept: iset<State>, run: seq<State>, i: nat)
    requires IsInterleaving(run) && run[0] in kept && i < |run|
    requires forall s, t {:trigger Steps(s, t)} | s in kept && Steps(s, t) :: t in kept
    ensures run[i] in kept
    decreases i
  {
    if i > 0 {
      KeptByRun(kept, run, i - 1);
      assert Steps(run[i - 1], run[i - 1 + 1]);
    }
  }

  lemma InterleavingKeepsGood(run: seq<State>, i: nat)
    requires IsInterleaving(run) && Good(run[0]) && i < |run|
    ensures Good(run[i]) && run[i].vpns == run[0].vpns
  {
    var kept := iset s: State | Good(s) && s.vpns == run[0].vpns;
    forall s, t | s in kept && Steps(s, t)
      ensures t in kept
    {
      AnyStepKeepsGood(s, t);
    }
    KeptByRun(kept, run, i);
  }

  lemma AnyStepKeepsGood(s: State, t: State)
    requires Good(s) && Steps(s, t)
    ensures Good(t) && t.vpns == s.vpns
  {
    var h :| 0 <= h < |s.pcs| && WalkerStep(s, h, t);
    StepKeepsGood(s, h, t);
  }

  /** An interior slot, once valid, keeps its value through any step. */
  lemma StepKeepsSlots(s: State, h: nat, t: State, x: nat, i: nat)
    requires Good(s) && h < |s.pcs| && WalkerStep(s, h, t) && Interior(s.tables, s.shape, x, i)
    ensures Interior(t.tables, t.shape, x, i) && t.tables[x][i] == s.tables[x][i]
  {
    if s.pcs[h].Holding? {
      var Holding(l, y, p) := s.pcs[h];
      assert InHand(s.pcs[h], p);
      if SlotValue(s.tables, y, l, s.vpns[h]) == 0 {
        NewEntry(0);
        InteriorAfterInstall(s.tables, s.shape, y, Index(l, s.vpns[h]), p, x, i);
      }
    }
  }

  lemma AnyStepKeepsSlots(s: State, t: State, x: nat, i: nat)
    requires Good(s) && Steps(s, t) && Interior(s.tables, s.shape, x, i)
    ensures Interior(t.tables, t.shape, x, i) && t.tables[x][i] == s.tables[x][i]
  {
    var h :| 0 <= h < |s.pcs| && WalkerStep(s, h, t);
    StepKeepsSlots(s, h, t, x, i);
  }

  /** Slot k of table x is set in s and holds the same in t. */
  ghost predicate StillSet(s: State, t: State, x: nat, k: nat) {
    Interior(s.tables, s.shape, x, k) && Interior(t.tables, t.shape, x, k) && t.tables[x][k] == s.tables[x][k]
  }

  lemma StillSetOneMore(run: seq<State>, i: nat, j: nat, x: nat, k: nat)
    requires IsInterleaving(run) && Good(run[0]) && i <= j < |run| - 1 && StillSet(run[i], run[j], x, k)
    ensures StillSet(run[i], run[j + 1], x, k)
  {
    InterleavingKeepsGood(run, j);
    assert Steps(run[j], run[j + 1]);
    AnyStepKeepsSlots(run[j], run[j + 1], x, k);
  }

  /** Each interior slot goes from 0 to valid at most once in any interleaving. */
  lemma {:induction false} SlotSetOnce(run: seq<State>, i: nat, j: nat, x: nat, k: nat)
    requires IsInterleaving(run) && Good(run[0]) && i <= j < |run| && StillSet(run[i], run[i], x, k)
    ensures StillSet(run[i], run[j], x, k)
    decreases j
  {
    if i < j {
      SlotSetOnce(run, i, j - 1, x, k);
      StillSetOneMore(run, i, j - 1, x, k);
    }
  }

  /**
   Walkers of one virtual page end on one leaf slot, the slot a walk alone would find
   in the final directory.
   */
  lemma WalkersAgree(run: seq<State>, i: nat, h: nat, g: nat)
    requires IsInterleaving(run) && Good(run[0]) && i < |run| && h < |run[i].pcs| && g < |run[i].pcs|
    requires run[i].pcs[h].Arrived? && run[i].pcs[g].Arrived? && |run[i].pcs| == |run[i].vpns|
    requires run[i].vpns[h] == run[i].vpns[g]
    ensures run[i].pcs[h] == run[i].pcs[g]
    ensures TreeOk(run[i].tables, run[i].shape)
    ensures SlotOf(run[i].tables, run[i].shape, run[i].vpns[h]) == Slot(run[i].pcs[h].table, Index(0, run[i].vpns[h]))
  {
    InterleavingKeepsGood(run, i);
  }

  // ---------------------------------------------------------------- pages are conserved

  ghost function HandPages(pcs: seq<Pc>): (ps: set<nat>) {
    set h | 0 <= h < |pcs| && (pcs[h].Holding? || pcs[h].Lost?) :: pcs[h].page
  }

  ghost function Everything(s: State): (ps: set<nat>) {
    s.tables.Keys + s.pool + HandPages(s.pcs)
  }

  lemma HandPagesAfter(pcs: seq<Pc>, h: nat, pc: Pc, q: nat)
    requires h < |pcs| && forall g, p | 0 <= g < |pcs| && g != h && InHand(pcs[h], p) :: !InHand(pcs[g], p)
    ensures q in HandPages(pcs[h := pc]) <==> InHand(pc, q) || (q in HandPages(pcs) && !InHand(pcs[h], q))
  {
    var after := pcs[h := pc];
    if q in HandPages(after) {
      var g :| 0 <= g < |after| && (after[g].Holding? || after[g].Lost?) && after[g].page == q;
      assert g != h ==> InHand(pcs[g], q);
      assert g == h ==> InHand(pc, q);
    }
    if InHand(pc, q) {
      assert after[h].page == q;
    }
    if q in HandPages(pcs) && !InHand(pcs[h], q) {
      var g :| 0 <= g < |pcs| && (pcs[g].Holding? || pcs[g].Lost?) && pcs[g].page == q;
      assert after[g] == pcs[g];
    }
  }

  /** No step gains or loses a page: a page that lost the swap goes back to the allocator, once. */
  lemma StepConserves(s: State, h: nat, t: State)
    requires Good(s) && h < |s.pcs| && WalkerStep(s, h, t)
    ensures Everything(t) == Everything(s)
  {
    forall q
      ensures q in Everything(t) <==> q in Everything(s)
    {
      if q >= 0 {
        HandPagesAfter(s.pcs, h, t.pcs[h], q);
      }
    }
  }

  lemma InterleavingConserves(run: seq<State>, i: nat)
    requires IsInterleaving(run) && Good(run[0]) && i < |run|
    ensures Everything(run[i]) == Everything(run[0])
  {
    var all := Everything(run[0]);
    var kept := iset s: State | Good(s) && Everything(s) == all;
    forall s, t | s in kept && Steps(s, t)
      ensures t in kept
    {
      AnyStepKeepsGood(s, t);
      AnyStepConserves(s, t, all);
    }
    KeptByRun(kept, run, i);
  }

  lemma AnyStepConserves(s: State, t: State, all: set<nat>)
    requires Good(s) && Steps(s, t) && Everything(s) == all
    ensures Everything(t) == all
  {
    var h :| 0 <= h < |s.pcs| && WalkerStep(s, h, t);
    StepConserves(s, h, t);
  }

  /** When every walk has ended, each page is a table of the directory or back with the allocator. */
  lemma NothingLeaks(run: seq<State>, i: nat)
    requires IsInterleaving(run) && Good(run[0]) && i < |run| && HandPages(run[0].pcs) == {}
    requires forall h | 0 <= h < |run[i].pcs| :: run[i].pcs[h].Arrived? || run[i].pcs[h].NoMemory?
    ensures run[i].tables.Keys + run[i].pool == run[0].tables.Keys + run[0].pool
    ensures run[i].tables.Keys !! run[i].pool
  {
    InterleavingConserves(run, i);
    InterleavingKeepsGood(run, i);
    assert HandPages(run[i].pcs) == {};
  }

  // ---------------------------------------------------------------- progress

  predicate Ended(pc: Pc) {
    pc.Arrived? || pc.NoMemory?
  }

  /** Accesses a walker has yet to make: at most five at each of the two levels. */
  function AccessesLeft(pc: Pc): (n: nat) {
    match pc
    case Reading(l, _) => if l == 2 then 10 else 5
    case Wanting(l, _) => if l == 2 then 9 else 4
    case Holding(l, _, _) => if l == 2 then 8 else 3
    case Lost(l, _, _) => if l == 2 then 7 else 2
    case Rereading(l, _) => if l == 2 then 6 else 1
    case Arrived(_) => 0
    case NoMemory => 0
  }

  /**
   No walker is ever stuck or slowed by the others: until it has ended it can step, whichever step it
   takes is one of at most ten, and it gives up only with no page to allocate.
   */
  lemma WalkEnds(s: State, h: nat)
    requires Good(s) && h < |s.pcs|
    ensures Ended(s.pcs[h]) <==> !exists t :: WalkerStep(s, h, t)
    ensures forall t | WalkerStep(s, h, t) :: IsInterleaving([s, t])
    ensures forall t | WalkerStep(s, h, t) :: h < |t.pcs| && AccessesLeft(t.pcs[h]) < AccessesLeft(s.pcs[h]) <= 10
    ensures forall t | WalkerStep(s, h, t) && t.pcs[h].NoMemory? :: s.pool == {} && s.pcs[h].Wanting?
  {
    var pc := s.pcs[h];
    if !Ended(pc) {
      WalkerCanStep(s, h);
      assert OnLevel(s.tables, s.shape, pc.level, pc.table, s.vpns[h]);
    }
    forall t | WalkerStep(s, h, t)
      ensures IsInterleaving([s, t])
      ensures h < |t.pcs| && AccessesLeft(t.pcs[h]) < AccessesLeft(s.pcs[h]) <= 10
      ensures t.pcs[h].NoMemory? ==> s.pool == {} && s.pcs[h].Wanting?
    {
      AccessCounts(s, h, t);
    }
  }

  lemma AccessCounts(s: State, h: nat, t: State)
    requires h < |s.pcs| == |s.vpns| && WalkerStep(s, h, t)
    requires Ended(s.pcs[h]) || s.pcs[h].level == 1 || s.pcs[h].level == 2
    ensures h < |t.pcs| && AccessesLeft(t.pcs[h]) < AccessesLeft(s.pcs[h]) <= 10
    ensures t.pcs[h].NoMemory? ==> s.pool == {} && s.pcs[h].Wanting?
  {
  }

  lemma WalkerCanStep(s: State, h: nat)
    requires Good(s) && h < |s.pcs| && !Ended(s.pcs[h])
    ensures exists t :: WalkerStep(s, h, t)
  {
    var v := s.vpns[h];
    match s.pcs[h]
    case Reading(l, x) =>
      assert WalkerStep(s, h, s.(pcs := s.pcs[h := if Valid(SlotValue(s.tables, x, l, v)) then Rereading(l, x)
                                                   else Wanting(l, x)]));
    case Wanting(l, x) =>
      if s.pool == {} {
        assert WalkerStep(s, h, s.(pcs := s.pcs[h := NoMemory]));
      } else {
        var p :| p in s.pool;
        assert WalkerStep(s, h, s.(pool := s.pool - {p}, pcs := s.pcs[h := Holding(l, x, p)]));
      }
    case Holding(l, x, p) =>
      if SlotValue(s.tables, x, l, v) == 0 {
        assert WalkerStep(s, h, s.(tables := Installed(s.tables, x, Index(l, v), p), shape := Grown(s.shape, x, p),
                                   pcs := s.pcs[h := Onward(l, p)]));
      } else {
        assert WalkerStep(s, h, s.(pcs := s.pcs[h := Lost(l, x, p)]));
      }
    case Lost(l, x, p) => assert WalkerStep(s, h, s.(pool := s.pool + {p}, pcs := s.pcs[h := Rereading(l, x)]));
    case Rereading(l, x) =>
      assert WalkerStep(s, h, s.(pcs := s.pcs[h := Onward(l, Ppn(SlotValue(s.tables, x, l, v)))]));
  }
}
