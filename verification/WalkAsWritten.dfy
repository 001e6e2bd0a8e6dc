/**
 The walk of WalkRace and the leaf write after it (page_walk and map_pages of kernel/vmm.c) as they
 are, access by access: a new table is published by the swap with whatever the page last held, and
 zeroed afterwards slot by slot; a leaf slot is tested, and then stored to.  Other harts can come
 between any two accesses.  The model keeps raw page contents; the directory is the set of
 published pages with their levels.
 */
module WalkAsWritten {
  import opened PageTableTree

  datatype Pc =
    | Reading(level: nat, table: nat)             // about to read the slot of this level
    | Wanting(level: nat, table: nat)             // found it unset; about to allocate a page
    | Holding(level: nat, table: nat, page: nat)  // about to swap the page in
    | Zeroing(level: nat, table: nat, next: nat)  // swapped a table in below this level; about to zero its slot next
    | Lost(level: nat, table: nat, page: nat)     // the swap failed; about to free the page
    | Rereading(level: nat, table: nat)           // about to read the slot again and follow it
    | Arrived(table: nat)                         // about to test the leaf slot
    | Storing(table: nat)                         // found it unset; about to write the leaf entry
    | Ended                                       // written, or out of memory, or already mapped

  /** Page contents, the level of each page of the directory, the allocator's pages, the walkers. */
  datatype State = State(mem: Tables, dir: map<nat, nat>, pool: set<nat>, pcs: seq<Pc>, vpns: seq<nat>)

  function Onward(level: nat, table: nat): (pc: Pc) {
    if level == 2 then Reading(1, table) else Arrived(table)
  }

  /** After zeroing slot k: the next slot, or on to the table. */
  function Zeroed(level: nat, table: nat, k: nat): (pc: Pc) {
    if k + 1 < ENTRIES then Zeroing(level, table, k + 1) else Onward(level, table)
  }

  ghost function Wrote(ts: Tables, x: nat, i: nat, pte: nat): (r: Tables)
    requires x in ts && i < |ts[x]|
  {
    var table: seq<nat> := ts[x];
    ts[x := table[i := pte]]
  }

  ghost predicate WalkerStep(s: State, h: nat, t: State)
    requires h < |s.pcs| == |s.vpns|
  {
    var v := s.vpns[h];
    match s.pcs[h]
    case Reading(l, x) =>
      && SlotExists(s.mem, x, l, v)
      && t == s.(pcs := s.pcs[h := if Valid(SlotValue(s.mem, x, l, v)) then Rereading(l, x) else Wanting(l, x)])
    case Wanting(l, x) =>
      if s.pool == {} then t == s.(pcs := s.pcs[h := Ended])
      else exists p :: p in s.pool && t == s.(pool := s.pool - {p}, pcs := s.pcs[h := Holding(l, x, p)])
    case Holding(l, x, p) =>
      && SlotExists(s.mem, x, l, v) && l > 0
      && t == if SlotValue(s.mem, x, l, v) == 0 then Published(s, h) else s.(pcs := s.pcs[h := Lost(l, x, p)])
    case Zeroing(l, p, k) =>
      && p in s.mem && k < |s.mem[p]| == ENTRIES
      && t == s.(mem := Wrote(s.mem, p, k, 0), pcs := s.pcs[h := Zeroed(l, p, k)])
    case Lost(l, x, p) => t == s.(pool := s.pool + {p}, pcs := s.pcs[h := Rereading(l, x)])
    case Rereading(l, x) =>
      SlotExists(s.mem, x, l, v) && t == s.(pcs := s.pcs[h := Onward(l, Ppn(SlotValue(s.mem, x, l, v)))])
    case Arrived(x) =>
      && SlotExists(s.mem, x, 0, v)
      && t == s.(pcs := s.pcs[h := if Valid(SlotValue(s.mem, x, 0, v)) then Ended else Storing(x)])
    case Storing(x) =>
      && SlotExists(s.mem, x, 0, v)
      && exists pte: nat :: Valid(pte) && t == Stored(s, h, pte)
    case Ended => false
  }

  /** Walker h has won its swap: the page it holds is in the directory, not yet zeroed. */
  ghost function Published(s: State, h: nat): (t: State)
    requires h < |s.pcs| == |s.vpns| && s.pcs[h].Holding? && s.pcs[h].level > 0
    requires SlotExists(s.mem, s.pcs[h].table, s.pcs[h].level, s.vpns[h])
  {
    var Holding(l, x, p) := s.pcs[h];
    s.(mem := Wrote(s.mem, x, Index(l, s.vpns[h]), p * 1024 + 1), dir := s.dir[p := l - 1],
       pcs := s.pcs[h := Zeroing(l, p, 0)])
  }

  ghost function Stored(s: State, h: nat, pte: nat): (t: State)
    requires h < |s.pcs| == |s.vpns| && s.pcs[h].Storing? && SlotExists(s.mem, s.pcs[h].table, 0, s.vpns[h])
  {
    s.(mem := Wrote(s.mem, s.pcs[h].table, Index(0, s.vpns[h]), pte), pcs := s.pcs[h := Ended])
  }

  // ---------------------------------------------------------------- harm and its condition

  /** The valid entry in slot i of table x of the directory, or 0. */
  ghost function EntryAt(s: State, x: nat, i: nat): (pte: nat) {
    if x in s.dir && x in s.mem && i < |s.mem[x]| && Valid(s.mem[x][i]) then s.mem[x][i] else 0
  }

  /** Slot i of table x holds pte afterwards; no other valid entry appears, changes or disappears. */
  ghost predicate OnlyChange(s: State, t: State, x: nat, i: nat, pte: nat) {
    EntryAt(t, x, i) == pte && forall u, j :: u != x || j != i ==> EntryAt(t, u, j) == EntryAt(s, u, j)
  }

  ghost predicate SameEntries(s: State, t: State) {
    forall u, j :: EntryAt(t, u, j) == EntryAt(s, u, j)
  }

  /**
   The step does to the valid entries of the directory what its walker means to do: a won swap adds
   the new table, a lost swap met a valid entry, a store fills an unset leaf slot, and nothing else
   changes any.
   */
  ghost predicate Explained(s: State, h: nat, t: State)
    requires h < |s.pcs| == |s.vpns|
  {
    var v := s.vpns[h];
    match s.pcs[h]
    case Holding(l, x, p) =>
      && SlotExists(s.mem, x, l, v)
      && if SlotValue(s.mem, x, l, v) == 0 then OnlyChange(s, t, x, Index(l, v), p * 1024 + 1)
         else Valid(SlotValue(s.mem, x, l, v)) && SameEntries(s, t)
    case Storing(x) =>
      var i := Index(0, v);
      EntryAt(s, x, i) == 0 && EntryAt(t, x, i) != 0 && OnlyChange(s, t, x, i, EntryAt(t, x, i))
    case _ => SameEntries(s, t)
  }

  predicate ToZero(pc: Pc, x: nat, i: nat) {
    pc.Zeroing? && pc.table == x && pc.next <= i
  }

  /** Some walker has published table x and has yet to zero its slot i. */
  ghost predicate Pending(s: State, x: nat, i: nat) {
    exists g :: 0 <= g < |s.pcs| && ToZero(s.pcs[g], x, i)
  }

  ghost predicate StoresAt(s: State, g: nat, x: nat, i: nat)
    requires |s.pcs| == |s.vpns|
  {
    g < |s.pcs| && s.pcs[g] == Storing(x) && Index(0, s.vpns[g]) == i
  }

  ghost predicate NoValidEntry(table: seq<nat>) {
    forall k | 0 <= k < |table| :: !Valid(table[k])
  }

  /**
   The walker publishes no page with a valid entry in it, neither swaps nor stores in a slot yet to
   be zeroed, and finds no leaf slot unset that another walker is between testing and storing to.
   */
  ghost predicate Undisturbed(s: State, h: nat)
    requires h < |s.pcs| == |s.vpns|
  {
    var v := s.vpns[h];
    match s.pcs[h]
    case Holding(l, x, p) =>
      && l <= 2 && !Pending(s, x, Index(l, v))
      && (SlotExists(s.mem, x, l, v) && SlotValue(s.mem, x, l, v) == 0 ==> p in s.mem && NoValidEntry(s.mem[p]))
    case Arrived(x) =>
      SlotExists(s.mem, x, 0, v) && !Valid(SlotValue(s.mem, x, 0, v)) ==> forall g :: !StoresAt(s, g, x, Index(0, v))
    case Storing(x) => !Pending(s, x, Index(0, v))
    case _ => true
  }

  // ---------------------------------------------------------------- the invariant

  ghost predicate InHand(pc: Pc, p: nat) {
    (pc.Holding? || pc.Lost?) && pc.page == p
  }

  ghost predicate PagesApart(s: State) {
    && s.dir.Keys <= s.mem.Keys && s.pool <= s.mem.Keys && s.dir.Keys !! s.pool
    && (forall h, p | 0 <= h < |s.pcs| && InHand(s.pcs[h], p) :: p in s.mem && p !in s.pool && p !in s.dir)
    && (forall h, g, p | 0 <= h < |s.pcs| && 0 <= g < |s.pcs| && InHand(s.pcs[h], p) && InHand(s.pcs[g], p) :: h == g)
  }

  /** What a slot of a table at a level may hold once it is zeroed: 0, or an entry leading one level down. */
  ghost predicate EntryOk(dir: map<nat, nat>, level: nat, e: nat) {
    (e == 0 || Valid(e)) && (Valid(e) && level > 0 ==> Ppn(e) in dir && dir[Ppn(e)] == level - 1)
  }

  ghost predicate SlotOk(s: State, x: nat, i: nat)
    requires x in s.dir && x in s.mem && i < |s.mem[x]|
  {
    if Pending(s, x, i) then !Valid(s.mem[x][i]) else EntryOk(s.dir, s.dir[x], s.mem[x][i])
  }

  ghost predicate TablesOk(s: State) {
    && (forall x | x in s.mem :: |s.mem[x]| == ENTRIES)
    && (forall x, i: nat | x in s.dir && x in s.mem && i < |s.mem[x]| :: SlotOk(s, x, i))
  }

  ghost predicate OnLevel(s: State, level: nat, x: nat) {
    level <= 2 && x in s.dir && s.dir[x] == level
  }

  /** A walker is at a table of its level; one about to follow a slot, or to store to it, knows what it holds. */
  ghost predicate PcOk(s: State, pc: Pc, vpn: nat) {
    match pc
    case Reading(l, x) => l > 0 && OnLevel(s, l, x)
    case Wanting(l, x) => l > 0 && OnLevel(s, l, x)
    case Holding(l, x, _) => l > 0 && OnLevel(s, l, x)
    case Zeroing(l, p, k) => 0 < l <= 2 && OnLevel(s, l - 1, p) && k < ENTRIES
    case Lost(l, x, _) => l > 0 && OnLevel(s, l, x) && EntryAt(s, x, Index(l, vpn)) != 0
    case Rereading(l, x) => l > 0 && OnLevel(s, l, x) && EntryAt(s, x, Index(l, vpn)) != 0
    case Arrived(x) => OnLevel(s, 0, x)
    case Storing(x) => OnLevel(s, 0, x) && EntryAt(s, x, Index(0, vpn)) == 0
    case Ended => true
  }

  ghost predicate OneZeroes(s: State) {
    forall h, g | 0 <= h < |s.pcs| && 0 <= g < |s.pcs| && s.pcs[h].Zeroing? && s.pcs[g].Zeroing? &&
                  s.pcs[h].table == s.pcs[g].table :: h == g
  }

  ghost predicate OneStores(s: State)
    requires |s.pcs| == |s.vpns|
  {
    forall h, g, x, i | StoresAt(s, h, x, i) && StoresAt(s, g, x, i) :: h == g
  }

  ghost predicate PcsOk(s: State) {
    |s.pcs| == |s.vpns| && forall h | 0 <= h < |s.pcs| :: PcOk(s, s.pcs[h], s.vpns[h])
  }

  ghost predicate Sound(s: State) {
    PcsOk(s) && PagesApart(s) && TablesOk(s) && OneZeroes(s) && OneStores(s)
  }

  // ---------------------------------------------------------------- undisturbed steps are explained

  /** What is pending changes only with the slots walker h has yet to zero. */
  lemma PendingAfter(s: State, h: nat, pc: Pc, t: State, x: nat, i: nat)
    requires h < |s.pcs| && t.pcs == s.pcs[h := pc]
    ensures !ToZero(s.pcs[h], x, i) ==> (Pending(t, x, i) <==> Pending(s, x, i) || ToZero(pc, x, i))
    ensures OneZeroes(s) && s.pcs[h].Zeroing? && s.pcs[h].table == x ==> (Pending(t, x, i) <==> ToZero(pc, x, i))
  {
    if Pending(s, x, i) {
      var g :| 0 <= g < |s.pcs| && ToZero(s.pcs[g], x, i);
      assert g != h ==> ToZero(t.pcs[g], x, i);
    }
    if Pending(t, x, i) {
      var g :| 0 <= g < |t.pcs| && ToZero(t.pcs[g], x, i);
      assert g != h ==> ToZero(s.pcs[g], x, i);
    }
    if ToZero(pc, x, i) {
      assert ToZero(t.pcs[h], x, i);
    }
  }

  lemma OthersStore(s: State, h: nat, pc: Pc, t: State)
    requires |s.pcs| == |s.vpns| && h < |s.pcs| && t.pcs == s.pcs[h := pc] && t.vpns == s.vpns && OneStores(s)
    requires pc.Storing? ==> forall g :: g != h ==> !StoresAt(s, g, pc.table, Index(0, s.vpns[h]))
    ensures OneStores(t)
  {
    forall f, g, x, i | StoresAt(t, f, x, i) && StoresAt(t, g, x, i)
      ensures f == g
    {
      assert f != h ==> StoresAt(s, f, x, i);
      assert g != h ==> StoresAt(s, g, x, i);
    }
  }

  /** A step that writes no memory and publishes nothing. */
  lemma QuietKeeps(s: State, h: nat, pc: Pc, pool: set<nat>, t: State)
    requires Sound(s) && h < |s.pcs| && t == s.(pool := pool, pcs := s.pcs[h := pc])
    requires PcOk(s, pc, s.vpns[h]) && !pc.Zeroing? && !s.pcs[h].Zeroing?
    requires pc.Storing? ==> forall g :: g != h ==> !StoresAt(s, g, pc.table, Index(0, s.vpns[h]))
    requires || (pool == s.pool && forall p :: InHand(pc, p) ==> InHand(s.pcs[h], p))
             || (pc.Holding? && pc.page in s.pool && pool == s.pool - {pc.page})
             || (!pc.Holding? && !pc.Lost? && exists p :: InHand(s.pcs[h], p) && pool == s.pool + {p})
    ensures Sound(t) && SameEntries(s, t)
  {
    QuietApart(s, h, pc, pool, t);
    OthersStore(s, h, pc, t);
    forall x: nat, i: nat
      ensures Pending(t, x, i) <==> Pending(s, x, i)
    {
      PendingAfter(s, h, pc, t, x, i);
    }
    QuietTables(s, t);
    EntriesKeepPcs(s, t, h);
  }

  lemma QuietTables(s: State, t: State)
    requires TablesOk(s) && t.mem == s.mem && t.dir == s.dir
    requires forall x: nat, i: nat :: Pending(t, x, i) <==> Pending(s, x, i)
    ensures TablesOk(t)
  {
    forall x, i: nat | x in t.dir && x in t.mem && i < |t.mem[x]|
      ensures SlotOk(t, x, i)
    {
      assert SlotOk(s, x, i);
    }
  }

  lemma QuietApart(s: State, h: nat, pc: Pc, pool: set<nat>, t: State)
    requires PagesApart(s) && h < |s.pcs| && t == s.(pool := pool, pcs := s.pcs[h := pc])
    requires || (pool == s.pool && forall p :: InHand(pc, p) ==> InHand(s.pcs[h], p))
             || (pc.Holding? && pc.page in s.pool && pool == s.pool - {pc.page})
             || (!pc.Holding? && !pc.Lost? && exists p :: InHand(s.pcs[h], p) && pool == s.pool + {p})
    ensures PagesApart(t)
  {
  }

  /** Entries after a write of a valid entry to a slot of the directory. */
  lemma WroteEntries(s: State, x: nat, i: nat, pte: nat, t: State)
    requires x in s.mem && i < |s.mem[x]| && x in s.dir && Valid(pte)
    requires t.mem == Wrote(s.mem, x, i, pte) && t.dir == s.dir
    ensures OnlyChange(s, t, x, i, pte)
  {
  }

  lemma NotZero(pte: nat)
    requires Valid(pte)
    ensures pte != 0
  {
  }

  /** Walkers stay where they are while no entry is unset and none appears where one is about to store. */
  lemma EntriesKeepPcs(s: State, t: State, h: nat)
    requires PcsOk(s) && h < |s.pcs| == |t.pcs| && t.vpns == s.vpns
    requires forall x | x in s.dir :: x in t.dir && t.dir[x] == s.dir[x]
    requires forall x, i | EntryAt(s, x, i) != 0 :: EntryAt(t, x, i) != 0
    requires forall g | 0 <= g < |s.pcs| && g != h :: t.pcs[g] == s.pcs[g]
    requires forall g, x, i | g != h && StoresAt(s, g, x, i) :: EntryAt(t, x, i) == EntryAt(s, x, i)
    requires PcOk(t, t.pcs[h], t.vpns[h])
    ensures PcsOk(t)
  {
    forall g | 0 <= g < |s.pcs| && g != h
      ensures PcOk(t, t.pcs[g], t.vpns[g])
    {
      assert PcOk(s, s.pcs[g], s.vpns[g]);
      assert s.pcs[g].Storing? ==> StoresAt(s, g, s.pcs[g].table, Index(0, s.vpns[g]));
    }
  }

  /** A write of a good entry to a slot that nobody has yet to zero. */
  lemma WriteTables(s: State, x: nat, i: nat, pte: nat, t: State)
    requires TablesOk(s) && x in s.mem && i < |s.mem[x]| && x in s.dir && EntryOk(s.dir, s.dir[x], pte) && !Pending(s, x, i)
    requires t.mem == Wrote(s.mem, x, i, pte) && t.dir == s.dir
    requires forall y: nat, j: nat :: Pending(t, y, j) <==> Pending(s, y, j)
    ensures TablesOk(t)
  {
    forall y, j: nat | y in t.dir && y in t.mem && j < |t.mem[y]|
      ensures SlotOk(t, y, j)
    {
      assert SlotOk(s, y, j);
    }
  }

  lemma StoreKeeps(s: State, h: nat, x: nat, pte: nat, t: State)
    requires Sound(s) && h < |s.pcs| && s.pcs[h] == Storing(x) && Undisturbed(s, h)
    requires SlotExists(s.mem, x, 0, s.vpns[h]) && Valid(pte) && t == Stored(s, h, pte)
    ensures Sound(t) && Explained(s, h, t)
  {
    var i := Index(0, s.vpns[h]);
    NotZero(pte);
    assert PcOk(s, s.pcs[h], s.vpns[h]) && StoresAt(s, h, x, i);
    WroteEntries(s, x, i, pte, t);
    forall y: nat, j: nat
      ensures Pending(t, y, j) <==> Pending(s, y, j)
    {
      PendingAfter(s, h, Ended, t, y, j);
    }
    WriteTables(s, x, i, pte, t);
    OthersStore(s, h, Ended, t);
    EntriesKeepPcs(s, t, h);
  }

  /** Publishing adds the entry for the new table, and the entries the page came with. */
  lemma PublishEntries(s: State, h: nat, t: State)
    requires Sound(s) && h < |s.pcs| && s.pcs[h].Holding?
    requires SlotExists(s.mem, s.pcs[h].table, s.pcs[h].level, s.vpns[h]) && t == Published(s, h)
    ensures OnlyChange(s, t, s.pcs[h].table, Index(s.pcs[h].level, s.vpns[h]), s.pcs[h].page * 1024 + 1)
        <==> NoValidEntry(s.mem[s.pcs[h].page])
  {
    var Holding(l, x, p) := s.pcs[h];
    assert InHand(s.pcs[h], p);
    assert p in s.mem && p !in s.dir && x in s.dir && x != p;
    NewEntry(p);
    forall i: nat
      ensures EntryAt(s, p, i) == 0
      ensures EntryAt(t, p, i) == if i < |s.mem[p]| && Valid(s.mem[p][i]) then s.mem[p][i] else 0
    {
    }
    if OnlyChange(s, t, x, Index(l, s.vpns[h]), p * 1024 + 1) {
      forall i | 0 <= i < |s.mem[p]|
        ensures !Valid(s.mem[p][i])
      {
        assert EntryAt(t, p, i) == EntryAt(s, p, i);
      }
    }
  }

  lemma PublishKeeps(s: State, h: nat, t: State)
    requires Sound(s) && h < |s.pcs| && s.pcs[h].Holding? && Undisturbed(s, h)
    requires SlotExists(s.mem, s.pcs[h].table, s.pcs[h].level, s.vpns[h]) && t == Published(s, h)
    requires SlotValue(s.mem, s.pcs[h].table, s.pcs[h].level, s.vpns[h]) == 0
    ensures Sound(t) && Explained(s, h, t)
  {
    var Holding(l, x, p) := s.pcs[h];
    assert InHand(s.pcs[h], p);
    NewEntry(p);
    PublishEntries(s, h, t);
    forall y: nat, j: nat
      ensures Pending(t, y, j) <==> Pending(s, y, j) || y == p
    {
      PendingAfter(s, h, Zeroing(l, p, 0), t, y, j);
    }
    PublishApart(s, h, p, Zeroing(l, p, 0), t);
    PublishTables(s, h, t);
    OthersStore(s, h, Zeroing(l, p, 0), t);
    PublishPcs(s, h, t);
    PublishOneZeroes(s, h, t);
  }

  lemma PublishPcs(s: State, h: nat, t: State)
    requires Sound(s) && h < |s.pcs| && s.pcs[h].Holding? && s.pcs[h].page !in s.dir
    requires SlotExists(s.mem, s.pcs[h].table, s.pcs[h].level, s.vpns[h]) && t == Published(s, h)
    requires OnlyChange(s, t, s.pcs[h].table, Index(s.pcs[h].level, s.vpns[h]), s.pcs[h].page * 1024 + 1)
    ensures PcsOk(t)
  {
    assert PcOk(s, s.pcs[h], s.vpns[h]);
    forall g: nat, x, i | g != h && StoresAt(s, g, x, i)
      ensures EntryAt(t, x, i) == EntryAt(s, x, i)
    {
      assert PcOk(s, s.pcs[g], s.vpns[g]);
    }
    EntriesKeepPcs(s, t, h);
  }

  lemma PublishApart(s: State, h: nat, p: nat, pc: Pc, t: State)
    requires PagesApart(s) && h < |s.pcs| && InHand(s.pcs[h], p) && (forall q :: !InHand(pc, q))
    requires t.pool == s.pool && t.pcs == s.pcs[h := pc] && t.dir.Keys == s.dir.Keys + {p} && t.mem.Keys == s.mem.Keys
    ensures PagesApart(t)
  {
  }

  lemma PublishOneZeroes(s: State, h: nat, t: State)
    requires PcsOk(s) && OneZeroes(s) && h < |s.pcs| && s.pcs[h].Holding? && s.pcs[h].page !in s.dir
    requires t.pcs == s.pcs[h := Zeroing(s.pcs[h].level, s.pcs[h].page, 0)]
    ensures OneZeroes(t)
  {
    forall g | 0 <= g < |s.pcs| && s.pcs[g].Zeroing?
      ensures s.pcs[g].table in s.dir
    {
      assert PcOk(s, s.pcs[g], s.vpns[g]);
    }
  }

  lemma PublishTables(s: State, h: nat, t: State)
    requires Sound(s) && h < |s.pcs| && s.pcs[h].Holding? && s.pcs[h].level <= 2
    requires !Pending(s, s.pcs[h].table, Index(s.pcs[h].level, s.vpns[h]))
    requires SlotExists(s.mem, s.pcs[h].table, s.pcs[h].level, s.vpns[h]) && t == Published(s, h)
    requires s.pcs[h].page in s.mem && NoValidEntry(s.mem[s.pcs[h].page]) && s.pcs[h].page !in s.dir
    requires forall y: nat, j: nat :: Pending(t, y, j) <==> Pending(s, y, j) || y == s.pcs[h].page
    ensures TablesOk(t)
  {
    var Holding(l, x, p) := s.pcs[h];
    NewEntry(p);
    assert PcOk(s, s.pcs[h], s.vpns[h]);
    forall y, j: nat | y in t.dir && y in t.mem && j < |t.mem[y]|
      ensures SlotOk(t, y, j)
    {
      assert y != p ==> SlotOk(s, y, j);
    }
  }

  lemma ZeroKeeps(s: State, h: nat, t: State)
    requires Sound(s) && h < |s.pcs| && s.pcs[h].Zeroing? && WalkerStep(s, h, t)
    ensures Sound(t) && SameEntries(s, t)
  {
    var Zeroing(l, p, k) := s.pcs[h];
    assert PcOk(s, s.pcs[h], s.vpns[h]) && ToZero(s.pcs[h], p, k) && Pending(s, p, k);
    NewEntry(0);
    forall y: nat, j: nat | j < ENTRIES
      ensures Pending(t, y, j) <==> Pending(s, y, j) && !(y == p && j == k)
    {
      PendingAfter(s, h, Zeroed(l, p, k), t, y, j);
      if y == p {
        PendingOnlyBy(s, h, y, j);
      }
    }
    ZeroTables(s, p, k, t);
    OthersStore(s, h, Zeroed(l, p, k), t);
    EntriesKeepPcs(s, t, h);
  }

  lemma PendingOnlyBy(s: State, h: nat, y: nat, j: nat)
    requires OneZeroes(s) && h < |s.pcs| && s.pcs[h].Zeroing? && s.pcs[h].table == y
    ensures Pending(s, y, j) <==> ToZero(s.pcs[h], y, j)
  {
  }

  lemma ZeroTables(s: State, p: nat, k: nat, t: State)
    requires TablesOk(s) && p in s.dir && p in s.mem && k < |s.mem[p]| && Pending(s, p, k)
    requires t.mem == Wrote(s.mem, p, k, 0) && t.dir == s.dir
    requires forall y: nat, j: nat | j < ENTRIES :: Pending(t, y, j) <==> Pending(s, y, j) && !(y == p && j == k)
    ensures TablesOk(t) && SameEntries(s, t)
  {
    NewEntry(0);
    assert SlotOk(s, p, k);
    forall y, j: nat | y in t.dir && y in t.mem && j < |t.mem[y]|
      ensures SlotOk(t, y, j)
    {
      assert SlotOk(s, y, j);
    }
  }

  /** Where a valid interior entry leads is one level down. */
  lemma FollowOk(s: State, l: nat, x: nat, v: nat)
    requires Sound(s) && l > 0 && OnLevel(s, l, x) && EntryAt(s, x, Index(l, v)) != 0
    ensures PcOk(s, Onward(l, Ppn(s.mem[x][Index(l, v)])), v)
  {
    assert SlotOk(s, x, Index(l, v));
  }

  lemma SwapKeeps(s: State, h: nat, t: State)
    requires Sound(s) && h < |s.pcs| && s.pcs[h].Holding? && WalkerStep(s, h, t) && Undisturbed(s, h)
    ensures Sound(t) && Explained(s, h, t)
  {
    var Holding(l, x, p) := s.pcs[h];
    var v := s.vpns[h];
    assert PcOk(s, s.pcs[h], v);
    if SlotValue(s.mem, x, l, v) == 0 {
      PublishKeeps(s, h, t);
    } else {
      assert SlotOk(s, x, Index(l, v));
      NotZero(SlotValue(s.mem, x, l, v));
      QuietKeeps(s, h, Lost(l, x, p), s.pool, t);
    }
  }

  /** An undisturbed step keeps the directory sound and does what it means to do. */
  lemma UndisturbedStep(s: State, h: nat, t: State)
    requires Sound(s) && h < |s.pcs| && WalkerStep(s, h, t) && Undisturbed(s, h)
    ensures Sound(t) && Explained(s, h, t)
  {
    var v := s.vpns[h];
    assert PcOk(s, s.pcs[h], v);
    match s.pcs[h]
    case Reading(l, x) =>
      if Valid(SlotValue(s.mem, x, l, v)) {
        NotZero(SlotValue(s.mem, x, l, v));
      }
      QuietKeeps(s, h, t.pcs[h], s.pool, t);
    case Wanting(_, _) => QuietKeeps(s, h, t.pcs[h], t.pool, t);
    case Holding(_, _, _) => SwapKeeps(s, h, t);
    case Zeroing(_, _, _) => ZeroKeeps(s, h, t);
    case Lost(l, x, p) =>
      assert InHand(s.pcs[h], p);
      QuietKeeps(s, h, t.pcs[h], t.pool, t);
    case Rereading(l, x) =>
      FollowOk(s, l, x, v);
      QuietKeeps(s, h, t.pcs[h], s.pool, t);
    case Arrived(x) => QuietKeeps(s, h, t.pcs[h], s.pool, t);
    case Storing(x) =>
      var pte: nat :| Valid(pte) && t == Stored(s, h, pte);
      StoreKeeps(s, h, x, pte, t);
    case Ended =>
  }

  // ---------------------------------------------------------------- explained runs are undisturbed

  /** A run and which walker takes each step. */
  ghost predicate IsRun(run: seq<State>, hs: seq<nat>) {
    && |run| == |hs| + 1
    && forall k | 0 <= k < |hs| :: StepBy(run[k], hs[k], run[k + 1])
  }

  ghost predicate StepBy(s: State, h: nat, t: State) {
    h < |s.pcs| == |s.vpns| && WalkerStep(s, h, t)
  }

  ghost predicate ExplainedBy(s: State, h: nat, t: State) {
    h < |s.pcs| == |s.vpns| && Explained(s, h, t)
  }

  ghost predicate UndisturbedBy(s: State, h: nat) {
    h < |s.pcs| == |s.vpns| && Undisturbed(s, h)
  }

  /** No walker is in the middle of zeroing a table, or between testing and storing to a leaf slot. */
  ghost predicate Settled(s: State) {
    forall h | 0 <= h < |s.pcs| :: !s.pcs[h].Zeroing? && !s.pcs[h].Storing?
  }

  /** Walker g is about to wipe or to write over the valid entry in slot i of table x. */
  ghost predicate Threatened(s: State, g: nat, x: nat, i: nat) {
    g < |s.pcs| == |s.vpns| && EntryAt(s, x, i) != 0 && (ToZero(s.pcs[g], x, i) || StoresAt(s, g, x, i))
  }

  /** Two walkers are about to store to one slot. */
  ghost predicate Contended(s: State, g: nat, f: nat, x: nat, i: nat) {
    |s.pcs| == |s.vpns| && g != f && StoresAt(s, g, x, i) && StoresAt(s, f, x, i)
  }

  ghost predicate Doomed(s: State) {
    (exists g, x, i :: Threatened(s, g, x, i)) || (exists g, f, x, i :: Contended(s, g, f, x, i))
  }

  lemma SettledIsSafe(s: State)
    requires Settled(s)
    ensures !Doomed(s)
  {
  }

  lemma OthersStay(s: State, h: nat, t: State, g: nat)
    requires StepBy(s, h, t)
    ensures |t.pcs| == |s.pcs| && t.vpns == s.vpns
    ensures g < |s.pcs| && g != h ==> t.pcs[g] == s.pcs[g]
  {
  }

  /** As long as steps are explained, a threat stays: the step that carried it out would not be. */
  lemma ThreatStays(s: State, h: nat, t: State, g: nat, x: nat, i: nat)
    requires StepBy(s, h, t) && ExplainedBy(s, h, t) && Threatened(s, g, x, i)
    ensures Threatened(t, g, x, i)
  {
    OthersStay(s, h, t, g);
    ExplainedKeepsEntry(s, h, t, x, i);
    if g == h {
      NewEntry(0);
      assert s.pcs[h].next < i;
    } else {
      assert StoresAt(s, g, x, i) ==> StoresAt(t, g, x, i);
    }
  }

  lemma ExplainedKeepsEntry(s: State, h: nat, t: State, x: nat, i: nat)
    requires ExplainedBy(s, h, t) && EntryAt(s, x, i) != 0
    ensures EntryAt(t, x, i) == EntryAt(s, x, i)
    ensures !StoresAt(s, h, x, i)
  {
    NewEntry(0);
  }

  lemma ContentionStays(s: State, h: nat, t: State, g: nat, f: nat, x: nat, i: nat)
    requires StepBy(s, h, t) && ExplainedBy(s, h, t) && Contended(s, g, f, x, i)
    ensures Doomed(t)
  {
    OthersStay(s, h, t, g);
    OthersStay(s, h, t, f);
    if h != g && h != f {
      assert Contended(t, g, f, x, i);
    } else {
      var o := if h == g then f else g;
      assert StoresAt(t, o, x, i);
      assert Threatened(t, o, x, i);
    }
  }

  lemma DoomStays(s: State, h: nat, t: State)
    requires StepBy(s, h, t) && ExplainedBy(s, h, t) && Doomed(s)
    ensures Doomed(t)
  {
    if g, x, i :| Threatened(s, g, x, i) {
      ThreatStays(s, h, t, g, x, i);
    } else {
      var g, f, x, i :| Contended(s, g, f, x, i);
      ContentionStays(s, h, t, g, f, x, i);
    }
  }

  /** An explained swap or store leaves a valid entry in the slot it touched. */
  lemma TouchLeavesEntry(s: State, h: nat, t: State, x: nat, l: nat)
    requires Sound(s) && StepBy(s, h, t) && ExplainedBy(s, h, t)
    requires (s.pcs[h].Holding? && s.pcs[h].table == x && s.pcs[h].level == l) || (s.pcs[h] == Storing(x) && l == 0)
    ensures l <= 2 && EntryAt(t, x, Index(l, s.vpns[h])) != 0
  {
    assert PcOk(s, s.pcs[h], s.vpns[h]);
    if s.pcs[h].Holding? {
      var v := s.vpns[h];
      NewEntry(s.pcs[h].page);
      if SlotValue(s.mem, x, l, v) != 0 {
        NotZero(SlotValue(s.mem, x, l, v));
        assert EntryAt(t, x, Index(l, v)) == EntryAt(s, x, Index(l, v));
      }
    }
  }

  lemma TouchDooms(s: State, h: nat, t: State, x: nat, l: nat)
    requires Sound(s) && StepBy(s, h, t) && ExplainedBy(s, h, t)
    requires (s.pcs[h].Holding? && s.pcs[h].table == x && s.pcs[h].level == l) || (s.pcs[h] == Storing(x) && l == 0)
    ensures l <= 2 && (Pending(s, x, Index(l, s.vpns[h])) ==> Doomed(t))
  {
    TouchLeavesEntry(s, h, t, x, l);
    var i := Index(l, s.vpns[h]);
    if Pending(s, x, i) {
      var g :| 0 <= g < |s.pcs| && ToZero(s.pcs[g], x, i);
      OthersStay(s, h, t, g);
      assert Threatened(t, g, x, i);
    }
  }

  /** A step that is explained but disturbed leaves a state no run of explained steps can settle. */
  lemma DisturbedDooms(s: State, h: nat, t: State)
    requires Sound(s) && StepBy(s, h, t) && ExplainedBy(s, h, t)
    ensures Undisturbed(s, h) || Doomed(t)
  {
    assert PcOk(s, s.pcs[h], s.vpns[h]);
    match s.pcs[h]
    case Holding(l, x, p) =>
      TouchDooms(s, h, t, x, l);
      assert InHand(s.pcs[h], p);
      if SlotValue(s.mem, x, l, s.vpns[h]) == 0 {
        PublishEntries(s, h, t);
      }
    case Storing(x) => TouchDooms(s, h, t, x, 0);
    case Arrived(x) =>
      var i := Index(0, s.vpns[h]);
      if !Valid(SlotValue(s.mem, x, 0, s.vpns[h])) && exists g :: StoresAt(s, g, x, i) {
        var g :| StoresAt(s, g, x, i);
        OthersStay(s, h, t, g);
        assert StoresAt(t, h, x, i) && StoresAt(t, g, x, i);
        assert Contended(t, g, h, x, i);
      }
    case _ =>
  }

  ghost predicate KeptOver(kept: iset<State>, s: State, t: State) {
    s in kept ==> t in kept
  }

  lemma {:induction false} StaysIn(kept: iset<State>, run: seq<State>, k: nat, j: nat)
    requires k <= j < |run| && run[k] in kept && forall m | k <= m < j :: KeptOver(kept, run[m], run[m + 1])
    ensures run[j] in kept
    decreases j
  {
    if j > k {
      StaysIn(kept, run, k, j - 1);
      assert KeptOver(kept, run[j - 1], run[j - 1 + 1]);
    }
  }

  lemma DoomIsFinal(run: seq<State>, hs: seq<nat>, k: nat)
    requires IsRun(run, hs) && k <= |hs| && Doomed(run[k])
    requires forall m | 0 <= m < |hs| :: ExplainedBy(run[m], hs[m], run[m + 1])
    ensures Doomed(run[|hs|])
  {
    var kept := iset s: State | Doomed(s);
    forall m | k <= m < |hs|
      ensures KeptOver(kept, run[m], run[m + 1])
    {
      assert StepBy(run[m], hs[m], run[m + 1]) && ExplainedBy(run[m], hs[m], run[m + 1]);
      if Doomed(run[m]) {
        DoomStays(run[m], hs[m], run[m + 1]);
      }
    }
    StaysIn(kept, run, k, |hs|);
  }

  lemma ExplainedStep(run: seq<State>, hs: seq<nat>, k: nat)
    requires IsRun(run, hs) && k < |hs| && Settled(run[|hs|]) && Sound(run[k])
    requires forall m | 0 <= m < |hs| :: ExplainedBy(run[m], hs[m], run[m + 1])
    ensures UndisturbedBy(run[k], hs[k])
  {
    assert StepBy(run[k], hs[k], run[k + 1]) && ExplainedBy(run[k], hs[k], run[k + 1]);
    DisturbedDooms(run[k], hs[k], run[k + 1]);
    SettledIsSafe(run[|hs|]);
    if Doomed(run[k + 1]) {
      DoomIsFinal(run, hs, k + 1);
    }
  }

  lemma {:induction false} SoundSoFar(run: seq<State>, hs: seq<nat>, k: nat)
    requires IsRun(run, hs) && k <= |hs| && Sound(run[0])
    requires forall m | 0 <= m < k :: UndisturbedBy(run[m], hs[m])
    ensures Sound(run[k])
    ensures forall m | 0 <= m < k :: ExplainedBy(run[m], hs[m], run[m + 1])
    decreases k
  {
    if k > 0 {
      SoundSoFar(run, hs, k - 1);
      assert StepBy(run[k - 1], hs[k - 1], run[k - 1 + 1]) && UndisturbedBy(run[k - 1], hs[k - 1]);
      UndisturbedStep(run[k - 1], hs[k - 1], run[k]);
      assert ExplainedBy(run[k - 1], hs[k - 1], run[k]);
    }
  }

  lemma {:induction false} UndisturbedSoFar(run: seq<State>, hs: seq<nat>, k: nat)
    requires IsRun(run, hs) && k <= |hs| && Sound(run[0]) && Settled(run[|hs|])
    requires forall m | 0 <= m < |hs| :: ExplainedBy(run[m], hs[m], run[m + 1])
    ensures forall m | 0 <= m < k :: UndisturbedBy(run[m], hs[m])
    decreases k
  {
    if k > 0 {
      UndisturbedSoFar(run, hs, k - 1);
      SoundSoFar(run, hs, k - 1);
      ExplainedStep(run, hs, k - 1);
    }
  }

  /**
   The exact condition for the code as written, over every run that ends settled: every step does
   what it means to do if and only if no page is published with a valid entry in it, nobody swaps or
   stores in a slot between its table's publication and the zeroing of that slot, and no two
   walkers are at once between testing and storing to one leaf slot.
   */
  lemma HarmlessIff(run: seq<State>, hs: seq<nat>)
    requires IsRun(run, hs) && Sound(run[0]) && Settled(run[|hs|])
    ensures (forall m | 0 <= m < |hs| :: ExplainedBy(run[m], hs[m], run[m + 1])) <==>
            (forall m | 0 <= m < |hs| :: UndisturbedBy(run[m], hs[m]))
  {
    if forall m | 0 <= m < |hs| :: ExplainedBy(run[m], hs[m], run[m + 1]) {
      UndisturbedSoFar(run, hs, |hs|);
    }
    if forall m | 0 <= m < |hs| :: UndisturbedBy(run[m], hs[m]) {
      SoundSoFar(run, hs, |hs|);
    }
  }

  lemma ExplainedAt(run: seq<State>, hs: seq<nat>, k: nat)
    requires IsRun(run, hs) && k < |hs| && Sound(run[0])
    requires forall m | 0 <= m < |hs| :: UndisturbedBy(run[m], hs[m])
    ensures ExplainedBy(run[k], hs[k], run[k + 1])
  {
    SoundSoFar(run, hs, k + 1);
  }

  /** In an undisturbed run a valid entry, interior or leaf, is set once and never changes. */
  lemma EntrySetOnce(run: seq<State>, hs: seq<nat>, k: nat, j: nat, x: nat, i: nat)
    requires IsRun(run, hs) && k <= j <= |hs| && Sound(run[0]) && EntryAt(run[k], x, i) != 0
    requires forall m | 0 <= m < |hs| :: UndisturbedBy(run[m], hs[m])
    ensures EntryAt(run[j], x, i) == EntryAt(run[k], x, i)
  {
    var pte := EntryAt(run[k], x, i);
    var kept := iset s: State | EntryAt(s, x, i) == pte;
    forall m | k <= m < j
      ensures KeptOver(kept, run[m], run[m + 1])
    {
      ExplainedAt(run, hs, m);
      if run[m] in kept {
        ExplainedKeepsEntry(run[m], hs[m], run[m + 1], x, i);
      }
    }
    StaysIn(kept, run, k, j);
  }

  // ---------------------------------------------------------------- runs that lose an update

  lemma Joined(run: seq<State>, hs: seq<nat>, more: seq<State>, gs: seq<nat>)
    requires IsRun(run, hs) && IsRun(more, gs) && run[|hs|] == more[0]
    ensures IsRun(run + more[1..], hs + gs)
  {
    var all, who := run + more[1..], hs + gs;
    forall k | 0 <= k < |who|
      ensures StepBy(all[k], who[k], all[k + 1])
    {
      if k < |hs| {
        assert StepBy(run[k], hs[k], run[k + 1]);
      } else {
        assert StepBy(more[k - |hs|], gs[k - |hs|], more[k - |hs| + 1]);
      }
    }
  }

  /** Walker a goes on with its memset until slot i is zeroed. */
  lemma {:induction false} ZeroesOn(s: State, a: nat, i: nat) returns (run: seq<State>, hs: seq<nat>)
    requires a < |s.pcs| == |s.vpns| && s.pcs[a].Zeroing? && s.pcs[a].next <= i < ENTRIES
    requires s.pcs[a].table in s.mem && |s.mem[s.pcs[a].table]| == ENTRIES
    ensures IsRun(run, hs) && run[0] == s && (forall k | 0 <= k < |hs| :: hs[k] == a)
    ensures EntryAt(run[|hs|], s.pcs[a].table, i) == 0
    decreases i - s.pcs[a].next
  {
    NewEntry(0);
    var Zeroing(l, p, k) := s.pcs[a];
    var t := s.(mem := Wrote(s.mem, p, k, 0), pcs := s.pcs[a := Zeroed(l, p, k)]);
    assert StepBy(s, a, t);
    if k == i {
      run, hs := [s, t], [a];
    } else {
      var rest, gs := ZeroesOn(t, a, i);
      Joined([s, t], [a], rest, gs);
      run, hs := [s, t] + rest[1..], [a] + gs;
    }
  }

  /**
   Walker a is about to publish a page full of zeroes where walker b is about to read.  If b comes
   between a's swap and a's memset, what b writes into the new table is wiped.
   */
  ghost predicate AboutToRace(s: State, a: nat, b: nat, l: nat, x: nat, p: nat) {
    && Sound(s) && a != b && a < |s.pcs| && b < |s.pcs| && 0 < l <= 2
    && s.pcs[a] == Holding(l, x, p) && s.pcs[b] == Reading(l, x)
    && Index(l, s.vpns[a]) == Index(l, s.vpns[b])
    && SlotExists(s.mem, x, l, s.vpns[a]) && SlotValue(s.mem, x, l, s.vpns[a]) == 0
    && p in s.mem && s.mem[p] == ZeroTable()
  }

  /** Published by a, followed by b. */
  ghost function Followed(s: State, a: nat, b: nat, l: nat, x: nat, p: nat): (t: State)
    requires AboutToRace(s, a, b, l, x, p)
  {
    var s1 := Published(s, a);
    s1.(pcs := s1.pcs[b := Onward(l, p)])
  }

  lemma FollowedSteps(s: State, a: nat, b: nat, l: nat, x: nat, p: nat) returns (run: seq<State>)
    requires AboutToRace(s, a, b, l, x, p)
    ensures IsRun(run, [a, b, b]) && run[0] == s && run[3] == Followed(s, a, b, l, x, p)
    ensures var t := run[3];
            && t.pcs[a] == Zeroing(l, p, 0) && t.pcs[b] == Onward(l, p) && t.vpns == s.vpns && |t.pcs| == |s.pcs|
            && p in t.mem && t.mem[p] == ZeroTable() && p in t.dir && t.pool == s.pool
  {
    assert InHand(s.pcs[a], p);
    assert PcOk(s, s.pcs[a], s.vpns[a]);
    NewEntry(p);
    var s1 := Published(s, a);
    var s2 := s1.(pcs := s1.pcs[b := Rereading(l, x)]);
    assert s2.pcs[b := Onward(l, p)] == s1.pcs[b := Onward(l, p)];
    run := [s, s1, s2, Followed(s, a, b, l, x, p)];
    assert StepBy(s, a, s1) && StepBy(s1, b, s2) && StepBy(s2, b, run[3]);
  }

  /** A last-level table: b's leaf entry is there after its store and gone in the course of a's memset. */
  lemma LostMapping(s: State, a: nat, b: nat, x: nat, p: nat, pte: nat) returns (run: seq<State>, hs: seq<nat>)
    requires AboutToRace(s, a, b, 1, x, p) && Valid(pte)
    ensures IsRun(run, hs) && run[0] == s && |hs| > 5
    ensures EntryAt(run[5], p, Index(0, s.vpns[b])) == pte && EntryAt(run[|hs|], p, Index(0, s.vpns[b])) == 0
  {
    var first := FollowedSteps(s, a, b, 1, x, p);
    NewEntry(0);
    var s3 := first[3];
    var s4 := s3.(pcs := s3.pcs[b := Storing(p)]);
    var s5 := Stored(s4, b, pte);
    assert StepBy(s3, b, s4) && StepBy(s4, b, s5);
    Joined(first, [a, b, b], [s3, s4, s5], [b, b]);
    run, hs := first + [s3, s4, s5][1..], [a, b, b] + [b, b];
    var rest, gs := ZeroesOn(s5, a, Index(0, s.vpns[b]));
    Joined(run, hs, rest, gs);
    assert gs != [];
    run, hs := run + rest[1..], hs + gs;
  }

  /** A middle table: the table b hung in it is there after its swap and gone in the course of a's memset. */
  lemma LostInstall(s: State, a: nat, b: nat, x: nat, p: nat, q: nat) returns (run: seq<State>, hs: seq<nat>)
    requires AboutToRace(s, a, b, 2, x, p) && q in s.pool
    ensures IsRun(run, hs) && run[0] == s && |hs| > 6
    ensures EntryAt(run[6], p, Index(1, s.vpns[b])) == q * 1024 + 1 && EntryAt(run[|hs|], p, Index(1, s.vpns[b])) == 0
  {
    var first := FollowedSteps(s, a, b, 2, x, p);
    NewEntry(0);
    NewEntry(q);
    var s3 := first[3];
    var s4 := s3.(pcs := s3.pcs[b := Wanting(1, p)]);
    var s5 := s4.(pool := s4.pool - {q}, pcs := s4.pcs[b := Holding(1, p, q)]);
    var s6 := Published(s5, b);
    assert StepBy(s3, b, s4) && StepBy(s4, b, s5);
    assert StepBy(s5, b, s6);
    Joined(first, [a, b, b], [s3, s4, s5, s6], [b, b, b]);
    run, hs := first + [s3, s4, s5, s6][1..], [a, b, b] + [b, b, b];
    var rest, gs := ZeroesOn(s6, a, Index(1, s.vpns[b]));
    Joined(run, hs, rest, gs);
    assert gs != [];
    run, hs := run + rest[1..], hs + gs;
  }

  /** A leaf slot of a table long since zeroed: both walkers find it unset, and the second store replaces the first. */
  lemma LostStore(s: State, a: nat, b: nat, x: nat, e: nat, f: nat) returns (run: seq<State>)
    requires Sound(s) && a != b && a < |s.pcs| && b < |s.pcs| && s.pcs[a] == s.pcs[b] == Arrived(x) && e != f
    requires Index(0, s.vpns[a]) == Index(0, s.vpns[b]) && EntryAt(s, x, Index(0, s.vpns[a])) == 0 && Valid(e) && Valid(f)
    ensures IsRun(run, [a, b, a, b]) && run[0] == s
    ensures EntryAt(run[3], x, Index(0, s.vpns[a])) == e && EntryAt(run[4], x, Index(0, s.vpns[a])) == f
    ensures !UndisturbedBy(run[1], b) && !ExplainedBy(run[3], b, run[4])
  {
    assert PcOk(s, s.pcs[a], s.vpns[a]);
    NotZero(e);
    NotZero(f);
    var i := Index(0, s.vpns[a]);
    var s1 := s.(pcs := s.pcs[a := Storing(x)]);
    var s2 := s1.(pcs := s1.pcs[b := Storing(x)]);
    var s3 := Stored(s2, a, e);
    var s4 := Stored(s3, b, f);
    assert StepBy(s, a, s1) && StepBy(s1, b, s2);
    assert StepBy(s2, a, s3) && StepBy(s3, b, s4);
    assert StoresAt(s1, a, x, i);
    run := [s, s1, s2, s3, s4];
  }

  /** A directory with one last-level table, zeroed, and two walkers at it: sound, settled, and open to that race. */
  lemma LostStoreState(root: nat, mid: nat, leaf: nat, v: nat) returns (s: State)
    requires root != mid && mid != leaf && root != leaf
    ensures Sound(s) && Settled(s) && s.pcs == [Arrived(leaf), Arrived(leaf)] && s.vpns == [v, v]
    ensures EntryAt(s, leaf, Index(0, v)) == 0
  {
    NewEntry(0);
    NewEntry(mid);
    NewEntry(leaf);
    var top, middle := ZeroTable()[Index(2, v) := mid * 1024 + 1], ZeroTable()[Index(1, v) := leaf * 1024 + 1];
    s := State(map[root := top, mid := middle, leaf := ZeroTable()], map[root := 2, mid := 1, leaf := 0], {},
               [Arrived(leaf), Arrived(leaf)], [v, v]);
  }

  // ---------------------------------------------------------------- where runs start

  /** A zeroed directory, pages with any contents in the pool, and walkers about to read the root. */
  ghost function Start(root: nat, mem: Tables, vpns: seq<nat>): (s: State) {
    State(mem[root := ZeroTable()], map[root := 2], mem.Keys - {root}, seq(|vpns|, _ => Reading(2, root)), vpns)
  }

  lemma StartIsSound(root: nat, mem: Tables, vpns: seq<nat>)
    requires forall x | x in mem :: |mem[x]| == ENTRIES
    ensures Sound(Start(root, mem, vpns)) && Settled(Start(root, mem, vpns))
  {
    NewEntry(0);
  }

  /** Two steps from the start, two walkers of one region race on the root. */
  lemma StartReachesRace(root: nat, mem: Tables, vpns: seq<nat>, p: nat) returns (run: seq<State>)
    requires (forall x | x in mem :: |mem[x]| == ENTRIES) && p in mem && p != root && mem[p] == ZeroTable()
    requires |vpns| >= 2 && Index(2, vpns[0]) == Index(2, vpns[1])
    ensures IsRun(run, [0, 0]) && run[0] == Start(root, mem, vpns)
    ensures AboutToRace(run[2], 0, 1, 2, root, p) && run[2].pool == mem.Keys - {root, p}
  {
    NewEntry(0);
    StartIsSound(root, mem, vpns);
    var s0 := Start(root, mem, vpns);
    var s1 := s0.(pcs := s0.pcs[0 := Wanting(2, root)]);
    var s2 := s1.(pool := s1.pool - {p}, pcs := s1.pcs[0 := Holding(2, root, p)]);
    assert StepBy(s0, 0, s1);
    UndisturbedStep(s0, 0, s1);
    assert p in s1.pool && StepBy(s1, 0, s2);
    UndisturbedStep(s1, 0, s2);
    run := [s0, s1, s2];
  }

  // ---------------------------------------------------------------- what even a disturbed walk does

  /** Accesses yet to make: at most three, and 512 stores of zero, at each level, then the leaf's two. */
  function AccessesLeft(pc: Pc): (n: int) {
    match pc
    case Reading(l, _) => if l == 2 then 1032 else 517
    case Wanting(l, _) => if l == 2 then 1031 else 516
    case Holding(l, _, _) => if l == 2 then 1030 else 515
    case Zeroing(l, _, k) => (if l == 2 then 1029 else 514) - k
    case Lost(l, _, _) => if l == 2 then 519 else 4
    case Rereading(l, _) => if l == 2 then 518 else 3
    case Arrived(_) => 2
    case Storing(_) => 1
    case Ended => 0
  }

  /** A walker can step until it has ended, and whatever the others do it makes at most 1032 accesses. */
  lemma WalkEnds(s: State, h: nat)
    requires Sound(s) && h < |s.pcs|
    ensures s.pcs[h].Ended? <==> !exists t :: WalkerStep(s, h, t)
    ensures forall t | WalkerStep(s, h, t) ::
              h < |t.pcs| && 0 <= AccessesLeft(t.pcs[h]) < AccessesLeft(s.pcs[h]) <= 1032
  {
    assert PcOk(s, s.pcs[h], s.vpns[h]);
    if !s.pcs[h].Ended? {
      WalkerCanStep(s, h);
    }
    forall t | WalkerStep(s, h, t)
      ensures h < |t.pcs| && 0 <= AccessesLeft(t.pcs[h]) < AccessesLeft(s.pcs[h]) <= 1032
    {
      AccessCounts(s, h, t);
    }
  }

  ghost predicate LevelFits(pc: Pc) {
    match pc
    case Zeroing(l, _, k) => (l == 1 || l == 2) && k < ENTRIES
    case Arrived(_) => true
    case Storing(_) => true
    case Ended => true
    case _ => pc.level == 1 || pc.level == 2
  }

  lemma AccessCounts(s: State, h: nat, t: State)
    requires h < |s.pcs| == |s.vpns| && WalkerStep(s, h, t) && LevelFits(s.pcs[h])
    ensures h < |t.pcs| && 0 <= AccessesLeft(t.pcs[h]) < AccessesLeft(s.pcs[h]) <= 1032
  {
  }

  lemma WalkerCanStep(s: State, h: nat)
    requires Sound(s) && h < |s.pcs| && !s.pcs[h].Ended?
    ensures exists t :: WalkerStep(s, h, t)
  {
    var v := s.vpns[h];
    assert PcOk(s, s.pcs[h], v);
    match s.pcs[h]
    case Reading(l, x) =>
      assert WalkerStep(s, h, s.(pcs := s.pcs[h := if Valid(SlotValue(s.mem, x, l, v)) then Rereading(l, x)
                                                   else Wanting(l, x)]));
    case Wanting(l, x) =>
      if s.pool == {} {
        assert WalkerStep(s, h, s.(pcs := s.pcs[h := Ended]));
      } else {
        var p :| p in s.pool;
        assert WalkerStep(s, h, s.(pool := s.pool - {p}, pcs := s.pcs[h := Holding(l, x, p)]));
      }
    case Holding(l, x, p) =>
      assert SlotExists(s.mem, x, l, v);
      assert WalkerStep(s, h, if SlotValue(s.mem, x, l, v) == 0 then Published(s, h)
                              else s.(pcs := s.pcs[h := Lost(l, x, p)]));
    case Zeroing(l, p, k) =>
      assert WalkerStep(s, h, s.(mem := Wrote(s.mem, p, k, 0), pcs := s.pcs[h := Zeroed(l, p, k)]));
    case Lost(l, x, p) => assert WalkerStep(s, h, s.(pool := s.pool + {p}, pcs := s.pcs[h := Rereading(l, x)]));
    case Rereading(l, x) =>
      assert WalkerStep(s, h, s.(pcs := s.pcs[h := Onward(l, Ppn(SlotValue(s.mem, x, l, v)))]));
    case Arrived(x) =>
      assert WalkerStep(s, h, s.(pcs := s.pcs[h := if Valid(SlotValue(s.mem, x, 0, v)) then Ended else Storing(x)]));
    case Storing(x) =>
      assert WalkerStep(s, h, Stored(s, h, 1));
  }

  ghost function HandPages(pcs: seq<Pc>): (ps: set<nat>) {
    set h | 0 <= h < |pcs| && (pcs[h].Holding? || pcs[h].Lost?) :: pcs[h].page
  }

  lemma HandPagesAfter(pcs: seq<Pc>, h: nat, pc: Pc, q: nat)
    requires h < |pcs| && forall g, p | 0 <= g < |pcs| && g != h && InHand(pcs[h], p) :: !InHand(pcs[g], p)
    ensures q in HandPages(pcs[h := pc]) <==> InHand(pc, q) || (q in HandPages(pcs) && !InHand(pcs[h], q))
  {
    var after := pcs[h := pc];
    if q in HandPages(after) {
      var g :| 0 <= g < |after| && (after[g].Holding? || after[g].Lost?) && after[g].page == q;
      assert g != h ==> InHand(pcs[g], q);
      assert g == h ==> InHand(pc, q);
    }
    if InHand(pc, q) {
      assert after[h].page == q;
    }
    if q in HandPages(pcs) && !InHand(pcs[h], q) {
      var g :| 0 <= g < |pcs| && (pcs[g].Holding? || pcs[g].Lost?) && pcs[g].page == q;
      assert after[g] == pcs[g];
    }
  }

  lemma StepKeepsApart(s: State, h: nat, t: State)
    requires PagesApart(s) && h < |s.pcs| == |s.vpns| && WalkerStep(s, h, t)
    ensures PagesApart(t)
  {
    var pc := t.pcs[h];
    if s.pcs[h].Holding? && SlotValue(s.mem, s.pcs[h].table, s.pcs[h].level, s.vpns[h]) == 0 {
      assert InHand(s.pcs[h], s.pcs[h].page);
      PublishApart(s, h, s.pcs[h].page, pc, t);
    } else if s.pcs[h].Zeroing? || s.pcs[h].Storing? {
      WriteApart(s, h, pc, t);
    } else {
      assert s.pcs[h].Lost? ==> InHand(s.pcs[h], s.pcs[h].page);
      QuietApart(s, h, pc, t.pool, t);
    }
  }

  lemma WriteApart(s: State, h: nat, pc: Pc, t: State)
    requires PagesApart(s) && h < |s.pcs| && t.pcs == s.pcs[h := pc] && (forall q :: !InHand(pc, q))
    requires t.mem.Keys == s.mem.Keys && t.dir == s.dir && t.pool == s.pool
    ensures PagesApart(t)
  {
  }

  /** Races lose entries, not pages: every page stays in the directory, with the allocator or in a walker's hands. */
  lemma StepConserves(s: State, h: nat, t: State)
    requires PagesApart(s) && h < |s.pcs| == |s.vpns| && WalkerStep(s, h, t)
    ensures t.dir.Keys + t.pool + HandPages(t.pcs) == s.dir.Keys + s.pool + HandPages(s.pcs)
    ensures PagesApart(t)
  {
    StepKeepsApart(s, h, t);
    forall q
      ensures q in t.dir.Keys + t.pool + HandPages(t.pcs) <==> q in s.dir.Keys + s.pool + HandPages(s.pcs)
    {
      if q >= 0 {
        HandPagesAfter(s.pcs, h, t.pcs[h], q);
      }
    }
  }
}
