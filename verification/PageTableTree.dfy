/**
 Sv39 page tables (kernel/vmm.c, macros of kernel/riscv.h) as values: a three-level
 tree of 512-entry tables held in physical pages, and the map from virtual page
 number to page table entry that it represents.
 */
module PageTableTree {
  import opened Rounding

  const ENTRIES: nat := 512
  const MAXVA: nat := 0x40_0000_0000
  const VPNS: nat := 512 * 512 * 512

  // ---------------------------------------------------------------- entries and indices

  /** PTE_V, PTE_R, PTE_W, PTE_X and PTE_U are bits 0 to 4 of an entry. */
  predicate Valid(pte: nat) {
    pte % 2 == 1
  }

  predicate Bit(pte: nat, weight: nat)
    requires weight > 0
  {
    (pte / weight) % 2 == 1
  }

  /** PA2PTE: the page number of a physical address, shifted past the ten flag bits. */
  function Pa2Pte(pa: nat): (r: nat) {
    pa / 4096 * 1024
  }

  /** PTE2PA: the physical address of the page an entry names. */
  function Pte2Pa(pte: nat): (r: nat) {
    pte / 1024 * 4096
  }

  function PteFlags(pte: nat): (r: nat) {
    pte % 1024
  }

  /** The physical page number an entry names. */
  function Ppn(pte: nat): (r: nat) {
    pte / 1024
  }

  /** PA2PTE(pa) | perm | PTE_V, for flags that fit the ten flag bits. */
  function Entry(pa: nat, perm: nat): (r: nat)
    requires perm < 1024
  {
    Pa2Pte(pa) + if perm % 2 == 1 then perm else perm + 1
  }

  /** Address and flags are recovered from an entry, and an entry of a 64-bit address fits in 64 bits. */
  lemma EntryRoundTrip(pa: nat, perm: nat)
    requires perm < 1024
    ensures Valid(Entry(pa, perm))
    ensures Pte2Pa(Entry(pa, perm)) == pa / 4096 * 4096 && Ppn(Entry(pa, perm)) == pa / 4096
    ensures PteFlags(Entry(pa, perm)) == if perm % 2 == 1 then perm else perm + 1
    ensures pa < 0x1_0000_0000_0000_0000 ==> Entry(pa, perm) < 0x4000_0000_0000_0000
  {
    var f := if perm % 2 == 1 then perm else perm + 1;
    Packed(pa / 4096, f);
    PackedParity(pa / 4096, f);
  }

  lemma Packed(a: nat, f: nat)
    requires f < 1024
    ensures (a * 1024 + f) / 1024 == a && (a * 1024 + f) % 1024 == f
  {
  }

  lemma PackedParity(a: nat, f: nat)
    ensures (a * 1024 + f) % 2 == f % 2
  {
    assert a * 1024 + f == 2 * (a * 512) + f;
  }

  /** PX(level, va). */
  function Px(level: nat, va: nat): (r: nat)
    requires level <= 2
    ensures r < ENTRIES
  {
    if level == 2 then va / 0x4000_0000 % 512
    else if level == 1 then va / 0x20_0000 % 512
    else va / 0x1000 % 512
  }

  /** The index used at a level, from the virtual page number. */
  function Index(level: nat, vpn: nat): (r: nat)
    requires level <= 2
    ensures r < ENTRIES
  {
    if level == 2 then vpn / 262144 % 512 else if level == 1 then vpn / 512 % 512 else vpn % 512
  }

  lemma PxIsIndex(level: nat, va: nat)
    requires level <= 2
    ensures Px(level, va) == Index(level, va / PGSIZE)
  {
  }

  /** The three indices determine a virtual page below 2^27. */
  lemma IndicesInjective(v: nat, w: nat)
    requires v < VPNS && w < VPNS
    requires Index(2, v) == Index(2, w) && Index(1, v) == Index(1, w) && Index(0, v) == Index(0, w)
    ensures v == w
  {
    Recompose(v);
    Recompose(w);
  }

  lemma Recompose(v: nat)
    requires v < VPNS
    ensures v == Index(2, v) * 262144 + Index(1, v) * 512 + Index(0, v)
  {
    var a := v / 512;
    assert a / 512 == v / 262144;
    assert v / 262144 < 512;
    assert a == a / 512 * 512 + a % 512 && v == a * 512 + v % 512;
  }

  // ---------------------------------------------------------------- the tree

  type Tables = map<nat, seq<nat>>

  /** The pages of a directory: its root, its middle tables and its leaf tables. */
  datatype Shape = Shape(root: nat, mids: set<nat>, leaves: set<nat>)

  ghost function All(s: Shape): (r: set<nat>) {
    {s.root} + s.mids + s.leaves
  }

  /** Slot i of table t, an interior slot that is set. */
  ghost predicate Interior(ts: Tables, s: Shape, t: int, i: int) {
    t in ts && (t == s.root || t in s.mids) && 0 <= i < |ts[t]| && Valid(ts[t][i])
  }

  ghost predicate TreeOk(ts: Tables, s: Shape) {
    && ts.Keys == All(s)
    && s.root !in s.mids && s.root !in s.leaves && s.mids !! s.leaves
    && (forall t | t in ts :: |ts[t]| == ENTRIES)
    && (forall i | 0 <= i < ENTRIES && Valid(ts[s.root][i]) :: Ppn(ts[s.root][i]) in s.mids)
    && (forall t, i | t in s.mids && 0 <= i < ENTRIES && Valid(ts[t][i]) :: Ppn(ts[t][i]) in s.leaves)
    && (forall t, i, u, j | Interior(ts, s, t, i) && Interior(ts, s, u, j) && Ppn(ts[t][i]) == Ppn(ts[u][j]) ::
          t == u && i == j)
  }

  ghost predicate HasParent(ts: Tables, s: Shape, c: nat) {
    exists t, i :: Interior(ts, s, t, i) && Ppn(ts[t][i]) == c
  }

  /** Every middle and leaf table hangs from a slot of the tree. */
  ghost predicate Hung(ts: Tables, s: Shape) {
    forall c {:trigger HasParent(ts, s, c)} | c in s.mids || c in s.leaves :: HasParent(ts, s, c)
  }

  datatype Slot = NoSlot | Slot(table: nat, index: nat)

  /** The table reached at a level on the way to vpn. */
  ghost function MidOf(ts: Tables, s: Shape, vpn: nat): (r: Slot)
    requires TreeOk(ts, s)
  {
    var e := ts[s.root][Index(2, vpn)];
    if Valid(e) then Slot(Ppn(e), Index(1, vpn)) else NoSlot
  }

  /** The leaf slot of a virtual page, if its tables exist. */
  ghost function SlotOf(ts: Tables, s: Shape, vpn: nat): (r: Slot)
    requires TreeOk(ts, s)
    ensures r.Slot? ==> r.table in s.leaves && r.index == Index(0, vpn)
  {
    match MidOf(ts, s, vpn)
    case NoSlot => NoSlot
    case Slot(t, i) => if Valid(ts[t][i]) then Slot(Ppn(ts[t][i]), Index(0, vpn)) else NoSlot
  }

  /** The map the tree represents: the valid leaf entry of a virtual page, or 0. */
  ghost function Lookup(ts: Tables, s: Shape, vpn: nat): (pte: nat)
    requires TreeOk(ts, s)
  {
    match SlotOf(ts, s, vpn)
    case NoSlot => 0
    case Slot(t, i) => if Valid(ts[t][i]) then ts[t][i] else 0
  }

  /** Different virtual pages have different leaf slots. */
  lemma SlotsInjective(ts: Tables, s: Shape, v: nat, w: nat)
    requires TreeOk(ts, s) && v < VPNS && w < VPNS
    requires SlotOf(ts, s, v).Slot? && SlotOf(ts, s, v) == SlotOf(ts, s, w)
    ensures v == w
  {
    var m, n := MidOf(ts, s, v), MidOf(ts, s, w);
    assert Interior(ts, s, s.root, Index(2, v)) && Interior(ts, s, s.root, Index(2, w));
    assert Interior(ts, s, m.table, m.index) && Interior(ts, s, n.table, n.index);
    IndicesInjective(v, w);
  }

  // ---------------------------------------------------------------- growing the tree

  function ZeroTable(): (t: seq<nat>)
    ensures |t| == ENTRIES
  {
    seq(ENTRIES, _ => 0)
  }

  /** A zeroed page p installed in slot i of table t. */
  ghost function Installed(ts: Tables, t: nat, i: nat, p: nat): (r: Tables)
    requires t in ts && i < |ts[t]|
  {
    var table: seq<nat> := ts[t];
    ts[p := ZeroTable()][t := table[i := p * 1024 + 1]]
  }

  ghost function Grown(s: Shape, t: nat, p: nat): (r: Shape) {
    if t == s.root then s.(mids := s.mids + {p}) else s.(leaves := s.leaves + {p})
  }

  /** The slot a walk to vpn looks at in table t of a level exists. */
  ghost predicate SlotExists(ts: Tables, t: nat, level: nat, vpn: nat) {
    level <= 2 && t in ts && |ts[t]| == ENTRIES
  }

  ghost function SlotValue(ts: Tables, t: nat, level: nat, vpn: nat): (pte: nat)
    requires SlotExists(ts, t, level, vpn)
  {
    ts[t][Index(level, vpn)]
  }

  lemma NewEntry(p: nat)
    ensures Valid(p * 1024 + 1) && Ppn(p * 1024 + 1) == p && !Valid(0)
  {
    Packed(p, 1);
    PackedParity(p, 1);
  }

  lemma InteriorAfterInstall(ts: Tables, s: Shape, t: nat, i: nat, p: nat, u: int, j: int)
    requires TreeOk(ts, s) && (t == s.root || t in s.mids) && i < ENTRIES && !Valid(ts[t][i]) && p !in ts
    ensures Interior(Installed(ts, t, i, p), Grown(s, t, p), u, j) <==> Interior(ts, s, u, j) || (u == t && j == i)
    ensures Interior(ts, s, u, j) ==> Installed(ts, t, i, p)[u][j] == ts[u][j] && Ppn(ts[u][j]) in ts
  {
    NewEntry(p);
  }

  lemma InstallOk(ts: Tables, s: Shape, t: nat, i: nat, p: nat)
    requires TreeOk(ts, s) && (t == s.root || t in s.mids) && i < ENTRIES && !Valid(ts[t][i]) && p !in ts
    ensures TreeOk(Installed(ts, t, i, p), Grown(s, t, p))
  {
    var ts', s' := Installed(ts, t, i, p), Grown(s, t, p);
    NewEntry(p);
    assert ts'.Keys == All(s');
    forall u, j, w, k | Interior(ts', s', u, j) && Interior(ts', s', w, k) && Ppn(ts'[u][j]) == Ppn(ts'[w][k])
      ensures u == w && j == k
    {
      InteriorAfterInstall(ts, s, t, i, p, u, j);
      InteriorAfterInstall(ts, s, t, i, p, w, k);
    }
  }

  lemma InstallKeepsHung(ts: Tables, s: Shape, t: nat, i: nat, p: nat)
    requires TreeOk(ts, s) && Hung(ts, s) && (t == s.root || t in s.mids) && i < ENTRIES && !Valid(ts[t][i]) && p !in ts
    ensures Hung(Installed(ts, t, i, p), Grown(s, t, p))
  {
    var ts', s' := Installed(ts, t, i, p), Grown(s, t, p);
    NewEntry(p);
    forall c | c in s'.mids || c in s'.leaves
      ensures HasParent(ts', s', c)
    {
      if c == p {
        assert Interior(ts', s', t, i) && Ppn(ts'[t][i]) == p;
      } else {
        assert HasParent(ts, s, c);
        var u, j :| Interior(ts, s, u, j) && Ppn(ts[u][j]) == c;
        InteriorAfterInstall(ts, s, t, i, p, u, j);
        assert Interior(ts', s', u, j) && Ppn(ts'[u][j]) == c;
      }
    }
  }

  /** Installing an empty table changes no translation. */
  lemma InstallKeepsLookup(ts: Tables, s: Shape, t: nat, i: nat, p: nat, vpn: nat)
    requires TreeOk(ts, s) && (t == s.root || t in s.mids) && i < ENTRIES && !Valid(ts[t][i]) && p !in ts
    requires TreeOk(Installed(ts, t, i, p), Grown(s, t, p))
    ensures Lookup(Installed(ts, t, i, p), Grown(s, t, p), vpn) == Lookup(ts, s, vpn)
  {
    NewEntry(p);
  }

  // ---------------------------------------------------------------- writing a leaf

  ghost function Written(ts: Tables, t: nat, i: nat, pte: nat): (r: Tables)
    requires t in ts && i < |ts[t]|
  {
    var table: seq<nat> := ts[t];
    ts[t := table[i := pte]]
  }

  lemma WriteOk(ts: Tables, s: Shape, t: nat, i: nat, pte: nat)
    requires TreeOk(ts, s) && t in s.leaves && i < ENTRIES
    ensures TreeOk(Written(ts, t, i, pte), s) && (Hung(ts, s) ==> Hung(Written(ts, t, i, pte), s))
  {
    var ts' := Written(ts, t, i, pte);
    assert ts'.Keys == ts.Keys;
    forall u, j
      ensures Interior(ts', s, u, j) <==> Interior(ts, s, u, j)
      ensures Interior(ts, s, u, j) ==> ts'[u][j] == ts[u][j]
    {
    }
    if Hung(ts, s) {
      forall c | c in s.mids || c in s.leaves
        ensures HasParent(ts', s, c)
      {
        assert HasParent(ts, s, c);
        var u, j :| Interior(ts, s, u, j) && Ppn(ts[u][j]) == c;
        assert Interior(ts', s, u, j) && Ppn(ts'[u][j]) == c;
      }
    }
  }

  /** Writing the leaf slot of one virtual page changes the translation of that page alone. */
  lemma WriteChangesOne(ts: Tables, s: Shape, v: nat, pte: nat, w: nat)
    requires TreeOk(ts, s) && v < VPNS && w < VPNS && SlotOf(ts, s, v).Slot?
    requires TreeOk(Written(ts, SlotOf(ts, s, v).table, SlotOf(ts, s, v).index, pte), s)
    ensures var ts' := Written(ts, SlotOf(ts, s, v).table, SlotOf(ts, s, v).index, pte);
            SlotOf(ts', s, w) == SlotOf(ts, s, w) &&
            Lookup(ts', s, w) == if w == v then (if Valid(pte) then pte else 0) else Lookup(ts, s, w)
  {
    if w != v && SlotOf(ts, s, w) == SlotOf(ts, s, v) {
      SlotsInjective(ts, s, v, w);
    }
  }
}
