/**
 The page table operations of kernel/vmm.c on a directory in memory: page_walk,
 map_pages, lookup_pa, user_va_to_pa, user_vm_unmap and kern_vm_init.  Their
 contracts speak of the map from virtual pages to entries, PageTableTree.Lookup.
 */
module PageTables {
  import opened Collections
  import opened PageTableTree
  import opened Rounding

  const WORD: nat := 0x1_0000_0000_0000_0000

  datatype Walked = BadAddress | NoTable | Found(table: nat, index: nat)

  datatype MapResult = Mapped | Failed | PanicAddress | PanicMapped

  datatype Translation = Panicked | Unmapped | Address(pa: nat)

  /** alloc_page hands out pages not in use by the directory, each once. */
  ghost predicate PoolOk(pool: seq<nat>, ts: Tables) {
    && Distinct(pool)
    && (forall i | 0 <= i < |pool| :: pool[i] !in ts)
  }

  ghost predicate SameMap(ts: Tables, s: Shape, ts': Tables, s': Shape)
    requires TreeOk(ts, s) && TreeOk(ts', s')
  {
    forall v: nat :: Lookup(ts', s', v) == Lookup(ts, s, v)
  }

  /** ROUNDDOWN to a page. */
  function PageStart(a: nat): (r: nat)
    ensures r % PGSIZE == 0 && r <= a < r + PGSIZE && r / PGSIZE == a / PGSIZE
  {
    RoundDown(a, PGSIZE)
  }

  /** va + size - 1 in 64-bit arithmetic, rounded down to a page. */
  function LastPage(va: nat, size: nat): (r: nat)
    ensures r % PGSIZE == 0
    ensures 0 < va + size <= WORD ==> r <= va + size - 1 < r + PGSIZE
  {
    assert 0 < va + size <= WORD ==> (va + size + WORD - 1) % WORD == va + size - 1;
    PageStart((va + size + WORD - 1) % WORD)
  }

  /** Installing in the slot met on the walk to vpn moves the walk one table further. */
  lemma InstallStep(ts: Tables, s: Shape, t: nat, i: nat, p: nat)
    requires TreeOk(ts, s) && Hung(ts, s) && (t == s.root || t in s.mids) && i < ENTRIES && !Valid(ts[t][i]) && p !in ts
    ensures TreeOk(Installed(ts, t, i, p), Grown(s, t, p)) && Hung(Installed(ts, t, i, p), Grown(s, t, p))
    ensures SameMap(ts, s, Installed(ts, t, i, p), Grown(s, t, p))
    ensures Installed(ts, t, i, p)[t][i] == p * 1024 + 1
  {
    InstallOk(ts, s, t, i, p);
    InstallKeepsHung(ts, s, t, i, p);
    forall v: nat
      ensures Lookup(Installed(ts, t, i, p), Grown(s, t, p), v) == Lookup(ts, s, v)
    {
      InstallKeepsLookup(ts, s, t, i, p, v);
    }
  }

  // ---------------------------------------------------------------- the walk on values

  /** A directory and the pages alloc_page may still give. */
  datatype Space = Space(tables: Tables, shape: Shape, pool: seq<nat>)

  /** Well-formed directories: a tree whose every table hangs from one slot, and pages not in it. */
  ghost function WellFormed(): (ds: iset<Space>) {
    iset d: Space | TreeOk(d.tables, d.shape) && Hung(d.tables, d.shape) && PoolOk(d.pool, d.tables)
  }

  ghost predicate SpaceOk(d: Space) {
    d in WellFormed()
  }

  /** One turn of the walk: slot i of table t is followed, or filled with a zeroed table. */
  ghost function Descended(d: Space, t: nat, i: nat, alloc: bool): (r: Space)
    requires t in d.tables && i < |d.tables[t]|
  {
    if Valid(d.tables[t][i]) || !alloc || d.pool == [] then d
    else Space(Installed(d.tables, t, i, d.pool[0]), Grown(d.shape, t, d.pool[0]), d.pool[1..])
  }

  /** Slot i of table t is an interior slot of the directory. */
  ghost predicate InteriorSlot(d: Space, t: nat, i: nat) {
    (t == d.shape.root || t in d.shape.mids) && i < ENTRIES
  }

  lemma DescendOk(d: Space, t: nat, i: nat, alloc: bool)
    requires SpaceOk(d) && InteriorSlot(d, t, i)
    ensures t in d.tables && i < |d.tables[t]|
    ensures var d' := Descended(d, t, i, alloc);
            && SpaceOk(d') && d'.shape.root == d.shape.root && d.shape.mids <= d'.shape.mids
            && SameMap(d.tables, d.shape, d'.tables, d'.shape)
            && (!Valid(d'.tables[t][i]) ==> d' == d && (alloc ==> d.pool == []))
            && (t != d.shape.root ==> d'.tables[d.shape.root] == d.tables[d.shape.root])
            && AllPages(d') == AllPages(d) && |d.pool| - 1 <= |d'.pool| <= |d.pool|
            && (Valid(d.tables[t][i]) ==> d' == d)
  {
    if !Valid(d.tables[t][i]) && alloc && d.pool != [] {
      InstallStep(d.tables, d.shape, t, i, d.pool[0]);
      NewEntry(d.pool[0]);
      PoolShrinks(d.pool, d.tables, Installed(d.tables, t, i, d.pool[0]));
      PagesKept(d, t, i);
    }
  }

  /** Every page of a directory: its tables and the pages alloc_page may still give. */
  ghost function AllPages(d: Space): (ps: set<nat>) {
    d.tables.Keys + set p | p in d.pool
  }

  lemma PagesKept(d: Space, t: nat, i: nat)
    requires t in d.tables && i < |d.tables[t]| && d.pool != []
    ensures AllPages(Space(Installed(d.tables, t, i, d.pool[0]), Grown(d.shape, t, d.pool[0]), d.pool[1..])) == AllPages(d)
  {
    assert d.pool == [d.pool[0]] + d.pool[1..];
  }

  lemma PoolShrinks(pool: seq<nat>, ts: Tables, ts': Tables)
    requires PoolOk(pool, ts) && pool != [] && ts'.Keys == ts.Keys + {pool[0]}
    ensures PoolOk(pool[1..], ts')
  {
  }

  /** The directory after page_walk has looked for vpn. */
  ghost function WalkedSpace(d: Space, vpn: nat, alloc: bool): (r: Space)
    requires SpaceOk(d)
  {
    DescendOk(d, d.shape.root, Index(2, vpn), alloc);
    var d1 := Descended(d, d.shape.root, Index(2, vpn), alloc);
    match MidOf(d1.tables, d1.shape, vpn)
    case NoSlot => d1
    case Slot(t, i) =>
      DescendOk(d1, t, i, alloc);
      Descended(d1, t, i, alloc)
  }

  /** page_walk keeps the map; it fails only without alloc or without pages. */
  lemma WalkOk(d: Space, vpn: nat, alloc: bool)
    requires SpaceOk(d)
    ensures var r := WalkedSpace(d, vpn, alloc);
            && SpaceOk(r) && r.shape.root == d.shape.root
            && SameMap(d.tables, d.shape, r.tables, r.shape)
            && (SlotOf(r.tables, r.shape, vpn) == NoSlot ==> alloc ==> r.pool == [])
            && (!alloc || SlotOf(d.tables, d.shape, vpn).Slot? ==> r == d)
            && AllPages(r) == AllPages(d) && |d.pool| - 2 <= |r.pool|
  {
    DescendOk(d, d.shape.root, Index(2, vpn), alloc);
    var d1 := Descended(d, d.shape.root, Index(2, vpn), alloc);
    var m := MidOf(d1.tables, d1.shape, vpn);
    if m.Slot? {
      DescendOk(d1, m.table, m.index, alloc);
    }
  }

  /** Writing the leaf slot found for vpn. */
  ghost function WrittenSpace(d: Space, vpn: nat, pte: nat): (r: Space)
    requires SpaceOk(d) && SlotOf(d.tables, d.shape, vpn).Slot?
  {
    d.(tables := Written(d.tables, SlotOf(d.tables, d.shape, vpn).table, SlotOf(d.tables, d.shape, vpn).index, pte))
  }

  /** Every table page but the root is referenced by exactly one interior slot. */
  lemma OneParent(d: Space, c: nat)
    requires SpaceOk(d) && c in d.tables && c != d.shape.root
    ensures exists t, i :: Interior(d.tables, d.shape, t, i) && Ppn(d.tables[t][i]) == c &&
                           forall u, j :: Interior(d.tables, d.shape, u, j) && Ppn(d.tables[u][j]) == c ==> u == t && j == i
  {
    assert HasParent(d.tables, d.shape, c);
    var t, i :| Interior(d.tables, d.shape, t, i) && Ppn(d.tables[t][i]) == c;
  }

  // ---------------------------------------------------------------- the map a directory represents

  type PageMap = map<nat, nat>

  /** The directory represents m, a map from virtual page numbers to valid entries. */
  ghost predicate Represents(d: Space, m: PageMap)
    requires SpaceOk(d)
  {
    && (forall v | v in m :: v < VPNS)
    && forall v: nat {:trigger Lookup(d.tables, d.shape, v)} | v < VPNS ::
         (v in m <==> Lookup(d.tables, d.shape, v) != 0) && (v in m ==> m[v] == Lookup(d.tables, d.shape, v))
  }

  /** A directory represents one map only. */
  lemma RepresentsUnique(d: Space, m: PageMap, r: PageMap)
    requires SpaceOk(d) && Represents(d, m) && Represents(d, r)
    ensures m == r
  {
    forall v: nat | v in m || v in r
      ensures v in m && v in r && m[v] == r[v]
    {
      assert v in m ==> m[v] == Lookup(d.tables, d.shape, v);
      assert v in r ==> r[v] == Lookup(d.tables, d.shape, v);
    }
  }

  lemma SameRepresents(d: Space, e: Space, m: PageMap)
    requires SpaceOk(d) && SpaceOk(e) && SameMap(d.tables, d.shape, e.tables, e.shape) && Represents(d, m)
    ensures Represents(e, m)
  {
    forall v: nat | v < VPNS
      ensures Lookup(d.tables, d.shape, v) == Lookup(e.tables, e.shape, v)
    {
    }
  }

  ghost function Updated(m: PageMap, v: nat, pte: nat): (r: PageMap) {
    if Valid(pte) then m[v := pte] else m - {v}
  }

  /** A write to the leaf slot of page v updates the map at v and nowhere else. */
  lemma WriteUpdatesMap(d: Space, m: PageMap, v: nat, pte: nat)
    requires SpaceOk(d) && Represents(d, m) && v < VPNS && SlotOf(d.tables, d.shape, v).Slot?
    ensures SpaceOk(WrittenSpace(d, v, pte)) && Represents(WrittenSpace(d, v, pte), Updated(m, v, pte))
  {
    var slot := SlotOf(d.tables, d.shape, v);
    WriteOk(d.tables, d.shape, slot.table, slot.index, pte);
    var e := WrittenSpace(d, v, pte);
    forall w: nat | w < VPNS
      ensures (w in Updated(m, v, pte) <==> Lookup(e.tables, e.shape, w) != 0)
      ensures (w in Updated(m, v, pte) ==> Updated(m, v, pte)[w] == Lookup(e.tables, e.shape, w))
    {
      assert w in m ==> m[w] == Lookup(d.tables, d.shape, w);
      WriteChangesOne(d.tables, d.shape, v, pte, w);
    }
  }

  // ---------------------------------------------------------------- ranges

  /** n pages from `first` mapped to consecutive pages from pa. */
  ghost function MapRange(m: PageMap, first: nat, n: nat, pa: nat, perm: nat): (r: PageMap)
    requires perm < 1024
  {
    if n == 0 then m
    else MapRange(m, first, n - 1, pa, perm)[first + n - 1 := Entry(pa + (n - 1) * PGSIZE, perm)]
  }

  /** n pages from `first` unmapped. */
  ghost function ClearRange(m: PageMap, first: nat, n: nat): (r: PageMap) {
    if n == 0 then m else ClearRange(m, first, n - 1) - {first + n - 1}
  }

  /** n pages from `first` lie in the address range page_walk accepts, and none is mapped. */
  ghost predicate FreshRange(m: PageMap, first: nat, n: nat) {
    n == 0 || (FreshRange(m, first, n - 1) && 0 < first + n - 1 < MAXVA / PGSIZE && first + n - 1 !in m)
  }

  /** The physical pages of the entries among n pages from `first`, in address order. */
  ghost function FramesOf(m: PageMap, first: nat, n: nat): (r: seq<nat>) {
    if n == 0 then []
    else FramesOf(m, first, n - 1) + if first + n - 1 in m then [Ppn(m[first + n - 1])] else []
  }

  lemma MapRangeStep(m: PageMap, first: nat, n: nat, pa: nat, perm: nat, v: nat, page: nat)
    requires perm < 1024 && v == first + n && page == pa + n * PGSIZE
    ensures MapRange(m, first, n + 1, pa, perm) == MapRange(m, first, n, pa, perm)[v := Entry(page, perm)]
    ensures FreshRange(m, first, n + 1) <==> FreshRange(m, first, n) && 0 < v < MAXVA / PGSIZE && v !in m
    ensures v in MapRange(m, first, n, pa, perm) <==> v in m
  {
    assert first + (n + 1) - 1 == v;
    MapRangeAt(m, first, n, pa, perm, v);
  }

  lemma ClearRangeStep(m: PageMap, first: nat, n: nat, v: nat)
    requires v == first + n
    ensures ClearRange(m, first, n + 1) == ClearRange(m, first, n) - {v}
    ensures FramesOf(m, first, n + 1) == FramesOf(m, first, n) + if v in m then [Ppn(m[v])] else []
    ensures (v in ClearRange(m, first, n) <==> v in m) && (v in m ==> ClearRange(m, first, n)[v] == m[v])
  {
    assert first + (n + 1) - 1 == v;
    ClearRangeAt(m, first, n, v);
  }

  /** Exactly the pages of the range change. */
  lemma {:induction false} MapRangeAt(m: PageMap, first: nat, n: nat, pa: nat, perm: nat, v: nat)
    requires perm < 1024
    ensures var r := MapRange(m, first, n, pa, perm);
            if first <= v < first + n then v in r && r[v] == Entry(pa + (v - first) * PGSIZE, perm)
            else (v in r <==> v in m) && (v in m ==> r[v] == m[v])
    decreases n
  {
    if n > 0 {
      MapRangeAt(m, first, n - 1, pa, perm, v);
    }
  }

  lemma {:induction false} ClearRangeAt(m: PageMap, first: nat, n: nat, v: nat)
    ensures var r := ClearRange(m, first, n);
            if first <= v < first + n then v !in r else (v in r <==> v in m) && (v in m ==> r[v] == m[v])
    decreases n
  {
    if n > 0 {
      ClearRangeAt(m, first, n - 1, v);
    }
  }

  lemma {:induction false} FreshRangeAt(m: PageMap, first: nat, n: nat, v: nat)
    requires FreshRange(m, first, n) && first <= v < first + n
    ensures v !in m && 0 < v < MAXVA / PGSIZE
    decreases n
  {
    if v < first + n - 1 {
      FreshRangeAt(m, first, n - 1, v);
    }
  }

  /** Unmapping a range just mapped restores the map exactly. */
  lemma ClearUndoesMap(m: PageMap, first: nat, n: nat, pa: nat, perm: nat)
    requires perm < 1024 && FreshRange(m, first, n)
    ensures ClearRange(MapRange(m, first, n, pa, perm), first, n) == m
  {
    var r := MapRange(m, first, n, pa, perm);
    forall v
      ensures v in ClearRange(r, first, n) <==> v in m
      ensures v in m ==> v in ClearRange(r, first, n) && ClearRange(r, first, n)[v] == m[v]
    {
      if v >= 0 {
        ClearRangeAt(r, first, n, v);
        MapRangeAt(m, first, n, pa, perm, v);
        if first <= v < first + n {
          FreshRangeAt(m, first, n, v);
        }
      }
    }
  }

  ghost function Consecutive(ppn: nat, n: nat): (r: seq<nat>) {
    seq(n, i => ppn + i)
  }

  /** The pages of the range that are mapped. */
  ghost function MappedIn(m: PageMap, first: nat, n: nat): (vs: set<nat>) {
    set v | first <= v < first + n && v in m
  }

  ghost predicate FrameIn(m: PageMap, vs: set<nat>, f: nat) {
    exists v :: v in vs && v in m && Ppn(m[v]) == f
  }

  lemma MappedOneMore(m: PageMap, first: nat, n: nat)
    ensures first + n !in MappedIn(m, first, n)
    ensures MappedIn(m, first, n + 1) == MappedIn(m, first, n) + if first + n in m then {first + n} else {}
  {
  }

  lemma FrameInMore(m: PageMap, vs: set<nat>, v: nat, f: nat)
    requires v in m
    ensures FrameIn(m, vs + {v}, f) <==> FrameIn(m, vs, f) || f == Ppn(m[v])
  {
    if FrameIn(m, vs, f) {
      var u :| u in vs && u in m && Ppn(m[u]) == f;
      assert u in vs + {v};
    }
    if f == Ppn(m[v]) {
      assert v in vs + {v};
    }
  }

  /** One frame for every mapped page of the range, and no others. */
  lemma {:induction false} FramesOfAt(m: PageMap, first: nat, n: nat)
    ensures |FramesOf(m, first, n)| == |MappedIn(m, first, n)|
    ensures forall f: nat :: f in FramesOf(m, first, n) <==> FrameIn(m, MappedIn(m, first, n), f)
    decreases n
  {
    if n > 0 {
      FramesOfAt(m, first, n - 1);
      MappedOneMore(m, first, n - 1);
      var v, vs := first + n - 1, MappedIn(m, first, n - 1);
      if v in m {
        forall f: nat
          ensures FrameIn(m, vs + {v}, f) <==> FrameIn(m, vs, f) || f == Ppn(m[v])
        {
          FrameInMore(m, vs, v, f);
        }
      }
    }
  }

  /** The frames of a range just mapped are the consecutive frames given, each once. */
  lemma {:induction false} FramesOfMapped(m: PageMap, first: nat, n: nat, pa: nat, perm: nat, k: nat)
    requires perm < 1024 && k <= n && pa % PGSIZE == 0
    ensures FramesOf(MapRange(m, first, n, pa, perm), first, k) == Consecutive(pa / PGSIZE, k)
    decreases k
  {
    if k > 0 {
      FramesOfMapped(m, first, n, pa, perm, k - 1);
      MapRangeAt(m, first, n, pa, perm, first + k - 1);
      EntryRoundTrip(pa + (k - 1) * PGSIZE, perm);
      assert (pa + (k - 1) * PGSIZE) / PGSIZE == pa / PGSIZE + (k - 1);
      assert Consecutive(pa / PGSIZE, k) == Consecutive(pa / PGSIZE, k - 1) + [pa / PGSIZE + (k - 1)];
    }
  }

  /** user_va_to_pa on the map. */
  ghost function Translate(m: PageMap, va: nat): (t: Translation) {
    if va == 0 || va >= MAXVA then Panicked
    else if va / PGSIZE in m then Address(Pte2Pa(m[va / PGSIZE]) + va % PGSIZE)
    else Unmapped
  }

  /** Every byte of a mapped range translates to the byte at the same offset from pa. */
  lemma MapThenTranslate(m: PageMap, va: nat, n: nat, pa: nat, perm: nat, i: nat, off: nat)
    requires perm < 1024 && i < n && off < PGSIZE && va % PGSIZE == 0 && pa % PGSIZE == 0
    requires FreshRange(m, va / PGSIZE, n)
    ensures Translate(MapRange(m, va / PGSIZE, n, pa, perm), va + i * PGSIZE + off) == Address(pa + i * PGSIZE + off)
  {
    PageAndOffset(va / PGSIZE + i, off);
    assert va + i * PGSIZE + off == (va / PGSIZE + i) * PGSIZE + off;
    PageAndOffset(pa / PGSIZE + i, 0);
    FreshRangeAt(m, va / PGSIZE, n, va / PGSIZE + i);
    MapRangeAt(m, va / PGSIZE, n, pa, perm, va / PGSIZE + i);
    EntryRoundTrip(pa + i * PGSIZE, perm);
  }

  /** Why map_pages stopped at page v: a bad address, a page already mapped, or no table page. */
  ghost predicate Stopped(m: PageMap, v: nat, r: MapResult, pool: seq<nat>) {
    match r
    case Mapped => true
    case Failed => pool == []
    case PanicAddress => v == 0 || v >= MAXVA / PGSIZE
    case PanicMapped => v in m
  }

  /** The leaf slot found for page v holds its entry. */
  lemma FoundSlot(d: Space, m: PageMap, v: nat, t: nat, i: nat)
    requires SpaceOk(d) && Represents(d, m) && v < VPNS && SlotOf(d.tables, d.shape, v) == Slot(t, i)
    ensures t in d.tables && i < |d.tables[t]|
    ensures v in m <==> Valid(d.tables[t][i])
    ensures v in m ==> m[v] == d.tables[t][i]
  {
    assert v in m ==> m[v] == Lookup(d.tables, d.shape, v);
  }

  lemma WriteFound(d: Space, m: PageMap, v: nat, t: nat, i: nat, pte: nat, e: Space)
    requires SpaceOk(d) && Represents(d, m) && v < VPNS && SlotOf(d.tables, d.shape, v) == Slot(t, i)
    requires t in d.tables && i < |d.tables[t]| && e == Space(Written(d.tables, t, i, pte), d.shape, d.pool)
    ensures SpaceOk(e) && Represents(e, Updated(m, v, pte))
  {
    WriteUpdatesMap(d, m, v, pte);
    assert WrittenSpace(d, v, pte) == e;
  }

  lemma NoSlotNoEntry(d: Space, m: PageMap, v: nat)
    requires SpaceOk(d) && Represents(d, m) && v < VPNS && SlotOf(d.tables, d.shape, v) == NoSlot
    ensures v !in m
  {
    assert v in m ==> m[v] == Lookup(d.tables, d.shape, v);
  }

  // ---------------------------------------------------------------- the directory object

  class AddressSpace {
    const root: nat
    var tables: Tables
    var pool: seq<nat>
    /** Pages handed to pfree by unmapping, in order. */
    var freed: seq<nat>
    ghost var shape: Shape
    /** The tables and the pages alloc_page may still give, from the start. */
    ghost const memory: set<nat>
    /** The map the tables represent. */
    ghost var pages: PageMap

    ghost function State(): (d: Space)
      reads this
    {
      Space(tables, shape, pool)
    }

    ghost predicate Ok()
      reads this
    {
      SpaceOk(State()) && shape.root == root && Represents(State(), pages) && AllPages(State()) == memory
    }

    /** A zeroed root page and the pages alloc_page may still give. */
    constructor (page: nat, free: seq<nat>)
      requires Distinct(free) && page !in free
      ensures Ok() && pool == free && freed == [] && pages == map[] && memory == {page} + set p | p in free
    {
      root := page;
      tables := map[page := ZeroTable()];
      pool, freed := free, [];
      shape := Shape(page, {}, {});
      pages := map[];
      memory := {page} + set p | p in free;
      new;
      NewEntry(0);
    }

    /** One turn of the walk: slot i of table t is followed, or filled with a zeroed table. */
    method Descend(t: nat, i: nat, alloc: bool) returns (ok: bool, next: nat)
      requires t in tables && i < |tables[t]| && PoolOk(pool, tables)
      modifies this`tables, this`pool, this`shape
      ensures State() == Descended(old(State()), t, i, alloc) && t in tables && i < |tables[t]|
      ensures ok == Valid(tables[t][i]) && (ok ==> next == Ppn(tables[t][i]))
    {
      if Valid(tables[t][i]) {
        return true, Ppn(tables[t][i]);
      }
      if !alloc || pool == [] {
        return false, 0;
      }
      var p := pool[0];
      NewEntry(p);
      pool := pool[1..];
      var table: seq<nat> := tables[t];
      tables := tables[p := ZeroTable()];
      tables := tables[t := table[i := p * 1024 + 1]];
      shape := Grown(shape, t, p);
      return true, p;
    }

    /** page_walk down to the leaf table: the map stays what it was. */
    method Walk(va: nat, alloc: bool) returns (w: Walked)
      requires Ok()
      modifies this`tables, this`pool, this`shape
      ensures Ok()
      ensures w.BadAddress? <==> va == 0 || va >= MAXVA
      ensures w.BadAddress? || !alloc || SlotOf(old(tables), old(shape), va / PGSIZE).Slot? ==> State() == old(State())
      ensures w.NoTable? && alloc ==> pool == []
      ensures |old(pool)| - 2 <= |pool|
      ensures !w.BadAddress? ==>
                w == match SlotOf(tables, shape, va / PGSIZE) case NoSlot => NoTable case Slot(t, i) => Found(t, i)
    {
      if va == 0 || va >= MAXVA {
        return BadAddress;
      }
      ghost var d := State();
      ghost var vpn := va / PGSIZE;
      WalkOk(d, vpn, alloc);
      DescendOk(d, root, Index(2, vpn), alloc);
      var pt, level := root, 2;
      while level > 0
        invariant level <= 2 && SpaceOk(State()) && shape.root == root
        invariant level == 2 ==> State() == d && pt == root
        invariant level == 1 ==> State() == Descended(d, root, Index(2, vpn), alloc) &&
                                 MidOf(tables, shape, vpn) == Slot(pt, Index(1, vpn))
        invariant level == 0 ==> State() == WalkedSpace(d, vpn, alloc) &&
                                 SlotOf(tables, shape, vpn) == Slot(pt, Index(0, vpn))
      {
        PxIsIndex(level, va);
        DescendOk(State(), pt, Index(level, vpn), alloc);
        var ok, next := Descend(pt, Px(level, va), alloc);
        if !ok {
          SameRepresents(d, State(), pages);
          return NoTable;
        }
        pt, level := next, level - 1;
      }
      PxIsIndex(0, va);
      SameRepresents(d, State(), pages);
      return Found(pt, Px(0, va));
    }

    /** *pte = value, for the leaf slot found for page v. */
    method SetEntry(t: nat, i: nat, pte: nat, ghost v: nat)
      requires Ok() && v < VPNS && SlotOf(tables, shape, v) == Slot(t, i)
      modifies this`tables, this`pages
      ensures Ok() && pages == Updated(old(pages), v, pte)
    {
      FoundSlot(State(), pages, v, t, i);
      ghost var d := State();
      var table: seq<nat> := tables[t];
      tables := tables[t := table[i := pte]];
      WriteFound(d, pages, v, t, i, pte, State());
      pages := Updated(pages, v, pte);
    }

    /** The valid entry of page v, or 0: page_walk without allocation, then the read of *pte. */
    method ReadEntry(va: nat) returns (bad: bool, pte: nat)
      requires Ok()
      ensures bad <==> va == 0 || va >= MAXVA
      ensures !bad ==> pte == if va / PGSIZE in pages then pages[va / PGSIZE] else 0
      ensures !bad ==> (pte != 0 <==> va / PGSIZE in pages)
      modifies this`tables, this`pool, this`shape
      ensures Ok() && State() == old(State())
    {
      var w := Walk(va, false);
      if w.BadAddress? {
        return true, 0;
      }
      if w.NoTable? {
        NoSlotNoEntry(State(), pages, va / PGSIZE);
        return false, 0;
      }
      FoundSlot(State(), pages, va / PGSIZE, w.table, w.index);
      return false, if Valid(tables[w.table][w.index]) then tables[w.table][w.index] else 0;
    }

    /**
     map_pages, with the number of pages it got to.  The translation of exactly those
     pages changes, whatever ends the loop, and none of them was mapped before.
     */
    method MapPages(va: nat, size: nat, pa: nat, perm: nat) returns (r: MapResult, n: nat)
      requires Ok() && perm < 1024 && va < WORD && size < WORD
      modifies this`tables, this`pool, this`shape, this`pages
      ensures Ok() && pages == MapRange(old(pages), va / PGSIZE, n, pa, perm) && FreshRange(old(pages), va / PGSIZE, n)
      ensures r == Mapped <==> PageStart(va) + n * PGSIZE > LastPage(va, size)
      ensures n > 0 ==> PageStart(va) + (n - 1) * PGSIZE <= LastPage(va, size)
      ensures Stopped(old(pages), va / PGSIZE + n, r, pool)
    {
      r, n := MapLoop(PageStart(va), LastPage(va, size), pa, perm, va / PGSIZE);
    }

    /** The loop of map_pages over page addresses start..last. */
    method MapLoop(start: nat, last: nat, pa: nat, perm: nat, ghost base: nat) returns (r: MapResult, n: nat)
      requires Ok() && perm < 1024 && start == base * PGSIZE
      modifies this`tables, this`pool, this`shape, this`pages
      ensures Ok() && pages == MapRange(old(pages), base, n, pa, perm) && FreshRange(old(pages), base, n)
      ensures r == Mapped <==> start + n * PGSIZE > last
      ensures n > 0 ==> start + (n - 1) * PGSIZE <= last
      ensures Stopped(old(pages), base + n, r, pool)
    {
      var first, page := start, pa;
      n := 0;
      while first <= last
        invariant Ok() && first == (base + n) * PGSIZE && page == pa + n * PGSIZE
        invariant pages == MapRange(old(pages), base, n, pa, perm) && FreshRange(old(pages), base, n)
        invariant n > 0 ==> first - PGSIZE <= last
        decreases last + PGSIZE - first
      {
        ghost var v := base + n;
        MapRangeStep(old(pages), base, n, pa, perm, v, page);
        r := MapOne(first, page, perm, v);
        if r != Mapped {
          return;
        }
        first, page, n := first + PGSIZE, page + PGSIZE, n + 1;
      }
      r := Mapped;
    }

    /** The loop body of map_pages, for virtual page v. */
    method MapOne(first: nat, page: nat, perm: nat, ghost v: nat) returns (r: MapResult)
      requires Ok() && perm < 1024 && first == v * PGSIZE
      modifies this`tables, this`pool, this`shape, this`pages
      ensures Ok() && Stopped(old(pages), v, r, pool)
      ensures if r == Mapped then 0 < v < MAXVA / PGSIZE && v !in old(pages) && pages == old(pages)[v := Entry(page, perm)]
              else pages == old(pages)
    {
      var w := Walk(first, true);
      if w.BadAddress? {
        return PanicAddress;
      }
      if w.NoTable? {
        return Failed;
      }
      FoundSlot(State(), pages, v, w.table, w.index);
      if Valid(tables[w.table][w.index]) {
        return PanicMapped;
      }
      EntryRoundTrip(page, perm);
      SetEntry(w.table, w.index, Entry(page, perm), v);
      return Mapped;
    }

    /** user_va_to_pa. */
    method UserVaToPa(va: nat) returns (t: Translation)
      requires Ok()
      modifies this`tables, this`pool, this`shape
      ensures Ok() && State() == old(State()) && t == Translate(pages, va)
      ensures t.Panicked? <==> va == 0 || va >= MAXVA
      ensures t.Unmapped? <==> 0 < va < MAXVA && va / PGSIZE !in pages
      ensures t.Address? ==> va / PGSIZE in pages && t.pa == Ppn(pages[va / PGSIZE]) * PGSIZE + va % PGSIZE
    {
      var bad, pte := ReadEntry(va);
      if bad {
        return Panicked;
      }
      if pte == 0 {
        return Unmapped;
      }
      return Address(Pte2Pa(pte) + va % PGSIZE);
    }

    /** lookup_pa: the page address of a readable or writable page, 0 for any other. */
    method LookupPa(va: nat) returns (t: Translation)
      requires Ok()
      modifies this`tables, this`pool, this`shape
      ensures Ok() && State() == old(State())
      ensures t.Panicked? <==> va == 0
      ensures va != 0 ==>
                var v := va / PGSIZE;
                t == Address(if va < MAXVA && v in pages && (Bit(pages[v], 2) || Bit(pages[v], 4)) then Pte2Pa(pages[v]) else 0)
    {
      if va >= MAXVA {
        return Address(0);
      }
      var bad, pte := ReadEntry(va);
      if bad {
        return Panicked;
      }
      if pte == 0 || (!Bit(pte, 2) && !Bit(pte, 4)) {
        return Address(0);
      }
      return Address(Pte2Pa(pte));
    }

    /**
     user_vm_unmap, with the number of pages it passed: those are unmapped, nothing
     else changes, and with `free` each frame that was mapped goes to pfree once.
     */
    method UserVmUnmap(va: nat, size: nat, free: bool) returns (ok: bool, n: nat)
      requires Ok() && va < WORD && size < WORD
      modifies this`tables, this`pool, this`shape, this`pages, this`freed
      ensures Ok() && pages == ClearRange(old(pages), va / PGSIZE, n)
      ensures freed == old(freed) + if free then FramesOf(old(pages), va / PGSIZE, n) else []
      ensures ok <==> PageStart(va) + n * PGSIZE >= (va + size) % WORD
      ensures n > 0 ==> PageStart(va) + (n - 1) * PGSIZE < (va + size) % WORD
      ensures !ok ==> va / PGSIZE + n == 0 || va / PGSIZE + n >= MAXVA / PGSIZE
    {
      ok, n := UnmapLoop(PageStart(va), (va + size) % WORD, free, va / PGSIZE);
    }

    /** The loop of user_vm_unmap over page addresses from start below end. */
    method UnmapLoop(start: nat, end: nat, free: bool, ghost base: nat) returns (ok: bool, n: nat)
      requires Ok() && start == base * PGSIZE
      modifies this`tables, this`pool, this`shape, this`pages, this`freed
      ensures Ok() && pages == ClearRange(old(pages), base, n)
      ensures freed == old(freed) + if free then FramesOf(old(pages), base, n) else []
      ensures ok <==> start + n * PGSIZE >= end
      ensures n > 0 ==> start + (n - 1) * PGSIZE < end
      ensures !ok ==> base + n == 0 || base + n >= MAXVA / PGSIZE
    {
      var first := start;
      n := 0;
      while first < end
        invariant Ok() && first == (base + n) * PGSIZE && pages == ClearRange(old(pages), base, n)
        invariant freed == old(freed) + if free then FramesOf(old(pages), base, n) else []
        invariant n > 0 ==> first - PGSIZE < end
        decreases end + PGSIZE - first
      {
        ghost var v := base + n;
        ClearRangeStep(old(pages), base, n, v);
        ok := UnmapOne(first, free, v);
        if !ok {
          return;
        }
        first, n := first + PGSIZE, n + 1;
      }
      ok := true;
    }

    /** The loop body of user_vm_unmap, for virtual page v. */
    method UnmapOne(first: nat, free: bool, ghost v: nat) returns (ok: bool)
      requires Ok() && first == v * PGSIZE
      modifies this`tables, this`pool, this`shape, this`pages, this`freed
      ensures Ok() && (ok <==> 0 < v < MAXVA / PGSIZE)
      ensures pages == if ok then old(pages) - {v} else old(pages)
      ensures freed == old(freed) + if ok && free && v in old(pages) then [Ppn(old(pages)[v])] else []
    {
      var w := Walk(first, false);
      if w.BadAddress? {
        return false;
      }
      if w.NoTable? {
        NoSlotNoEntry(State(), pages, v);
        return true;
      }
      FoundSlot(State(), pages, v, w.table, w.index);
      var pte := tables[w.table][w.index];
      if !Valid(pte) {
        return true;
      }
      NewEntry(0);
      SetEntry(w.table, w.index, 0, v);
      if free {
        freed := freed + [Ppn(pte)];
      }
      return true;
    }

    /**
     Mapping a page-aligned range and unmapping it again restores the map exactly,
     and with `free` hands back the frames mapped, each once.
     */
    method MapThenUnmap(va: nat, size: nat, pa: nat, perm: nat, free: bool) returns (r: MapResult, ok: bool)
      requires Ok() && perm < 1024 && 0 < size && va + size < WORD
      requires va % PGSIZE == 0 && pa % PGSIZE == 0 && size % PGSIZE == 0
      modifies this`tables, this`pool, this`shape, this`pages, this`freed
      ensures Ok() && (r == Mapped ==> ok && pages == old(pages))
      ensures r == Mapped ==> freed == old(freed) + if free then Consecutive(pa / PGSIZE, size / PGSIZE) else []
    {
      ghost var m := pages;
      var n: nat;
      r, n := MapPages(va, size, pa, perm);
      ok := false;
      if r == Mapped {
        SizeInPages(va, size);
        WholeCount(n, size);
        var k: nat;
        ok, k := UserVmUnmap(va, size, free);
        FreshEnd(m, va / PGSIZE, n);
        assert ok && k == n by {
          if ok {
            WholeCount(k, size);
          }
        }
        ClearUndoesMap(m, va / PGSIZE, n, pa, perm);
        FramesOfMapped(m, va / PGSIZE, n, pa, perm, n);
      }
    }
  }

  lemma PageAndOffset(v: nat, off: nat)
    requires off < PGSIZE
    ensures (v * PGSIZE + off) / PGSIZE == v && (v * PGSIZE + off) % PGSIZE == off
  {
  }

  /** How many pages a whole number of pages is, counted up to a bound or past the last one. */
  lemma WholeCount(n: nat, size: nat)
    requires size % PGSIZE == 0 && 0 < size && (n - 1) * PGSIZE < size <= n * PGSIZE
    ensures n == size / PGSIZE
  {
  }

  lemma SizeInPages(va: nat, size: nat)
    requires 0 < size && va + size < WORD && va % PGSIZE == 0 && size % PGSIZE == 0
    ensures PageStart(va) == va && LastPage(va, size) == va + size - PGSIZE && (va + size) % WORD == va + size
  {
    AlignedStart(va, va);
    AlignedStart(va + size - PGSIZE, LastPage(va, size));
  }

  /** Two page addresses less than a page apart are one. */
  lemma AlignedStart(a: nat, b: nat)
    requires a % PGSIZE == 0 && b % PGSIZE == 0 && b < a + PGSIZE && a < b + PGSIZE
    ensures a == b && PageStart(a) == a
  {
  }

  /** A fresh range starts above page 0 and ends in the address range. */
  lemma FreshEnd(m: PageMap, first: nat, n: nat)
    requires FreshRange(m, first, n)
    ensures n > 0 ==> 0 < first && first + n <= MAXVA / PGSIZE
  {
    if n > 0 {
      FreshRangeAt(m, first, n, first);
      FreshRangeAt(m, first, n, first + n - 1);
    }
  }

  // ---------------------------------------------------------------- permissions and the kernel map

  const KERN_BASE: nat := 0x8000_0000
  const PHYS_TOP: nat := 0x8800_0000

  /** prot_to_type: the or of the flag groups; a page with no permission is made readable. */
  function ProtToType(read: bool, write: bool, exec: bool, user: bool): (perm: nat)
    ensures perm < 1024 && !Valid(perm)
    ensures Bit(perm, 2) <==> read || (!write && !exec)
    ensures (Bit(perm, 4) <==> write) && (Bit(perm, 8) <==> exec) && (Bit(perm, 16) <==> user)
    ensures !Bit(perm, 32) && (Bit(perm, 64) <==> read || exec) && (Bit(perm, 128) <==> write)
    ensures !Bit(perm, 256) && !Bit(perm, 512)
  {
    var perm := (if read then 2 else 0) + (if write then 4 + 128 else 0) + (if exec then 8 else 0)
                + (if read || exec then 64 else 0);
    (if perm == 0 then 2 else perm) + if user then 16 else 0
  }

  /** The kernel's map once text and the rest of memory are mapped. */
  ghost function KernelMap(etext: nat): (m: PageMap)
    requires KERN_BASE <= etext <= PHYS_TOP
  {
    MapRange(MapRange(map[], KERN_BASE / PGSIZE, (etext - KERN_BASE) / PGSIZE, KERN_BASE, ProtToType(true, false, true, false)),
             etext / PGSIZE, (PHYS_TOP - etext) / PGSIZE, etext, ProtToType(true, true, false, false))
  }

  /** The kernel maps exactly [KERN_BASE, PHYS_TOP), each page to itself; only pages above text are writable. */
  lemma KernelIdentity(etext: nat, v: nat)
    requires KERN_BASE <= etext <= PHYS_TOP && etext % PGSIZE == 0
    ensures v in KernelMap(etext) <==> KERN_BASE / PGSIZE <= v < PHYS_TOP / PGSIZE
    ensures v in KernelMap(etext) ==>
              && Ppn(KernelMap(etext)[v]) == v
              && (Bit(KernelMap(etext)[v], 4) <==> v >= etext / PGSIZE)
              && (Bit(KernelMap(etext)[v], 8) <==> v < etext / PGSIZE)
              && Bit(KernelMap(etext)[v], 2) && !Bit(KernelMap(etext)[v], 16)
  {
    var rx, rw := ProtToType(true, false, true, false), ProtToType(true, true, false, false);
    var n1, n2 := (etext - KERN_BASE) / PGSIZE, (PHYS_TOP - etext) / PGSIZE;
    var m1 := MapRange(map[], KERN_BASE / PGSIZE, n1, KERN_BASE, rx);
    MapRangeAt(map[], KERN_BASE / PGSIZE, n1, KERN_BASE, rx, v);
    MapRangeAt(m1, etext / PGSIZE, n2, etext, rw, v);
    if KERN_BASE / PGSIZE <= v < etext / PGSIZE {
      SelfEntry(v, KERN_BASE + (v - KERN_BASE / PGSIZE) * PGSIZE, rx);
    } else if etext / PGSIZE <= v < PHYS_TOP / PGSIZE {
      SelfEntry(v, etext + (v - etext / PGSIZE) * PGSIZE, rw);
    }
  }

  lemma SelfEntry(v: nat, pa: nat, perm: nat)
    requires pa == v * PGSIZE && perm < 1024 && !Valid(perm)
    ensures Ppn(Entry(pa, perm)) == v
    ensures forall w | w in {2, 4, 8, 16} :: Bit(Entry(pa, perm), w) <==> Bit(perm, w)
  {
    var h := perm / 2;
    EntryRoundTrip(pa, perm);
    assert Entry(pa, perm) == (v * 512 + h) * 2 + 1 && perm == h * 2;
    SelfEntryBits(v, h);
  }

  lemma SelfEntryBits(v: nat, h: nat)
    ensures forall w | w in {2, 4, 8, 16} :: Bit((v * 512 + h) * 2 + 1, w) <==> Bit(h * 2, w)
  {
    OddHalves(v * 512 + h);
    OddHalves(h);
    EvenParity(v, h);
  }

  /** Bits 1 to 4 of x = 2y + 1 are bits 0 to 3 of y. */
  lemma OddHalves(y: nat)
    ensures (2 * y + 1) / 2 == y && (2 * y + 1) / 4 == y / 2 && (2 * y + 1) / 8 == y / 4 && (2 * y + 1) / 16 == y / 8
    ensures (2 * y) / 2 == y && (2 * y) / 4 == y / 2 && (2 * y) / 8 == y / 4 && (2 * y) / 16 == y / 8
  {
  }

  lemma EvenParity(v: nat, h: nat)
    ensures (v * 512 + h) % 2 == h % 2 && (v * 512 + h) / 2 % 2 == h / 2 % 2
    ensures (v * 512 + h) / 4 % 2 == h / 4 % 2 && (v * 512 + h) / 8 % 2 == h / 8 % 2
  {
    DivShift(v * 256, h, 2);
    DivShift(v * 128, h, 4);
    DivShift(v * 64, h, 8);
    assert v * 512 + h == 2 * (v * 256) + h && v * 256 == 2 * (v * 128) && v * 128 == 2 * (v * 64) && v * 64 == 2 * (v * 32);
    Even(v * 256, h);
    Even(v * 128, h / 2);
    Even(v * 64, h / 4);
    Even(v * 32, h / 8);
  }

  lemma Even(a: nat, b: nat)
    ensures (2 * a + b) % 2 == b % 2
  {
  }

  lemma DivShift(a: nat, h: nat, d: nat)
    requires d > 0
    ensures (a * d + h) / d == a + h / d
  {
    var x := a * d + h;
    var e := x / d - (a + h / d);
    assert x == x / d * d + x % d && h == h / d * d + h % d;
    assert e * d == h % d - x % d by {
      assert e * d == x / d * d - (a * d + h / d * d);
    }
    assert e >= 1 ==> e * d >= d;
    assert e <= -1 ==> e * d <= -1 * d;
  }

  /**
   kern_vm_init.  The only way it can panic is to run out of table pages: the second
   mapping never meets a page of the first, because etext is page aligned.
   */
  method KernVmInit(page: nat, free: seq<nat>, etext: nat) returns (k: AddressSpace, r: MapResult)
    requires Distinct(free) && page !in free
    requires KERN_BASE <= etext <= PHYS_TOP && etext % PGSIZE == 0
    ensures fresh(k) && k.Ok() && (r == Mapped || (r == Failed && k.pool == []))
    ensures k.memory == {page} + set p | p in free
    ensures r == Mapped ==> k.pages == KernelMap(etext)
  {
    k := new AddressSpace(page, free);
    var rx, rw := ProtToType(true, false, true, false), ProtToType(true, true, false, false);
    r := KernVmMap(k, KERN_BASE, etext, rx);
    if r == Mapped {
      AboveText(etext, rx, k.pages);
      r := KernVmMap(k, etext, PHYS_TOP, rw);
    }
  }

  lemma AboveText(etext: nat, rx: nat, m: PageMap)
    requires KERN_BASE <= etext && etext % PGSIZE == 0 && rx < 1024
    requires m == MapRange(map[], KERN_BASE / PGSIZE, (etext - KERN_BASE) / PGSIZE, KERN_BASE, rx)
    ensures forall v | etext / PGSIZE <= v :: v !in m
  {
    forall v | etext / PGSIZE <= v
      ensures v !in m
    {
      MapRangeAt(map[], KERN_BASE / PGSIZE, (etext - KERN_BASE) / PGSIZE, KERN_BASE, rx, v);
    }
  }

  /** kern_vm_map of a page-aligned range onto itself, none of it mapped yet. */
  method KernVmMap(k: AddressSpace, from: nat, to: nat, perm: nat) returns (r: MapResult)
    requires k.Ok() && perm < 1024 && KERN_BASE <= from <= to <= PHYS_TOP && from % PGSIZE == 0 && to % PGSIZE == 0
    requires forall v | from / PGSIZE <= v :: v !in k.pages
    modifies k
    ensures k.Ok() && (r == Mapped || (r == Failed && k.pool == []))
    ensures r == Mapped ==> k.pages == MapRange(old(k.pages), from / PGSIZE, (to - from) / PGSIZE, from, perm)
  {
    var n: nat;
    r, n := k.MapPages(from, to - from, from, perm);
    KernelPages(from, to, n);
  }

  /** Page counts of a kernel range: map_pages makes exactly its pages, all below MAXVA. */
  lemma KernelPages(from: nat, to: nat, n: nat)
    requires KERN_BASE <= from <= to <= PHYS_TOP && from % PGSIZE == 0 && to % PGSIZE == 0
    requires n > 0 ==> PageStart(from) + (n - 1) * PGSIZE <= LastPage(from, to - from)
    ensures 0 < from / PGSIZE + n < MAXVA / PGSIZE
    ensures PageStart(from) + n * PGSIZE > LastPage(from, to - from) ==> n == (to - from) / PGSIZE
  {
    assert (from + (to - from) + WORD - 1) % WORD == to - 1;
  }
}
