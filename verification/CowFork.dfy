/**
 Copy-on-write fork (kernel/process.c, kernel/strap.c) with the user heap calls of
 kernel/syscall.c, proved against the eager-copy fork the source keeps in a comment.

 The model keeps the stack page and the heap pages of every process.  Page numbers
 are virtual addresses divided by the page size.  get_page, get_page_ref and the
 reference drop in pfree follow the `ref` field of page_t: allocation sets 1,
 sharing adds 1, pfree drops 1 and releases the frame at 0.
 */
module CowFork {
  import opened Collections
  import opened Rounding

  const STACK: nat := (0x7fff_f000 - PGSIZE) / PGSIZE
  const HEAP: nat := 1024
  const MAX_HEAP_PAGES: nat := 32

  type Page = seq<nat>

  datatype Key = Key(pid: nat, vpn: nat)

  datatype Pte = Pte(frame: nat, writable: bool, cow: bool)

  /** The heap manager of a process and its HEAP_SEGMENT page count. */
  datatype Proc = Proc(top: nat, free: seq<nat>, npages: nat)

  datatype Result = Done | Illegal | OutOfMemory | AlreadyMapped

  datatype Op =
    | Fork(parent: nat, child: nat)
    | Store(pid: nat, vpn: nat, off: nat, val: nat)
    | Alloc(pid: nat, init: Page)
    | Free(pid: nat, vpn: nat)

  // ---------------------------------------------------------------- the eager-copy kernel

  /** Every process with pages of its own. */
  datatype Eager = Eager(mem: map<Key, Page>, procs: map<nat, Proc>)

  /** The pages eager fork copies: the stack, and the heap minus its reclaimed pages. */
  ghost function CopiedPages(p: Proc): (vs: set<nat>) {
    {STACK} + set v | HEAP <= v < p.top && v !in p.free
  }

  ghost predicate Copied(p: Proc, v: nat) {
    v in CopiedPages(p)
  }

  /** The pages of process p that satisfy the filter, as pages of process c. */
  ghost function Image(mem: map<Key, Page>, p: nat, c: nat, vs: set<nat>): (m: map<Key, Page>) {
    map v | v in vs && Key(p, v) in mem :: Key(c, v) := mem[Key(p, v)]
  }

  ghost function EagerFork(e: Eager, p: nat, c: nat): (r: Eager)
    requires p in e.procs
  {
    Eager(e.mem + Image(e.mem, p, c, CopiedPages(e.procs[p])), e.procs[c := e.procs[p]])
  }

  /** The page the next allocation uses: the last one reclaimed, else one past the heap. */
  function NextPage(p: Proc): (v: nat) {
    if p.free != [] then p.free[|p.free| - 1] else p.top
  }

  function AfterAlloc(p: Proc): (q: Proc) {
    if p.free != [] then p.(free := p.free[..|p.free| - 1])
    else p.(top := p.top + 1, npages := p.npages + 1)
  }

  /** One call, by a process that exists, on eagerly copied memory; None where the kernel panics. */
  datatype Outcome = None | Some(state: Eager)

  ghost function EagerStep(e: Eager, op: Op): (r: Outcome)
    requires Legal(e, op)
  {
    match op
    case Fork(p, c) => Some(EagerFork(e, p, c))
    case Store(pid, v, off, val) =>
      if Key(pid, v) in e.mem then
        Some(e.(mem := e.mem[Key(pid, v) := Stored(e.mem[Key(pid, v)], off, val)]))
      else None
    case Alloc(pid, init) =>
      var p := e.procs[pid];
      Some(Eager(e.mem[Key(pid, NextPage(p)) := init], e.procs[pid := AfterAlloc(p)]))
    case Free(pid, v) =>
      Some(Eager(e.mem - {Key(pid, v)}, e.procs[pid := e.procs[pid].(free := e.procs[pid].free + [v])]))
  }

  function Stored(page: Page, off: nat, val: nat): (r: Page) {
    if off < |page| then page[off := val] else page
  }

  /**
   What the callers owe: processes exist, forks use an unused slot, only live heap
   pages are freed, and no heap outgrows the 32 entries of its reclaim list.
   */
  ghost predicate Legal(e: Eager, op: Op) {
    match op
    case Fork(p, c) => p in e.procs && c !in e.procs
    case Store(pid, _, _, _) => pid in e.procs
    case Alloc(pid, _) => pid in e.procs && (e.procs[pid].free == [] ==> e.procs[pid].top < HEAP + MAX_HEAP_PAGES)
    case Free(pid, v) => pid in e.procs && HEAP <= v < e.procs[pid].top && v !in e.procs[pid].free
  }

  // ---------------------------------------------------------------- what the calls do to memory

  /** A store writes one byte of one page of one process; past the end of the page, nothing. */
  lemma StoreLaw(e: Eager, pid: nat, v: nat, off: nat, val: nat)
    requires pid in e.procs
    ensures EagerStep(e, Store(pid, v, off, val)).None? <==> Key(pid, v) !in e.mem
    ensures Key(pid, v) in e.mem ==>
              var k, e' := Key(pid, v), EagerStep(e, Store(pid, v, off, val)).state;
              && e'.procs == e.procs && e'.mem.Keys == e.mem.Keys
              && (forall q | q in e.mem && q != k :: e'.mem[q] == e.mem[q])
              && |e'.mem[k]| == |e.mem[k]|
              && (off < |e.mem[k]| ==> e'.mem[k][off] == val)
              && (forall i | 0 <= i < |e.mem[k]| && i != off :: e'.mem[k][i] == e.mem[k][i])
  {
  }

  /** An allocation maps the page last reclaimed, or else the next page above the heap, and no other. */
  lemma AllocLaw(e: Eager, pid: nat, init: Page)
    requires Legal(e, Alloc(pid, init))
    ensures var p, r := e.procs[pid], EagerStep(e, Alloc(pid, init));
            && r.Some?
            && var v, q := if p.free == [] then p.top else p.free[|p.free| - 1], r.state.procs[pid];
               && r.state.mem == e.mem[Key(pid, v) := init]
               && r.state.procs == e.procs[pid := q]
               && (if p.free == [] then q == Proc(p.top + 1, [], p.npages + 1)
                   else q == Proc(p.top, p.free[..|p.free| - 1], p.npages))
  {
  }

  /** A release unmaps the page, which becomes the one last reclaimed. */
  lemma FreeLaw(e: Eager, pid: nat, v: nat)
    requires Legal(e, Free(pid, v))
    ensures var p, r := e.procs[pid], EagerStep(e, Free(pid, v));
            && r.Some? && r.state.mem == e.mem - {Key(pid, v)}
            && r.state.procs == e.procs[pid := Proc(p.top, p.free + [v], p.npages)]
  {
  }

  /** A fork gives the child a copy of the parent's stack page and of every heap page not reclaimed. */
  lemma ForkLaw(e: Eager, p: nat, c: nat, q: Key)
    requires Layout(e.mem.Keys, e.procs) && Legal(e, Fork(p, c))
    ensures var r := EagerStep(e, Fork(p, c));
            && r.Some? && r.state.procs == e.procs[c := e.procs[p]]
            && (q.pid != c ==> (q in r.state.mem <==> q in e.mem) && (q in e.mem ==> r.state.mem[q] == e.mem[q]))
            && (q.pid == c ==> (q in r.state.mem <==> Key(p, q.vpn) in e.mem) &&
                               (q in r.state.mem ==> r.state.mem[q] == e.mem[Key(p, q.vpn)]))
            && (q.pid == c ==> (q in r.state.mem <==>
                  q.vpn == STACK || (HEAP <= q.vpn < e.procs[p].top && q.vpn !in e.procs[p].free)))
  {
    EagerForkAt(e, p, c, q);
    assert Key(p, q.vpn) in e.mem.Keys <==> Copied(e.procs[p], q.vpn);
  }

  // ---------------------------------------------------------------- counting mappers

  ghost function Mappers(ptes: map<Key, Pte>, f: nat): (ks: set<Key>) {
    set k | k in ptes && ptes[k].frame == f
  }

  /** One PTE written: its old frame loses a mapper, its new one gains it. */
  lemma MappersUpdate(ptes: map<Key, Pte>, k: Key, e: Pte, f: nat)
    ensures |Mappers(ptes[k := e], f)| ==
            |Mappers(ptes, f)| - (if k in ptes && ptes[k].frame == f then 1 else 0) + (if e.frame == f then 1 else 0)
  {
    var before, after := Mappers(ptes, f), Mappers(ptes[k := e], f);
    assert k in before <==> k in ptes && ptes[k].frame == f;
    assert k in after <==> e.frame == f;
    assert before - {k} == after - {k};
    DropOne(before, k);
    DropOne(after, k);
  }

  lemma DropOne(s: set<Key>, k: Key)
    ensures |s - {k}| == |s| - (if k in s then 1 else 0)
  {
    if k !in s {
      assert s - {k} == s;
    }
  }

  lemma MappersRemove(ptes: map<Key, Pte>, k: Key, f: nat)
    ensures |Mappers(ptes - {k}, f)| == |Mappers(ptes, f)| - (if k in ptes && ptes[k].frame == f then 1 else 0)
  {
    var before := Mappers(ptes, f);
    assert k in before <==> k in ptes && ptes[k].frame == f;
    assert Mappers(ptes - {k}, f) == before - {k};
    DropOne(before, k);
  }

  lemma NoMappers(ptes: map<Key, Pte>, f: nat)
    requires forall k | k in ptes :: ptes[k].frame != f
    ensures |Mappers(ptes, f)| == 0
  {
    assert Mappers(ptes, f) == {};
  }

  /** Each frame's count is the number of PTEs mapping it, plus one if a fork leaked it. */
  ghost predicate Counted(ptes: map<Key, Pte>, refs: map<nat, nat>, leaked: set<nat>) {
    && leaked <= refs.Keys
    && (forall k | k in ptes :: ptes[k].frame in refs && ptes[k].frame !in leaked)
    && (forall f | f in refs :: refs[f] >= 1 && refs[f] == |Mappers(ptes, f)| + if f in leaked then 1 else 0)
  }

  /** A PTE is writable or copy-on-write, and a writable one holds its frame's only reference. */
  ghost predicate WritersCounted(ptes: map<Key, Pte>, refs: map<nat, nat>) {
    forall k | k in ptes :: ptes[k].writable != ptes[k].cow &&
                            (ptes[k].writable ==> ptes[k].frame in refs && refs[ptes[k].frame] == 1)
  }

  lemma SoleMapper(ptes: map<Key, Pte>, refs: map<nat, nat>, leaked: set<nat>, k: Key, l: Key)
    requires Counted(ptes, refs, leaked) && k in ptes && l in ptes && refs[ptes[k].frame] == 1
    requires ptes[l].frame == ptes[k].frame
    ensures l == k
  {
    var ms := Mappers(ptes, ptes[k].frame);
    assert {k, l} <= ms;
    if l != k {
      SubsetSize({k, l}, ms);
    }
  }

  // ---------------------------------------------------------------- single PTE changes

  /** A new PTE for a frame fresh from the allocator. */
  lemma CountMapFresh(ptes: map<Key, Pte>, refs: map<nat, nat>, leaked: set<nat>, k: Key, e: Pte)
    requires Counted(ptes, refs, leaked) && k !in ptes && e.frame !in refs
    ensures Counted(ptes[k := e], refs[e.frame := 1], leaked)
  {
    var ptes', refs' := ptes[k := e], refs[e.frame := 1];
    NoMappers(ptes, e.frame);
    forall f | f in refs'
      ensures refs'[f] >= 1 && refs'[f] == |Mappers(ptes', f)| + if f in leaked then 1 else 0
    {
      MappersUpdate(ptes, k, e, f);
    }
  }

  /** A PTE changes its permission bits only. */
  lemma CountRetag(ptes: map<Key, Pte>, refs: map<nat, nat>, leaked: set<nat>, k: Key, e: Pte)
    requires Counted(ptes, refs, leaked) && k in ptes && e.frame == ptes[k].frame
    ensures Counted(ptes[k := e], refs, leaked)
  {
    forall f | f in refs
      ensures |Mappers(ptes[k := e], f)| == |Mappers(ptes, f)|
    {
      MappersUpdate(ptes, k, e, f);
    }
  }

  /** A second PTE for a mapped frame; a frame it displaces is leaked. */
  lemma CountShare(ptes: map<Key, Pte>, refs: map<nat, nat>, leaked: set<nat>, k: Key, c: Key, e: Pte)
    requires Counted(ptes, refs, leaked) && k in ptes && e.frame == ptes[k].frame && c != k
    requires c in ptes ==> ptes[c].frame != e.frame && refs[ptes[c].frame] == 1
    ensures Counted(ptes[c := e], refs[e.frame := refs[e.frame] + 1],
                    if c in ptes then leaked + {ptes[c].frame} else leaked)
  {
    var ptes', refs' := ptes[c := e], refs[e.frame := refs[e.frame] + 1];
    var leaked' := if c in ptes then leaked + {ptes[c].frame} else leaked;
    forall f | f in refs'
      ensures refs'[f] >= 1 && refs'[f] == |Mappers(ptes', f)| + if f in leaked' then 1 else 0
    {
      MappersUpdate(ptes, c, e, f);
    }
    forall l | l in ptes'
      ensures ptes'[l].frame in refs' && ptes'[l].frame !in leaked'
    {
      if c in ptes && l != c && ptes[l].frame == ptes[c].frame {
        SoleMapper(ptes, refs, leaked, c, l);
      }
    }
  }

  /** A PTE of a shared frame moves to a fresh copy. */
  lemma CountUnshare(ptes: map<Key, Pte>, refs: map<nat, nat>, leaked: set<nat>, k: Key, e: Pte)
    requires Counted(ptes, refs, leaked) && k in ptes && e.frame !in refs && refs[ptes[k].frame] > 1
    ensures var old_ := ptes[k].frame;
            Counted(ptes[k := e], refs[e.frame := 1][old_ := refs[old_] - 1], leaked)
  {
    var g := ptes[k].frame;
    var ptes', refs' := ptes[k := e], refs[e.frame := 1][g := refs[g] - 1];
    NoMappers(ptes, e.frame);
    forall f | f in refs'
      ensures refs'[f] >= 1 && refs'[f] == |Mappers(ptes', f)| + if f in leaked then 1 else 0
    {
      MappersUpdate(ptes, k, e, f);
    }
  }

  /** pfree's effect on the count: one reference less, the frame gone at 0. */
  ghost function Dropped(refs: map<nat, nat>, f: nat): (r: map<nat, nat>)
    requires f in refs && refs[f] >= 1
  {
    if refs[f] == 1 then refs - {f} else refs[f := refs[f] - 1]
  }

  lemma CountUnmap(ptes: map<Key, Pte>, refs: map<nat, nat>, leaked: set<nat>, k: Key)
    requires Counted(ptes, refs, leaked) && k in ptes
    ensures Counted(ptes - {k}, Dropped(refs, ptes[k].frame), leaked)
  {
    var g := ptes[k].frame;
    var ptes', refs' := ptes - {k}, Dropped(refs, g);
    forall f | f in refs'
      ensures refs'[f] >= 1 && refs'[f] == |Mappers(ptes', f)| + if f in leaked then 1 else 0
    {
      MappersRemove(ptes, k, f);
    }
    forall l | l in ptes'
      ensures ptes'[l].frame in refs'
    {
      if ptes[l].frame == g && refs[g] == 1 {
        SoleMapper(ptes, refs, leaked, k, l);
      }
    }
  }

  // ---------------------------------------------------------------- heap layout

  /** The reclaim list holds distinct pages of the heap; npages is the heap's extent. */
  ghost predicate HeapOk(p: Proc) {
    && HEAP <= p.top <= HEAP + MAX_HEAP_PAGES
    && p.npages == p.top - HEAP
    && Distinct(p.free)
    && (forall v | v in p.free :: HEAP <= v < p.top)
  }

  /** Mapped pages are the stack and exactly the heap pages not reclaimed. */
  ghost predicate Layout(keys: set<Key>, procs: map<nat, Proc>) {
    && (forall pid | pid in procs :: HeapOk(procs[pid]))
    && (forall pid, v :: Key(pid, v) in keys <==> pid in procs && Copied(procs[pid], v))
  }

  lemma AllocKeepsHeap(p: Proc)
    requires HeapOk(p) && (p.free == [] ==> p.top < HEAP + MAX_HEAP_PAGES)
    ensures HeapOk(AfterAlloc(p)) && !Copied(p, NextPage(p))
    ensures forall v :: Copied(AfterAlloc(p), v) <==> Copied(p, v) || v == NextPage(p)
  {
    if p.free != [] {
      var n := |p.free| - 1;
      assert p.free[n] in p.free;
      assert p.free == p.free[..n] + [p.free[n]];
      assert forall v | v in p.free[..n] :: v in p.free;
    }
  }

  lemma FreeKeepsHeap(p: Proc, v: nat)
    requires HeapOk(p) && HEAP <= v < p.top && v !in p.free
    ensures HeapOk(p.(free := p.free + [v])) && |p.free| < MAX_HEAP_PAGES
    ensures forall u :: Copied(p.(free := p.free + [v]), u) <==> Copied(p, u) && u != v
  {
    DistinctInRange(p.free + [v], HEAP, p.top);
  }

  lemma LayoutAlloc(keys: set<Key>, procs: map<nat, Proc>, pid: nat)
    requires Layout(keys, procs) && pid in procs
    requires procs[pid].free == [] ==> procs[pid].top < HEAP + MAX_HEAP_PAGES
    ensures Key(pid, NextPage(procs[pid])) !in keys
    ensures Layout(keys + {Key(pid, NextPage(procs[pid]))}, procs[pid := AfterAlloc(procs[pid])])
  {
    AllocKeepsHeap(procs[pid]);
  }

  lemma LayoutFree(keys: set<Key>, procs: map<nat, Proc>, pid: nat, v: nat)
    requires Layout(keys, procs) && pid in procs && HEAP <= v < procs[pid].top && v !in procs[pid].free
    ensures Key(pid, v) in keys && |procs[pid].free| < MAX_HEAP_PAGES
    ensures Layout(keys - {Key(pid, v)}, procs[pid := procs[pid].(free := procs[pid].free + [v])])
  {
    FreeKeepsHeap(procs[pid], v);
  }

  // ---------------------------------------------------------------- what processes read

  /** PTEs point to frames with contents. */
  ghost predicate Backed(ptes: map<Key, Pte>, frames: map<nat, Page>) {
    forall k | k in ptes :: ptes[k].frame in frames
  }

  ghost function ViewOf(ptes: map<Key, Pte>, frames: map<nat, Page>): (m: map<Key, Page>)
    requires Backed(ptes, frames)
  {
    map k | k in ptes :: frames[ptes[k].frame]
  }

  lemma ViewMapFresh(ptes: map<Key, Pte>, frames: map<nat, Page>, k: Key, e: Pte, init: Page)
    requires Backed(ptes, frames) && e.frame !in frames
    ensures Backed(ptes[k := e], frames[e.frame := init])
    ensures ViewOf(ptes[k := e], frames[e.frame := init]) == ViewOf(ptes, frames)[k := init]
  {
  }

  /** A PTE set to a mapped frame reads that frame; nothing else changes. */
  lemma ViewPoint(ptes: map<Key, Pte>, frames: map<nat, Page>, k: Key, e: Pte)
    requires Backed(ptes, frames) && e.frame in frames
    ensures Backed(ptes[k := e], frames) && ViewOf(ptes[k := e], frames) == ViewOf(ptes, frames)[k := frames[e.frame]]
  {
  }

  lemma ViewUnmap(ptes: map<Key, Pte>, frames: map<nat, Page>, k: Key, frames': map<nat, Page>)
    requires Backed(ptes, frames) && k in ptes && Backed(ptes - {k}, frames')
    requires forall f | f in frames' :: f in frames && frames'[f] == frames[f]
    ensures ViewOf(ptes - {k}, frames') == ViewOf(ptes, frames) - {k}
  {
  }

  /** A store through the only PTE of its frame changes that page's view and no other. */
  lemma ViewStore(ptes: map<Key, Pte>, frames: map<nat, Page>, k: Key, page: Page)
    requires Backed(ptes, frames) && k in ptes
    requires forall l | l in ptes && ptes[l].frame == ptes[k].frame :: l == k
    ensures Backed(ptes, frames[ptes[k].frame := page])
    ensures ViewOf(ptes, frames[ptes[k].frame := page]) == ViewOf(ptes, frames)[k := page]
  {
  }

  // ---------------------------------------------------------------- the whole memory state

  /** Frame contents, reference counts, the allocator's frames and all page table entries. */
  datatype Mem = Mem(frames: map<nat, Page>, refs: map<nat, nat>, pool: set<nat>, ptes: map<Key, Pte>)

  /** Counts are right and a writable entry is its frame's only one. */
  ghost predicate Ok(m: Mem, leaked: set<nat>) {
    && m.frames.Keys == m.refs.Keys && m.pool !! m.refs.Keys
    && Counted(m.ptes, m.refs, leaked) && WritersCounted(m.ptes, m.refs)
  }

  ghost function ViewMem(m: Mem, leaked: set<nat>): (v: map<Key, Page>)
    requires Ok(m, leaked)
  {
    ViewOf(m.ptes, m.frames)
  }

  /** Every frame there is: with the allocator, or counted. */
  ghost function Frames(m: Mem): (fs: set<nat>) {
    m.pool + m.refs.Keys
  }

  /** A frame is with the allocator exactly when no page maps it and no fork has leaked it. */
  lemma PoolIffUnmapped(m: Mem, leaked: set<nat>, f: nat)
    requires Ok(m, leaked) && f in Frames(m)
    ensures f in m.pool <==> f !in leaked && forall k | k in m.ptes :: m.ptes[k].frame != f
  {
    if f in m.refs && f !in leaked && forall k | k in m.ptes :: m.ptes[k].frame != f {
      NoMappers(m.ptes, f);
    }
  }

  /** alloc_page and user_vm_map: frame f, with contents init, mapped writable at k. */
  function MappedFresh(m: Mem, k: Key, f: nat, init: Page): (n: Mem) {
    Mem(m.frames[f := init], m.refs[f := 1], m.pool - {f}, m.ptes[k := Pte(f, true, false)])
  }

  lemma MappedFreshOk(m: Mem, leaked: set<nat>, k: Key, f: nat, init: Page)
    requires Ok(m, leaked) && k !in m.ptes && f in m.pool
    ensures Ok(MappedFresh(m, k, f, init), leaked)
    ensures ViewMem(MappedFresh(m, k, f, init), leaked) == ViewMem(m, leaked)[k := init]
  {
    var e := Pte(f, true, false);
    CountMapFresh(m.ptes, m.refs, leaked, k, e);
    ViewMapFresh(m.ptes, m.frames, k, e, init);
  }

  /** pfree of frame f: one reference less; at 0 the frame returns to the allocator. */
  function Released(m: Mem, f: nat): (n: Mem)
    requires f in m.refs && m.refs[f] >= 1
  {
    if m.refs[f] == 1
    then m.(frames := m.frames - {f}, refs := m.refs - {f}, pool := m.pool + {f})
    else m.(refs := m.refs[f := m.refs[f] - 1])
  }

  function Unmapped(m: Mem, k: Key): (n: Mem)
    requires k in m.ptes && m.ptes[k].frame in m.refs && m.refs[m.ptes[k].frame] >= 1
  {
    Released(m, m.ptes[k].frame).(ptes := m.ptes - {k})
  }

  lemma UnmappedRefs(m: Mem, k: Key)
    requires k in m.ptes && m.ptes[k].frame in m.refs && m.refs[m.ptes[k].frame] >= 1
    requires m.frames.Keys == m.refs.Keys && m.pool !! m.refs.Keys
    ensures var n := Unmapped(m, k);
            && n.refs == Dropped(m.refs, m.ptes[k].frame)
            && n.frames.Keys == n.refs.Keys && n.pool !! n.refs.Keys
            && forall f | f in n.frames :: f in m.frames && n.frames[f] == m.frames[f]
  {
  }

  lemma UnmappedOk(m: Mem, leaked: set<nat>, k: Key)
    requires Ok(m, leaked) && k in m.ptes
    ensures Ok(Unmapped(m, k), leaked)
    ensures ViewMem(Unmapped(m, k), leaked) == ViewMem(m, leaked) - {k}
  {
    UnmappedRefs(m, k);
    CountUnmap(m.ptes, m.refs, leaked, k);
    ViewUnmap(m.ptes, m.frames, k, Unmapped(m, k).frames);
  }

  /** do_fork on one page: the parent's PTE loses its write bit, the child's is a copy of it. */
  function Shared(e: Pte): (r: Pte) {
    if e.writable then e.(writable := false, cow := true) else e
  }

  function Protected(m: Mem, k: Key): (n: Mem)
    requires k in m.ptes
  {
    m.(ptes := m.ptes[k := Shared(m.ptes[k])])
  }

  lemma ProtectedOk(m: Mem, leaked: set<nat>, k: Key)
    requires Ok(m, leaked) && k in m.ptes
    ensures Ok(Protected(m, k), leaked) && ViewMem(Protected(m, k), leaked) == ViewMem(m, leaked)
  {
    CountRetag(m.ptes, m.refs, leaked, k, Shared(m.ptes[k]));
    ViewPoint(m.ptes, m.frames, k, Shared(m.ptes[k]));
  }

  /** No frame reachable through a writable PTE has a second mapper. */
  lemma WritersAlone(m: Mem, leaked: set<nat>, k: Key, l: Key)
    requires Ok(m, leaked) && k in m.ptes && m.ptes[k].writable && l in m.ptes && m.ptes[l].frame == m.ptes[k].frame
    ensures l == k
  {
    SoleMapper(m.ptes, m.refs, leaked, k, l);
  }

  function Duplicated(m: Mem, k: Key, c: Key): (n: Mem)
    requires k in m.ptes && m.ptes[k].frame in m.refs
  {
    var f := m.ptes[k].frame;
    m.(refs := m.refs[f := m.refs[f] + 1], ptes := m.ptes[c := m.ptes[k]])
  }

  /** PTE c may be written over: it is unset, or it maps a frame of its own. */
  ghost predicate Replaceable(m: Mem, k: Key, c: Key) {
    c != k && k in m.ptes && (c in m.ptes ==> m.ptes[c].frame in m.refs && m.refs[m.ptes[c].frame] == 1 &&
                                              m.ptes[c].frame != m.ptes[k].frame)
  }

  ghost function Leaked(m: Mem, leaked: set<nat>, c: Key): (s: set<nat>) {
    if c in m.ptes then leaked + {m.ptes[c].frame} else leaked
  }

  lemma DuplicatedOk(m: Mem, leaked: set<nat>, k: Key, c: Key)
    requires Ok(m, leaked) && k in m.ptes && m.ptes[k].cow && Replaceable(m, k, c)
    ensures Ok(Duplicated(m, k, c), Leaked(m, leaked, c))
    ensures ViewMem(Duplicated(m, k, c), Leaked(m, leaked, c)) == ViewMem(m, leaked)[c := ViewMem(m, leaked)[k]]
  {
    CountShare(m.ptes, m.refs, leaked, k, c, m.ptes[k]);
    forall l | l in m.ptes && m.ptes[l].writable
      ensures m.ptes[l].frame != m.ptes[k].frame
    {
      if m.ptes[l].frame == m.ptes[k].frame {
        SoleMapper(m.ptes, m.refs, leaked, k, l);
      }
    }
    ViewPoint(m.ptes, m.frames, c, m.ptes[k]);
  }

  function SharedPage(m: Mem, k: Key, c: Key): (n: Mem)
    requires k in m.ptes && m.ptes[k].frame in m.refs
  {
    Duplicated(Protected(m, k), k, c)
  }

  lemma SharedPageOk(m: Mem, leaked: set<nat>, k: Key, c: Key)
    requires Ok(m, leaked) && k in m.ptes && Replaceable(m, k, c)
    ensures Ok(SharedPage(m, k, c), Leaked(m, leaked, c))
    ensures ViewMem(SharedPage(m, k, c), Leaked(m, leaked, c)) == ViewMem(m, leaked)[c := ViewMem(m, leaked)[k]]
  {
    ProtectedOk(m, leaked, k);
    assert Leaked(Protected(m, k), leaked, c) == Leaked(m, leaked, c);
    DuplicatedOk(Protected(m, k), leaked, k, c);
  }

  /** The fault handler's private copy: a fresh frame for k, one reference less on the old one. */
  function Unshared(m: Mem, k: Key, f: nat): (n: Mem)
    requires k in m.ptes && m.ptes[k].frame in m.refs && m.ptes[k].frame in m.frames && m.refs[m.ptes[k].frame] > 1
  {
    var g := m.ptes[k].frame;
    Mem(m.frames[f := m.frames[g]], m.refs[f := 1][g := m.refs[g] - 1], m.pool - {f}, m.ptes[k := Pte(f, true, false)])
  }

  lemma UnsharedOk(m: Mem, leaked: set<nat>, k: Key, f: nat)
    requires Ok(m, leaked) && k in m.ptes && m.refs[m.ptes[k].frame] > 1 && f in m.pool
    ensures Ok(Unshared(m, k, f), leaked) && ViewMem(Unshared(m, k, f), leaked) == ViewMem(m, leaked)
  {
    var e := Pte(f, true, false);
    CountUnshare(m.ptes, m.refs, leaked, k, e);
    ViewMapFresh(m.ptes, m.frames, k, e, m.frames[m.ptes[k].frame]);
  }

  /** The fault handler's other branch: the last mapper takes the frame over. */
  function Reclaimed(m: Mem, k: Key): (n: Mem)
    requires k in m.ptes
  {
    m.(ptes := m.ptes[k := m.ptes[k].(writable := true, cow := false)])
  }

  lemma ReclaimedOk(m: Mem, leaked: set<nat>, k: Key)
    requires Ok(m, leaked) && k in m.ptes && m.refs[m.ptes[k].frame] == 1
    ensures Ok(Reclaimed(m, k), leaked) && ViewMem(Reclaimed(m, k), leaked) == ViewMem(m, leaked)
  {
    var e := m.ptes[k].(writable := true, cow := false);
    CountRetag(m.ptes, m.refs, leaked, k, e);
    ViewPoint(m.ptes, m.frames, k, e);
  }

  /** A store to a page mapped writable. */
  function StoredIn(m: Mem, k: Key, page: Page): (n: Mem)
    requires k in m.ptes
  {
    m.(frames := m.frames[m.ptes[k].frame := page])
  }

  lemma StoredInOk(m: Mem, leaked: set<nat>, k: Key, page: Page)
    requires Ok(m, leaked) && k in m.ptes && m.ptes[k].writable
    ensures Ok(StoredIn(m, k, page), leaked)
    ensures ViewMem(StoredIn(m, k, page), leaked) == ViewMem(m, leaked)[k := page]
  {
    forall l | l in m.ptes && m.ptes[l].frame == m.ptes[k].frame
      ensures l == k
    {
      SoleMapper(m.ptes, m.refs, leaked, k, l);
    }
    ViewStore(m.ptes, m.frames, k, page);
  }

  // ---------------------------------------------------------------- the pages a fork shares

  /** The loop of do_fork over n pages from base, on what the processes read. */
  ghost function SharedUpTo(mem: map<Key, Page>, p: nat, c: nat, base: nat, n: nat): (m: map<Key, Page>) {
    if n == 0 then mem else PageShared(SharedUpTo(mem, p, c, base, n - 1), p, c, base + n - 1)
  }

  ghost function PageShared(mem: map<Key, Page>, p: nat, c: nat, v: nat): (m: map<Key, Page>) {
    if Key(p, v) in mem then mem[Key(c, v) := mem[Key(p, v)]] else mem
  }

  /** The same loop on the memory state. */
  function SharedSegment(m: Mem, p: nat, c: nat, base: nat, n: nat): (r: Mem) {
    if n == 0 then m else SharedTurn(SharedSegment(m, p, c, base, n - 1), p, c, base + n - 1)
  }

  /** One turn of the loop: the page is shared when the parent has it. */
  function SharedTurn(m: Mem, p: nat, c: nat, v: nat): (r: Mem) {
    var k := Key(p, v);
    if k in m.ptes && m.ptes[k].frame in m.refs then SharedPage(m, k, Key(c, v)) else m
  }

  /** The sound memories in which the processes read mem. */
  ghost function Reading(leaked: set<nat>, mem: map<Key, Page>): iset<Mem> {
    iset m: Mem | Ok(m, leaked) && ViewMem(m, leaked) == mem
  }

  /** A turn of the loop keeps the relation r between memories and what is read in them. */
  ghost predicate KeptByTurn(r: (Mem, map<Key, Page>) -> bool, p: nat, c: nat) {
    forall m: Mem, mem: map<Key, Page>, v: nat {:trigger SharedTurn(m, p, c, v), PageShared(mem, p, c, v)} ::
      r(m, mem) && Key(c, v) !in mem ==> r(SharedTurn(m, p, c, v), PageShared(mem, p, c, v))
  }

  lemma {:induction false} SegmentKeeps(r: (Mem, map<Key, Page>) -> bool, m: Mem, mem: map<Key, Page>,
                                        p: nat, c: nat, base: nat, n: nat)
    requires r(m, mem) && KeptByTurn(r, p, c)
    requires p != c && forall v | base <= v < base + n :: Key(c, v) !in mem
    ensures r(SharedSegment(m, p, c, base, n), SharedUpTo(mem, p, c, base, n))
    decreases n
  {
    if n > 0 {
      SegmentKeeps(r, m, mem, p, c, base, n - 1);
      SharedUpToAt(mem, p, c, base, n - 1, Key(c, base + n - 1));
      Unfolded(m, mem, p, c, base, n);
    }
  }

  lemma SharedSegmentOk(m: Mem, leaked: set<nat>, mem: map<Key, Page>, p: nat, c: nat, base: nat, n: nat)
    requires m in Reading(leaked, mem) && p != c && forall v | base <= v < base + n :: Key(c, v) !in mem
    ensures SharedSegment(m, p, c, base, n) in Reading(leaked, SharedUpTo(mem, p, c, base, n))
  {
    var r := (x, y) => x in Reading(leaked, y);
    TurnKeepsReading(leaked, p, c, r);
    SegmentKeeps(r, m, mem, p, c, base, n);
  }

  lemma TurnKeepsReading(leaked: set<nat>, p: nat, c: nat, r: (Mem, map<Key, Page>) -> bool)
    requires p != c && r == ((x, y) => x in Reading(leaked, y))
    ensures KeptByTurn(r, p, c)
  {
    forall m: Mem, mem: map<Key, Page>, v: nat | r(m, mem) && Key(c, v) !in mem
      ensures r(SharedTurn(m, p, c, v), PageShared(mem, p, c, v))
    {
      SharedTurnOk(m, leaked, mem, p, c, v);
    }
  }

  lemma Unfolded(m: Mem, mem: map<Key, Page>, p: nat, c: nat, base: nat, n: nat)
    requires n > 0
    ensures SharedSegment(m, p, c, base, n) == SharedTurn(SharedSegment(m, p, c, base, n - 1), p, c, base + n - 1)
    ensures SharedUpTo(mem, p, c, base, n) == PageShared(SharedUpTo(mem, p, c, base, n - 1), p, c, base + n - 1)
  {
  }

  lemma SharedTurnOk(m: Mem, leaked: set<nat>, mem: map<Key, Page>, p: nat, c: nat, v: nat)
    requires m in Reading(leaked, mem) && p != c && Key(c, v) !in mem
    ensures SharedTurn(m, p, c, v) in Reading(leaked, PageShared(mem, p, c, v))
  {
    ViewKeys(m, leaked);
    if Key(p, v) in m.ptes {
      SharedPageOk(m, leaked, Key(p, v), Key(c, v));
    }
  }

  lemma {:induction false} SharedUpToAt(mem: map<Key, Page>, p: nat, c: nat, base: nat, n: nat, q: Key)
    requires p != c
    ensures var m := SharedUpTo(mem, p, c, base, n);
            if q.pid == c && base <= q.vpn < base + n && Key(p, q.vpn) in mem
            then q in m && m[q] == mem[Key(p, q.vpn)]
            else (q in m <==> q in mem) && (q in mem ==> m[q] == mem[q])
    decreases n
  {
    if n > 0 {
      SharedUpToAt(mem, p, c, base, n - 1, q);
      SharedUpToAt(mem, p, c, base, n - 1, Key(p, base + n - 1));
    }
  }

  /** What the processes read after do_fork has shared the stack and npages heap pages. */
  ghost function CowFork(mem: map<Key, Page>, p: nat, c: nat, npages: nat): (m: map<Key, Page>)
    requires Key(p, STACK) in mem
  {
    SharedUpTo(mem[Key(c, STACK) := mem[Key(p, STACK)]], p, c, HEAP, npages)
  }

  lemma CowForkAt(mem: map<Key, Page>, p: nat, c: nat, npages: nat, q: Key)
    requires p != c && Key(p, STACK) in mem
    ensures var m := CowFork(mem, p, c, npages);
            if q.pid == c && HEAP <= q.vpn < HEAP + npages && Key(p, q.vpn) in mem
            then q in m && m[q] == mem[Key(p, q.vpn)]
            else if q == Key(c, STACK) then q in m && m[q] == mem[Key(p, STACK)]
            else (q in m <==> q in mem) && (q in mem ==> m[q] == mem[q])
  {
    SharedUpToAt(mem[Key(c, STACK) := mem[Key(p, STACK)]], p, c, HEAP, npages, q);
  }

  /**
   Exactly when copy-on-write fork reads like the eager copy: when the page count
   it walks reaches every heap page not reclaimed.
   */
  lemma CowForkIsEagerIff(e: Eager, p: nat, c: nat, npages: nat)
    requires Layout(e.mem.Keys, e.procs) && p in e.procs && c !in e.procs && npages <= e.procs[p].top - HEAP
    ensures Key(p, STACK) in e.mem
    ensures CowFork(e.mem, p, c, npages) == EagerFork(e, p, c).mem <==>
            forall v | HEAP + npages <= v < e.procs[p].top :: v in e.procs[p].free
  {
    var m, n := CowFork(e.mem, p, c, npages), EagerFork(e, p, c).mem;
    var covered := forall v | HEAP + npages <= v < e.procs[p].top :: v in e.procs[p].free;
    if covered {
      forall q
        ensures (q in m <==> q in n) && (q in m ==> m[q] == n[q])
      {
        CowForkAt(e.mem, p, c, npages, q);
        EagerForkAt(e, p, c, q);
      }
      assert m == n;
    } else {
      var v: nat :| HEAP + npages <= v < e.procs[p].top && v !in e.procs[p].free;
      CowForkAt(e.mem, p, c, npages, Key(c, v));
      EagerForkAt(e, p, c, Key(c, v));
      assert Key(c, v) in n && Key(c, v) !in m;
    }
  }

  lemma EagerForkAt(e: Eager, p: nat, c: nat, q: Key)
    requires Layout(e.mem.Keys, e.procs) && p in e.procs && c !in e.procs
    ensures var m := EagerFork(e, p, c).mem;
            if q.pid == c
            then (q in m <==> Copied(e.procs[p], q.vpn)) && (q in m ==> Key(p, q.vpn) in e.mem && m[q] == e.mem[Key(p, q.vpn)])
            else (q in m <==> q in e.mem) && (q in m ==> m[q] == e.mem[q])
  {
    assert Key(p, q.vpn) in e.mem.Keys <==> Copied(e.procs[p], q.vpn);
    assert Key(c, q.vpn) !in e.mem.Keys;
    assert q.pid == c ==> q == Key(c, q.vpn);
  }

  lemma ForkLayout(mem: map<Key, Page>, procs: map<nat, Proc>, p: nat, c: nat)
    requires Layout(mem.Keys, procs) && p in procs && c !in procs
    ensures Layout((mem + Image(mem, p, c, CopiedPages(procs[p]))).Keys, procs[c := procs[p]])
  {
    var m := mem + Image(mem, p, c, CopiedPages(procs[p]));
    forall pid, v
      ensures Key(pid, v) in m.Keys <==> pid in procs[c := procs[p]] && Copied(procs[c := procs[p]][pid], v)
    {
      assert Key(p, v) in mem.Keys <==> Copied(procs[p], v);
    }
  }

  /** Memory after alloc_process gave the child stack frame f and do_fork shared stack and heap. */
  function Forked(m: Mem, p: nat, c: nat, f: nat, junk: Page, npages: nat): (r: Mem)
    requires Key(p, STACK) in m.ptes && m.ptes[Key(p, STACK)].frame in m.refs && p != c
  {
    SharedSegment(SharedPage(MappedFresh(m, Key(c, STACK), f, junk), Key(p, STACK), Key(c, STACK)), p, c, HEAP, npages)
  }

  lemma StackForkedOk(m: Mem, leaked: set<nat>, mem: map<Key, Page>, p: nat, c: nat, f: nat, junk: Page)
    requires m in Reading(leaked, mem) && StackMapped(m, p) && p != c && f in m.pool
    requires Key(p, STACK) in mem && Key(c, STACK) !in mem
    ensures f !in leaked
    ensures SharedPage(MappedFresh(m, Key(c, STACK), f, junk), Key(p, STACK), Key(c, STACK))
            in Reading(leaked + {f}, mem[Key(c, STACK) := mem[Key(p, STACK)]])
  {
    var k, q := Key(p, STACK), Key(c, STACK);
    var m1 := MappedFresh(m, q, f, junk);
    MappedFreshOk(m, leaked, q, f, junk);
    assert Replaceable(m1, k, q) && Leaked(m1, leaked, q) == leaked + {f};
    SharedPageOk(m1, leaked, k, q);
    Overwrite(mem, k, q, junk);
  }

  lemma Overwrite(mem: map<Key, Page>, k: Key, q: Key, junk: Page)
    requires k in mem && k != q
    ensures mem[q := junk][q := mem[q := junk][k]] == mem[q := mem[k]]
  {
  }

  lemma ViewKeys(m: Mem, leaked: set<nat>)
    requires Ok(m, leaked)
    ensures ViewMem(m, leaked).Keys == m.ptes.Keys
  {
  }

  // ---------------------------------------------------------------- the kernel's steps on values

  /** The memory states a process table may have: the invariant of the whole kernel. */
  ghost function GoodMemories(procs: map<nat, Proc>, leaked: set<nat>): iset<Mem> {
    iset m: Mem | Ok(m, leaked) && Layout(m.ptes.Keys, procs)
  }

  ghost predicate Good(m: Mem, procs: map<nat, Proc>, leaked: set<nat>) {
    m in GoodMemories(procs, leaked)
  }

  ghost function View(m: Mem, procs: map<nat, Proc>, leaked: set<nat>): (e: Eager)
    requires Good(m, procs, leaked)
  {
    Eager(ViewMem(m, leaked), procs)
  }

  lemma AllocStep(m: Mem, procs: map<nat, Proc>, leaked: set<nat>, pid: nat, f: nat, init: Page)
    requires Good(m, procs, leaked) && Legal(View(m, procs, leaked), Alloc(pid, init)) && f in m.pool
    ensures var k := Key(pid, NextPage(procs[pid]));
            var m', procs' := MappedFresh(m, k, f, init), procs[pid := AfterAlloc(procs[pid])];
            && k !in m.ptes && (procs[pid].free != [] ==> k.vpn < procs[pid].top) && Frames(m') == Frames(m)
            && Good(m', procs', leaked)
            && EagerStep(View(m, procs, leaked), Alloc(pid, init)) == Some(View(m', procs', leaked))
  {
    var k := Key(pid, NextPage(procs[pid]));
    LayoutAlloc(m.ptes.Keys, procs, pid);
    MappedFreshOk(m, leaked, k, f, init);
    assert MappedFresh(m, k, f, init).ptes.Keys == m.ptes.Keys + {k};
    assert procs[pid].free != [] ==> k.vpn in procs[pid].free;
  }

  /** Process pid has given back its page v. */
  function PageReturned(procs: map<nat, Proc>, pid: nat, v: nat): (r: map<nat, Proc>)
    requires pid in procs && |procs[pid].free| < MAX_HEAP_PAGES
  {
    procs[pid := procs[pid].(free := procs[pid].free + [v])]
  }

  lemma FreeStep(m: Mem, procs: map<nat, Proc>, leaked: set<nat>, pid: nat, v: nat)
    requires Good(m, procs, leaked) && Legal(View(m, procs, leaked), Free(pid, v))
    ensures Key(pid, v) in m.ptes && |procs[pid].free| < MAX_HEAP_PAGES
    ensures var m', procs' := Unmapped(m, Key(pid, v)), PageReturned(procs, pid, v);
            && Good(m', procs', leaked) && Frames(m') == Frames(m)
            && EagerStep(View(m, procs, leaked), Free(pid, v)) == Some(View(m', procs', leaked))
  {
    LayoutFree(m.ptes.Keys, procs, pid, v);
    UnmappedOk(m, leaked, Key(pid, v));
    assert Unmapped(m, Key(pid, v)).ptes.Keys == m.ptes.Keys - {Key(pid, v)};
  }

  lemma StoreStep(m: Mem, procs: map<nat, Proc>, leaked: set<nat>, pid: nat, v: nat, off: nat, val: nat)
    requires Good(m, procs, leaked) && pid in procs && Key(pid, v) in m.ptes && m.ptes[Key(pid, v)].writable
    ensures var k := Key(pid, v);
            var m' := StoredIn(m, k, Stored(m.frames[m.ptes[k].frame], off, val));
            && Good(m', procs, leaked) && Frames(m') == Frames(m)
            && EagerStep(View(m, procs, leaked), Store(pid, v, off, val)) == Some(View(m', procs, leaked))
  {
    var k := Key(pid, v);
    StoredInOk(m, leaked, k, Stored(m.frames[m.ptes[k].frame], off, val));
  }

  /** Copy-on-write fork, with the page count the extent of the heap, is the eager fork. */
  lemma ForkStep(m: Mem, procs: map<nat, Proc>, leaked: set<nat>, p: nat, c: nat, f: nat, junk: Page, m': Mem,
                 procs': map<nat, Proc>, leaked': set<nat>, e: Eager)
    requires Good(m, procs, leaked) && p in procs && c !in procs && f in m.pool && StackMapped(m, p)
    requires m' == Forked(m, p, c, f, junk, procs[p].npages)
    requires procs' == procs[c := procs[p]] && leaked' == leaked + {f} && e == View(m, procs, leaked)
    ensures f !in leaked && Good(m', procs', leaked') && Frames(m') == Frames(m)
    ensures EagerStep(e, Fork(p, c)) == Some(View(m', procs', leaked'))
  {
    GoodReads(m, procs, leaked);
    ForkFits(e, p, c);
    ForkStackAndHeap(m, leaked, e.mem, p, c, f, junk, procs[p].npages, m');
    GoodFrom(m', EagerFork(e, p, c).mem, procs', leaked');
    ForkFrames(m, p, c, f, junk, procs[p].npages);
  }

  lemma ForkFrames(m: Mem, p: nat, c: nat, f: nat, junk: Page, npages: nat)
    requires StackMapped(m, p) && p != c && f in m.pool
    ensures Frames(Forked(m, p, c, f, junk, npages)) == Frames(m)
  {
    var m1 := MappedFresh(m, Key(c, STACK), f, junk);
    SegmentFrames(SharedPage(m1, Key(p, STACK), Key(c, STACK)), p, c, HEAP, npages);
  }

  lemma {:induction false} SegmentFrames(m: Mem, p: nat, c: nat, base: nat, n: nat)
    ensures Frames(SharedSegment(m, p, c, base, n)) == Frames(m)
    decreases n
  {
    if n > 0 {
      SegmentFrames(m, p, c, base, n - 1);
      TurnFrames(SharedSegment(m, p, c, base, n - 1), p, c, base + n - 1);
      Unfolded(m, map[], p, c, base, n);
    }
  }

  lemma TurnFrames(m: Mem, p: nat, c: nat, v: nat)
    ensures Frames(SharedTurn(m, p, c, v)) == Frames(m)
  {
  }

  lemma OneMore(s: set<nat>, x: nat)
    requires x !in s
    ensures |s + {x}| == |s| + 1
  {
  }

  lemma GoodReads(m: Mem, procs: map<nat, Proc>, leaked: set<nat>)
    requires Good(m, procs, leaked)
    ensures m in Reading(leaked, View(m, procs, leaked).mem)
    ensures Layout(View(m, procs, leaked).mem.Keys, procs)
    ensures forall p | p in procs :: procs[p].npages <= STACK - HEAP
  {
    ViewKeys(m, leaked);
  }

  lemma GoodFrom(m: Mem, mem: map<Key, Page>, procs: map<nat, Proc>, leaked: set<nat>)
    requires m in Reading(leaked, mem) && Layout(mem.Keys, procs)
    ensures Good(m, procs, leaked) && View(m, procs, leaked) == Eager(mem, procs)
  {
    ViewKeys(m, leaked);
  }

  ghost predicate StackMapped(m: Mem, p: nat) {
    Key(p, STACK) in m.ptes && forall k | k in m.ptes :: m.ptes[k].frame in m.refs
  }

  lemma EveryStackMapped(m: Mem, procs: map<nat, Proc>, leaked: set<nat>, p: nat)
    requires Good(m, procs, leaked) && p in procs
    ensures StackMapped(m, p)
  {
    assert Key(p, STACK) in m.ptes.Keys;
  }

  lemma ForkStackAndHeap(m: Mem, leaked: set<nat>, mem: map<Key, Page>, p: nat, c: nat, f: nat, junk: Page,
                         npages: nat, m': Mem)
    requires m in Reading(leaked, mem) && StackMapped(m, p) && p != c && f in m.pool
    requires m' == Forked(m, p, c, f, junk, npages)
    requires Key(p, STACK) in mem && (forall v :: Key(c, v) !in mem) && npages <= STACK - HEAP
    ensures f !in leaked
    ensures m' in Reading(leaked + {f}, CowFork(mem, p, c, npages))
  {
    assert Key(c, STACK) !in mem;
    StackForkedOk(m, leaked, mem, p, c, f, junk);
    var m2 := SharedPage(MappedFresh(m, Key(c, STACK), f, junk), Key(p, STACK), Key(c, STACK));
    var mem2 := mem[Key(c, STACK) := mem[Key(p, STACK)]];
    assert forall v :: Key(c, v) in mem2 ==> v == STACK;
    SharedSegmentOk(m2, leaked + {f}, mem2, p, c, HEAP, npages);
  }

  /** The store fault handler's two branches: what processes read does not change. */
  lemma FaultStep(m: Mem, procs: map<nat, Proc>, leaked: set<nat>, k: Key, f: nat)
    requires Good(m, procs, leaked) && k in m.ptes && (m.refs[m.ptes[k].frame] > 1 ==> f in m.pool)
    ensures var m' := if m.refs[m.ptes[k].frame] > 1 then Unshared(m, k, f) else Reclaimed(m, k);
            && Good(m', procs, leaked) && k in m'.ptes && m'.ptes[k].writable && Frames(m') == Frames(m)
            && View(m', procs, leaked) == View(m, procs, leaked)
  {
    var m' := if m.refs[m.ptes[k].frame] > 1 then Unshared(m, k, f) else Reclaimed(m, k);
    if m.refs[m.ptes[k].frame] > 1 {
      UnsharedOk(m, leaked, k, f);
    } else {
      ReclaimedOk(m, leaked, k);
    }
    FaultFrames(m, leaked, k, f, m');
    ViewKeys(m, leaked);
    ViewKeys(m', leaked);
  }

  lemma FaultFrames(m: Mem, leaked: set<nat>, k: Key, f: nat, m': Mem)
    requires Ok(m, leaked) && k in m.ptes && (m.refs[m.ptes[k].frame] > 1 ==> f in m.pool)
    requires m' == if m.refs[m.ptes[k].frame] > 1 then Unshared(m, k, f) else Reclaimed(m, k)
    ensures Frames(m') == Frames(m)
  {
  }

  /** With npages the extent of the parent's heap, copy-on-write fork is the eager fork. */
  lemma ForkFits(e: Eager, p: nat, c: nat)
    requires Layout(e.mem.Keys, e.procs) && p in e.procs && c !in e.procs
    ensures Key(p, STACK) in e.mem && forall v :: Key(c, v) !in e.mem
    ensures CowFork(e.mem, p, c, e.procs[p].npages) == EagerFork(e, p, c).mem
    ensures Layout(EagerFork(e, p, c).mem.Keys, e.procs[c := e.procs[p]])
  {
    CowForkIsEagerIff(e, p, c, e.procs[p].npages);
    ForkLayout(e.mem, e.procs, p, c);
    assert forall v :: Key(c, v) !in e.mem.Keys;
  }

  // ---------------------------------------------------------------- heap leaf tables

  /** Some heap page of process p, of the first n, is mapped. */
  ghost predicate HasHeapPage(keys: set<Key>, p: nat, n: nat) {
    exists v :: HEAP <= v < HEAP + n && Key(p, v) in keys
  }

  /** Mapped heap pages hang from their process's leaf table; stack pages have a table of their own. */
  ghost predicate Tabled(keys: set<Key>, tabled: set<nat>) {
    forall k | k in keys :: k.vpn == STACK || k.pid in tabled
  }

  /** The processes with a heap leaf table after a call: an allocation makes one, and so does a page shared into a child. */
  ghost function TabledNext(tabled: set<nat>, e: Eager, op: Op): (r: set<nat>)
    requires Legal(e, op)
  {
    match op
    case Alloc(pid, _) => tabled + {pid}
    case Fork(p, c) => if HasHeapPage(e.mem.Keys, p, e.procs[p].npages) then tabled + {c} else tabled
    case _ => tabled
  }

  /**
   A fork that walks to a heap page of a process without a heap leaf table: page_walk returns 0,
   and the source reads through it.
   */
  ghost predicate NullFork(tabled: set<nat>, e: Eager, op: Op)
    requires Legal(e, op)
  {
    op.Fork? && e.procs[op.parent].npages > 0 && op.parent !in tabled
  }

  /** The keys of copied memory: a child's heap pages are its parent's. */
  lemma ForkTabled(e: Eager, p: nat, c: nat, tabled: set<nat>)
    requires Layout(e.mem.Keys, e.procs) && p in e.procs && c !in e.procs && Tabled(e.mem.Keys, tabled)
    ensures Tabled(EagerFork(e, p, c).mem.Keys, TabledNext(tabled, e, Fork(p, c)))
  {
    var after := TabledNext(tabled, e, Fork(p, c));
    forall k | k in EagerFork(e, p, c).mem.Keys
      ensures k.vpn == STACK || k.pid in after
    {
      if k !in e.mem {
        assert k.pid == c && Copied(e.procs[p], k.vpn);
        assert Key(p, k.vpn) in e.mem.Keys;
      }
    }
  }

  /** What a fork does to the leaf tables, and whether it meets a null result. */
  ghost function ForkedTables(l: Leaves, e: Eager, p: nat, c: nat): iset<Leaves> {
    iset r: Leaves | Legal(e, Fork(p, c)) && r.tabled == TabledNext(l.tabled, e, Fork(p, c))
                     && r.met == (l.met || NullFork(l.tabled, e, Fork(p, c)))
  }

  lemma ForkReady(m: Mem, procs: map<nat, Proc>, leaked: set<nat>, p: nat)
    requires Good(m, procs, leaked) && p in procs
    ensures StackMapped(m, p) && HEAP + procs[p].npages <= STACK
  {
    GoodReads(m, procs, leaked);
    EveryStackMapped(m, procs, leaked, p);
  }

  /** The leaf tables of the heap, and whether the null result has been met. */
  datatype Leaves = Leaves(tabled: set<nat>, met: bool)

  /** After sharing the first n heap pages of p with c. */
  ghost function LeavesAfter(l: Leaves, keys: set<Key>, p: nat, c: nat, n: nat): (r: Leaves) {
    Leaves(if HasHeapPage(keys, p, n) then l.tabled + {c} else l.tabled, l.met || (n > 0 && p !in l.tabled))
  }

  lemma TablesShared(m: Mem, procs: map<nat, Proc>, leaked: set<nat>, p: nat, c: nat, l: Leaves, l': Leaves, e: Eager, n: nat)
    requires Good(m, procs, leaked) && p in procs && c !in procs && e == View(m, procs, leaked) && n == procs[p].npages
    requires l' == LeavesAfter(l, m.ptes.Keys, p, c, n)
    ensures l' in ForkedTables(l, e, p, c)
  {
    ViewKeys(m, leaked);
  }

  /** Leaf tables keep up with what is mapped. */
  lemma TabledStep(e: Eager, op: Op, tabled: set<nat>)
    requires Legal(e, op) && EagerStep(e, op).Some? && Tabled(e.mem.Keys, tabled) && Layout(e.mem.Keys, e.procs)
    ensures Tabled(EagerStep(e, op).state.mem.Keys, TabledNext(tabled, e, op))
  {
    if op.Fork? {
      ForkTabled(e, op.parent, op.child, tabled);
    }
  }

  // ---------------------------------------------------------------- the copy-on-write kernel

  /** A store to k needs a copy of a shared frame, and there is no frame to copy it to. */
  ghost predicate CannotCopy(m: Mem, k: Key) {
    k in m.ptes && !m.ptes[k].writable && m.ptes[k].frame in m.refs && m.refs[m.ptes[k].frame] > 1 && m.pool == {}
  }

  class Kernel {
    var m: Mem
    var procs: map<nat, Proc>
    /** Stack frames that alloc_process mapped and do_fork overwrote, one per fork. */
    ghost var leaked: set<nat>
    ghost var forks: nat
    /** All the frames there are. */
    ghost const memory: set<nat>
    /** Processes whose page table has the leaf table of the heap. */
    var tabled: set<nat>
    /** Some fork has met the null result of page_walk that the source does not test for. */
    ghost var metNull: bool

    ghost predicate Valid()
      reads this
    {
      Good(m, procs, leaked) && |leaked| == forks && Frames(m) == memory
    }

    /** Every mapped heap page hangs from its process's leaf table. */
    ghost predicate HeapTables()
      reads this
    {
      Tabled(m.ptes.Keys, tabled)
    }

    /** What every process reads, page by page, and the process table. */
    ghost function Abstract(): (e: Eager)
      requires Good(m, procs, leaked)
      reads this
    {
      View(m, procs, leaked)
    }

    /** The first process, with its stack page. */
    constructor (memory: set<nat>, frame: nat, stack: Page)
      requires frame in memory
      ensures Valid() && this.memory == memory && HeapTables() && forks == 0 && tabled == {} && !metNull
      ensures Abstract() == Eager(map[Key(0, STACK) := stack], map[0 := Proc(HEAP, [], 0)])
    {
      var empty := Mem(map[], map[], memory, map[]);
      MappedFreshOk(empty, {}, Key(0, STACK), frame, stack);
      m := MappedFresh(empty, Key(0, STACK), frame, stack);
      procs := map[0 := Proc(HEAP, [], 0)];
      this.memory := memory;
      leaked, forks := {}, 0;
      tabled, metNull := {}, false;
    }

    /** alloc_page: some frame not in use; the source panics when there is none. */
    method AllocFrame() returns (ok: bool, f: nat)
      ensures ok <==> m.pool != {}
      ensures ok ==> f in m.pool
    {
      if m.pool == {} {
        return false, 0;
      }
      f :| f in m.pool;
      ok := true;
    }

    /** sys_user_allocate_page; the panic on a page already mapped is unreachable. */
    method AllocPage(pid: nat, init: Page) returns (r: Result)
      requires Valid() && Legal(Abstract(), Alloc(pid, init))
      modifies this`m, this`procs, this`tabled
      ensures Valid() && r == if old(m).pool == {} then OutOfMemory else Done
      ensures r == Done ==> EagerStep(old(Abstract()), Alloc(pid, init)) == Some(Abstract())
      ensures tabled == if r == Done then old(tabled) + {pid} else old(tabled)
      ensures r != Done ==> m == old(m) && procs == old(procs)
    {
      var ok, f := AllocFrame();
      if !ok {
        return OutOfMemory;
      }
      var p := procs[pid];
      var k := Key(pid, NextPage(p));
      AllocStep(m, procs, leaked, pid, f, init);
      procs := procs[pid := AfterAlloc(p)];
      tabled := tabled + {pid};
      if k in m.ptes {
        return AlreadyMapped;
      }
      m := MappedFresh(m, k, f, init);
      return Done;
    }

    /** sys_user_free_page of a live heap page. */
    method FreePage(pid: nat, v: nat)
      requires Valid() && Legal(Abstract(), Free(pid, v))
      modifies this`m, this`procs
      ensures Valid() && EagerStep(old(Abstract()), Free(pid, v)) == Some(Abstract())
    {
      FreeStep(m, procs, leaked, pid, v);
      m := Unmapped(m, Key(pid, v));
      procs := PageReturned(procs, pid, v);
    }

    /** do_fork on one mapped page of the parent: protect, count, copy the PTE. */
    method SharePage(k: Key, c: Key)
      requires k in m.ptes && m.ptes[k].frame in m.refs && c != k
      modifies this`m
      ensures m == SharedPage(old(m), k, c)
    {
      if m.ptes[k].writable {
        m := m.(ptes := m.ptes[k := m.ptes[k].(writable := false, cow := true)]);
      } else {
        assert m.ptes[k := Shared(m.ptes[k])] == m.ptes;
      }
      m := m.(refs := m.refs[m.ptes[k].frame := m.refs[m.ptes[k].frame] + 1]);
      m := m.(ptes := m.ptes[c := m.ptes[k]]);
    }

    /** page_walk without alloc: whether there is a leaf table with an entry for the page. */
    method HasLeaf(k: Key) returns (found: bool)
      ensures found <==> k.vpn == STACK || k.pid in tabled
    {
      return k.vpn == STACK || k.pid in tabled;
    }

    /**
     do_fork's loop over n pages of the heap: the valid PTEs are shared, the rest skipped.  A null
     result of page_walk is skipped too, and remembered; the source would read through it.
     */
    method ShareSegment(p: nat, c: nat, base: nat, n: nat)
      requires p != c && base == HEAP && base + n <= STACK && Tabled(m.ptes.Keys, tabled)
      requires forall k | k in m.ptes :: m.ptes[k].frame in m.refs
      modifies this`m, this`tabled, this`metNull
      ensures m == SharedSegment(old(m), p, c, base, n)
      ensures tabled == if HasHeapPage(old(m).ptes.Keys, p, n) then old(tabled) + {c} else old(tabled)
      ensures metNull == (old(metNull) || (n > 0 && p !in old(tabled)))
    {
      for i := 0 to n
        invariant m == SharedSegment(old(m), p, c, base, i)
        invariant forall k | k in m.ptes :: m.ptes[k].frame in m.refs
        invariant forall v :: Key(p, v) in m.ptes <==> Key(p, v) in old(m).ptes
        invariant tabled == if HasHeapPage(old(m).ptes.Keys, p, i) then old(tabled) + {c} else old(tabled)
        invariant metNull == (old(metNull) || (i > 0 && p !in old(tabled)))
      {
        assert base + (i + 1) - 1 == base + i;
        HeapPageMore(old(m).ptes.Keys, p, i);
        var found := HasLeaf(Key(p, base + i));
        if !found {
          metNull := true;
        } else if Key(p, base + i) in m.ptes {
          tabled := tabled + {c};
          SharePage(Key(p, base + i), Key(c, base + i));
        }
      }
    }

    /** alloc_process's stack mapping, then do_fork's stack and heap segments. */
    method ShareMemory(p: nat, c: nat, f: nat, junk: Page, npages: nat)
      requires p != c && StackMapped(m, p) && HEAP + npages <= STACK && Tabled(m.ptes.Keys, tabled)
      modifies this`m, this`tabled, this`metNull
      ensures m == Forked(old(m), p, c, f, junk, npages)
      ensures Leaves(tabled, metNull) == LeavesAfter(Leaves(old(tabled), old(metNull)), old(m).ptes.Keys, p, c, npages)
    {
      m := MappedFresh(m, Key(c, STACK), f, junk);
      SharePage(Key(p, STACK), Key(c, STACK));
      assert HasHeapPage(m.ptes.Keys, p, npages) <==> HasHeapPage(old(m).ptes.Keys, p, npages) by {
        assert forall v :: Key(p, v) in m.ptes <==> Key(p, v) in old(m).ptes;
      }
      ShareSegment(p, c, HEAP, npages);
    }

    /** do_fork, with the heap's page count carried over to the child. */
    method DoFork(p: nat, c: nat, junk: Page) returns (r: Result)
      requires Valid() && HeapTables() && Legal(Abstract(), Fork(p, c))
      modifies this
      ensures Valid() && r == if old(m).pool == {} then OutOfMemory else Done
      ensures r == Done ==> EagerStep(old(Abstract()), Fork(p, c)) == Some(Abstract()) && forks == old(forks) + 1
      ensures r == Done ==> Leaves(tabled, metNull) in ForkedTables(Leaves(old(tabled), old(metNull)), old(Abstract()), p, c)
      ensures r != Done ==> m == old(m) && procs == old(procs) && tabled == old(tabled) && metNull == old(metNull)
    {
      var ok, f := AllocFrame();
      if !ok {
        return OutOfMemory;
      }
      ghost var m0, procs0, leaked0, l0 := m, procs, leaked, Leaves(tabled, metNull);
      ForkReady(m, procs, leaked, p);
      ForkWith(p, c, f, junk);
      TablesShared(m0, procs0, leaked0, p, c, l0, Leaves(tabled, metNull), old(Abstract()), procs0[p].npages);
      return Done;
    }

    method ForkWith(p: nat, c: nat, f: nat, junk: Page)
      requires Valid() && p in procs && c !in procs && f in m.pool
      requires StackMapped(m, p) && HEAP + procs[p].npages <= STACK && HeapTables()
      modifies this
      ensures forks == old(forks) + 1 && Valid() && EagerStep(old(Abstract()), Fork(p, c)) == Some(Abstract())
      ensures Leaves(tabled, metNull) ==
              LeavesAfter(Leaves(old(tabled), old(metNull)), old(m).ptes.Keys, p, c, old(procs)[p].npages)
    {
      var npages := procs[p].npages;
      procs := procs[c := procs[p]];
      leaked, forks := leaked + {f}, forks + 1;
      ShareMemory(p, c, f, junk, npages);
      ForkStep(old(m), old(procs), old(leaked), p, c, f, junk, m, procs, leaked, old(Abstract()));
      OneMore(old(leaked), f);
    }

    /**
     A store: the page must be mapped, and if it is not writable the page fault
     handler first gives the process a frame of its own.
     */
    method StoreByte(pid: nat, v: nat, off: nat, val: nat) returns (r: Result)
      requires Valid() && Legal(Abstract(), Store(pid, v, off, val))
      modifies this`m
      ensures Valid() && (r == Done || r == Illegal || r == OutOfMemory)
      ensures r == Illegal <==> EagerStep(old(Abstract()), Store(pid, v, off, val)) == None
      ensures r == OutOfMemory <==> CannotCopy(old(m), Key(pid, v))
      ensures r == Done ==> EagerStep(old(Abstract()), Store(pid, v, off, val)) == Some(Abstract())
      ensures r != Done ==> m == old(m)
    {
      var k := Key(pid, v);
      if k !in m.ptes {
        return Illegal;
      }
      if !m.ptes[k].writable {
        r := PageFault(k);
        if r != Done {
          return;
        }
      }
      var page := Stored(m.frames[m.ptes[k].frame], off, val);
      StoreStep(m, procs, leaked, pid, v, off, val);
      m := StoredIn(m, k, page);
      return Done;
    }

    /** The store fault handler: copy if the frame is shared, else take it over. */
    method PageFault(k: Key) returns (r: Result)
      requires Valid() && k in m.ptes && !m.ptes[k].writable
      modifies this`m
      ensures Valid() && r == if CannotCopy(old(m), k) then OutOfMemory else Done
      ensures r == Done ==> k in m.ptes && m.ptes[k].writable && Abstract() == old(Abstract())
      ensures r != Done ==> m == old(m)
    {
      if !m.ptes[k].cow {
        return Illegal;
      }
      if m.refs[m.ptes[k].frame] > 1 {
        var ok, f := AllocFrame();
        if !ok {
          return OutOfMemory;
        }
        FaultStep(m, procs, leaked, k, f);
        m := Unshared(m, k, f);
      } else {
        FaultStep(m, procs, leaked, k, 0);
        m := Reclaimed(m, k);
      }
      return Done;
    }

    /**
     Any sequence of calls by any of the processes, in any order.  As long as memory
     lasts, every process reads from its stack and heap exactly what it would read
     had every fork copied eagerly, and the run panics exactly where the eager one does.
     The null result of page_walk is met exactly by the forks of processes with a page
     count but without a heap page ever allocated by or shared into them.
     */
    method Run(ops: seq<Op>) returns (r: Result, done: nat)
      requires Valid() && HeapTables() && LegalRun(Abstract(), ops)
      modifies this
      ensures done <= |ops| && Valid() && EagerRun(old(Abstract()), ops[..done]) == Some(Abstract())
      ensures (r == Done ==> done == |ops|) && StoppedAt(m, Abstract(), ops, done, r)
      ensures HeapTables() && tabled == TabledAfter(old(tabled), old(Abstract()), ops[..done])
      ensures metNull <==> old(metNull) || MetBefore(old(tabled), old(Abstract()), ops, done)
    {
      ghost var e0, t0, met0 := Abstract(), tabled, metNull;
      RunStarts(e0, t0, met0, ops);
      done, r := 0, Done;
      while done < |ops| && r == Done
        invariant done <= |ops| && Valid() && HeapTables()
        invariant Progress(done, Abstract(), tabled, metNull) in Reached(e0, t0, met0, ops)
        invariant StoppedAt(m, Abstract(), ops, done, r)
        decreases |ops| - done, if r == Done then 1 else 0
      {
        done, r := Turn(ops, done, e0, t0, met0);
      }
      RunReached(e0, t0, met0, ops, Progress(done, Abstract(), tabled, metNull));
    }

    /** The next call of a run, after which it goes on or has stopped. */
    method Turn(ops: seq<Op>, done: nat, ghost e0: Eager, ghost t0: set<nat>, ghost met0: bool) returns (next: nat, r: Result)
      requires done < |ops| && Valid() && HeapTables() && LegalRun(e0, ops)
      requires Progress(done, Abstract(), tabled, metNull) in Reached(e0, t0, met0, ops)
      modifies this
      ensures Valid() && HeapTables() && next == (if r == Done then done + 1 else done)
      ensures Progress(next, Abstract(), tabled, metNull) in Reached(e0, t0, met0, ops)
      ensures StoppedAt(m, Abstract(), ops, next, r)
    {
      ghost var before := Progress(done, Abstract(), tabled, metNull);
      CallIsLegal(e0, t0, met0, ops, before);
      r := Do(ops[done]);
      next := done;
      if r == Done {
        NextFrom(before.tabled, before.e, ops[done]);
        RunAdvances(e0, t0, met0, ops, before, Progress(done + 1, Abstract(), tabled, metNull));
        next := done + 1;
      }
    }

    /** One call; only memory exhaustion separates it from the eager kernel's. */
    method Do(op: Op) returns (r: Result)
      requires Valid() && HeapTables() && Legal(Abstract(), op)
      modifies this
      ensures Valid() && HeapTables() && (r == Done || r == Illegal || r == OutOfMemory)
      ensures r == Illegal <==> EagerStep(old(Abstract()), op) == None
      ensures r == OutOfMemory ==> old(m).pool == {}
      ensures r == Done ==> EagerStep(old(Abstract()), op) == Some(Abstract())
      ensures r == Done ==> tabled == TabledNext(old(tabled), old(Abstract()), op)
      ensures r == Done ==> metNull == (old(metNull) || NullFork(old(tabled), old(Abstract()), op))
      ensures r != Done ==> Abstract() == old(Abstract()) && m == old(m) && tabled == old(tabled) && metNull == old(metNull)
    {
      ghost var e := Abstract();
      KeysOfView(m, procs, leaked);
      match op {
        case Fork(p, c) => r := DoFork(p, c, []);
        case _ => r := PageCall(op);
      }
      if r == Done {
        TabledStep(e, op, old(tabled));
        KeysOfView(m, procs, leaked);
      }
    }

    /** The calls on pages: a store, an allocation, a release. */
    method PageCall(op: Op) returns (r: Result)
      requires Valid() && Legal(Abstract(), op) && !op.Fork?
      modifies this
      ensures Valid() && (r == Done || r == Illegal || r == OutOfMemory)
      ensures r == Illegal <==> EagerStep(old(Abstract()), op) == None
      ensures r == OutOfMemory ==> old(m).pool == {}
      ensures r == Done ==> EagerStep(old(Abstract()), op) == Some(Abstract())
      ensures metNull == old(metNull) && tabled == if r == Done && op.Alloc? then old(tabled) + {op.pid} else old(tabled)
      ensures r != Done ==> m == old(m) && procs == old(procs) && leaked == old(leaked)
    {
      if op.Store? {
        r := StoreByte(op.pid, op.vpn, op.off, op.val);
      } else if op.Alloc? {
        r := AllocPage(op.pid, op.init);
      } else {
        FreePage(op.pid, op.vpn);
        r := Done;
      }
    }
  }

  /** A run that stops early does so with no frame left, or where the eager kernel panics. */
  ghost predicate StoppedAt(m: Mem, e: Eager, ops: seq<Op>, done: nat, r: Result) {
    || r == Done
    || (r == OutOfMemory && m.pool == {} && done < |ops|)
    || (r == Illegal && done < |ops| && Legal(e, ops[done]) && EagerStep(e, ops[done]) == None)
  }

  /** After so many calls: what processes read, the leaf tables, and whether a fork has met the null result. */
  datatype Progress = Progress(done: nat, e: Eager, tabled: set<nat>, met: bool)

  ghost function Reached(e0: Eager, t0: set<nat>, met0: bool, ops: seq<Op>): iset<Progress> {
    iset g: Progress | && g.done <= |ops| && EagerRun(e0, ops[..g.done]) == Some(g.e)
                       && g.tabled == TabledAfter(t0, e0, ops[..g.done])
                       && (g.met <==> met0 || MetBefore(t0, e0, ops, g.done))
  }

  lemma RunStarts(e0: Eager, t0: set<nat>, met0: bool, ops: seq<Op>)
    ensures Progress(0, e0, t0, met0) in Reached(e0, t0, met0, ops)
  {
  }

  lemma RunReached(e0: Eager, t0: set<nat>, met0: bool, ops: seq<Op>, g: Progress)
    requires g in Reached(e0, t0, met0, ops)
    ensures g.done <= |ops| && EagerRun(e0, ops[..g.done]) == Some(g.e)
    ensures g.tabled == TabledAfter(t0, e0, ops[..g.done]) && (g.met <==> met0 || MetBefore(t0, e0, ops, g.done))
  {
  }

  lemma CallIsLegal(e0: Eager, t0: set<nat>, met0: bool, ops: seq<Op>, g: Progress)
    requires LegalRun(e0, ops) && g in Reached(e0, t0, met0, ops) && g.done < |ops|
    ensures Legal(g.e, ops[g.done])
  {
    assert LegalNext(EagerRun(e0, ops[..g.done]), ops[g.done]);
  }

  lemma RunAdvances(e0: Eager, t0: set<nat>, met0: bool, ops: seq<Op>, g: Progress, n: Progress)
    requires g in Reached(e0, t0, met0, ops) && g.done < |ops| && n.done == g.done + 1
    requires EagerNext(Some(g.e), ops[g.done]) == Some(n.e) && n.tabled == TabledBy(g.tabled, Some(g.e), ops[g.done])
    requires n.met == (g.met || NullBy(g.tabled, Some(g.e), ops[g.done]))
    ensures n in Reached(e0, t0, met0, ops)
  {
    RunReached(e0, t0, met0, ops, g);
    EagerAdvances(e0, ops, g.done, Some(g.e), Some(n.e));
    TabledAdvances(t0, e0, ops, g.done, Some(g.e), g.tabled, n.tabled);
    MetAdvances(t0, e0, ops, g.done, Some(g.e), g.tabled);
    RunExtends(e0, t0, met0, ops, n);
  }

  lemma EagerAdvances(e0: Eager, ops: seq<Op>, k: nat, e: Outcome, e': Outcome)
    requires k < |ops| && EagerRun(e0, ops[..k]) == e && EagerNext(e, ops[k]) == e'
    ensures EagerRun(e0, ops[..k + 1]) == e'
  {
    EagerRunOneMore(e0, ops, k);
  }

  lemma TabledAdvances(t0: set<nat>, e0: Eager, ops: seq<Op>, k: nat, e: Outcome, t: set<nat>, t': set<nat>)
    requires k < |ops| && EagerRun(e0, ops[..k]) == e && TabledAfter(t0, e0, ops[..k]) == t && TabledBy(t, e, ops[k]) == t'
    ensures TabledAfter(t0, e0, ops[..k + 1]) == t'
  {
    TabledOneMore(t0, e0, ops, k);
  }

  lemma MetAdvances(t0: set<nat>, e0: Eager, ops: seq<Op>, k: nat, e: Outcome, t: set<nat>)
    requires k < |ops| && EagerRun(e0, ops[..k]) == e && TabledAfter(t0, e0, ops[..k]) == t
    ensures MetBefore(t0, e0, ops, k + 1) <==> MetBefore(t0, e0, ops, k) || NullBy(t, e, ops[k])
  {
    MetOneMore(t0, e0, ops, k);
  }

  lemma NextFrom(tabled: set<nat>, e: Eager, op: Op)
    requires Legal(e, op)
    ensures EagerNext(Some(e), op) == EagerStep(e, op)
    ensures TabledBy(tabled, Some(e), op) == TabledNext(tabled, e, op)
    ensures NullBy(tabled, Some(e), op) <==> NullFork(tabled, e, op)
  {
  }

  lemma RunExtends(e0: Eager, t0: set<nat>, met0: bool, ops: seq<Op>, n: Progress)
    requires n.done <= |ops| && EagerRun(e0, ops[..n.done]) == Some(n.e) && n.tabled == TabledAfter(t0, e0, ops[..n.done])
    requires n.met <==> met0 || MetBefore(t0, e0, ops, n.done)
    ensures n in Reached(e0, t0, met0, ops)
  {
  }

  lemma MetOneMore(t0: set<nat>, e0: Eager, ops: seq<Op>, k: nat)
    ensures MetBefore(t0, e0, ops, k + 1) <==> MetBefore(t0, e0, ops, k) || NullAt(t0, e0, ops, k)
  {
  }

  lemma KeysOfView(m: Mem, procs: map<nat, Proc>, leaked: set<nat>)
    requires Good(m, procs, leaked)
    ensures View(m, procs, leaked).mem.Keys == m.ptes.Keys
    ensures Layout(View(m, procs, leaked).mem.Keys, View(m, procs, leaked).procs)
  {
    GoodReads(m, procs, leaked);
    ViewKeys(m, leaked);
  }

  /** The eager kernel after the calls, or None once one of them has panicked. */
  ghost function EagerRun(e: Eager, ops: seq<Op>): (r: Outcome)
    decreases |ops|
  {
    if ops == [] then Some(e) else EagerNext(EagerRun(e, ops[..|ops| - 1]), ops[|ops| - 1])
  }

  ghost function EagerNext(e: Outcome, op: Op): (r: Outcome) {
    if e.Some? && Legal(e.state, op) then EagerStep(e.state, op) else None
  }

  /** Every call is legal where the eager kernel stands when it is made. */
  ghost predicate LegalRun(e: Eager, ops: seq<Op>) {
    forall k | 0 <= k < |ops| :: LegalNext(EagerRun(e, ops[..k]), ops[k])
  }

  ghost predicate LegalNext(e: Outcome, op: Op) {
    e.Some? ==> Legal(e.state, op)
  }

  lemma EagerRunOneMore(e: Eager, ops: seq<Op>, k: nat)
    requires k < |ops|
    ensures EagerRun(e, ops[..k + 1]) == EagerNext(EagerRun(e, ops[..k]), ops[k])
  {
    assert ops[..k + 1][..k] == ops[..k];
  }

  /** The processes with a heap leaf table after the calls. */
  ghost function TabledAfter(tabled: set<nat>, e: Eager, ops: seq<Op>): (r: set<nat>)
    decreases |ops|
  {
    if ops == [] then tabled
    else
      var init := ops[..|ops| - 1];
      TabledBy(TabledAfter(tabled, e, init), EagerRun(e, init), ops[|ops| - 1])
  }

  ghost function TabledBy(tabled: set<nat>, e: Outcome, op: Op): (r: set<nat>) {
    if e.Some? && Legal(e.state, op) then TabledNext(tabled, e.state, op) else tabled
  }

  /** Call k is a fork that meets the null result. */
  ghost predicate NullAt(tabled: set<nat>, e: Eager, ops: seq<Op>, k: nat) {
    k < |ops| && NullBy(TabledAfter(tabled, e, ops[..k]), EagerRun(e, ops[..k]), ops[k])
  }

  /** One of the first n calls is. */
  ghost predicate MetBefore(tabled: set<nat>, e: Eager, ops: seq<Op>, n: nat) {
    AnyBelow((k: nat) => NullAt(tabled, e, ops, k), n)
  }

  ghost predicate AnyBelow(q: nat -> bool, n: nat) {
    n > 0 && (AnyBelow(q, n - 1) || q(n - 1))
  }

  lemma {:induction false} AnyBelowIff(q: nat -> bool, n: nat)
    ensures AnyBelow(q, n) <==> exists k :: 0 <= k < n && q(k)
  {
    if n > 0 {
      AnyBelowIff(q, n - 1);
    }
  }

  ghost predicate NullBy(tabled: set<nat>, e: Outcome, op: Op) {
    e.Some? && Legal(e.state, op) && NullFork(tabled, e.state, op)
  }

  lemma TabledOneMore(tabled: set<nat>, e: Eager, ops: seq<Op>, k: nat)
    requires k < |ops|
    ensures TabledAfter(tabled, e, ops[..k + 1]) == TabledBy(TabledAfter(tabled, e, ops[..k]), EagerRun(e, ops[..k]), ops[k])
  {
    assert ops[..k + 1][..k] == ops[..k];
  }

  lemma HeapPageMore(keys: set<Key>, p: nat, n: nat)
    ensures HasHeapPage(keys, p, n + 1) <==> HasHeapPage(keys, p, n) || Key(p, HEAP + n) in keys
  {
  }

  /** The kernel as it boots: one process with a stack page. */
  ghost function Booted(stack: Page): (e: Eager) {
    Eager(map[Key(0, STACK) := stack], map[0 := Proc(HEAP, [], 0)])
  }

  /**
   The null result is met: a page allocated and freed, a child forked, and the child forked in turn.
   The child has inherited a page count of 1 and its only heap page is reclaimed, so nothing was shared.
   */
  lemma ForkMeetsNull(stack: Page, init: Page)
    ensures var ops := [Alloc(0, init), Free(0, HEAP), Fork(0, 1), Fork(1, 2)];
            LegalRun(Booted(stack), ops) && NullAt({}, Booted(stack), ops, 3)
  {
    var ops := [Alloc(0, init), Free(0, HEAP), Fork(0, 1), Fork(1, 2)];
    var e0 := Booted(stack);
    var e1 := Eager(e0.mem[Key(0, HEAP) := init], map[0 := Proc(HEAP + 1, [], 1)]);
    var e2 := Eager(e0.mem, map[0 := Proc(HEAP + 1, [HEAP], 1)]);
    var e3 := EagerFork(e2, 0, 1);
    RunStarts(e0, {}, false, ops);
    AllocFromBoot(e0, e1, stack, init);
    OneCall(e0, ops, Progress(0, e0, {}, false), Progress(1, e1, {0}, false));
    FreeToBoot(e0, e1, e2, stack, init);
    OneCall(e0, ops, Progress(1, e1, {0}, false), Progress(2, e2, {0}, false));
    assert !HasHeapPage(e2.mem.Keys, 0, 1);
    OneCall(e0, ops, Progress(2, e2, {0}, false), Progress(3, e3, {0}, false));
    LastCall(e0, ops, Progress(3, e3, {0}, false));
    forall k | 0 <= k < |ops|
      ensures LegalNext(EagerRun(e0, ops[..k]), ops[k])
    {
      LegalCall(e0, ops, if k == 0 then Progress(0, e0, {}, false) else if k == 1 then Progress(1, e1, {0}, false)
                         else if k == 2 then Progress(2, e2, {0}, false) else Progress(3, e3, {0}, false));
    }
  }

  lemma OneCall(e0: Eager, ops: seq<Op>, g: Progress, n: Progress)
    requires g in Reached(e0, {}, false, ops) && g.done < |ops| && Legal(g.e, ops[g.done]) && n.done == g.done + 1
    requires EagerStep(g.e, ops[g.done]) == Some(n.e) && n.tabled == TabledNext(g.tabled, g.e, ops[g.done])
    requires !g.met && !n.met && !NullFork(g.tabled, g.e, ops[g.done])
    ensures n in Reached(e0, {}, false, ops)
  {
    NextFrom(g.tabled, g.e, ops[g.done]);
    RunAdvances(e0, {}, false, ops, g, n);
  }

  lemma LegalCall(e0: Eager, ops: seq<Op>, g: Progress)
    requires g in Reached(e0, {}, false, ops) && g.done < |ops| && Legal(g.e, ops[g.done])
    ensures LegalNext(EagerRun(e0, ops[..g.done]), ops[g.done])
  {
    RunReached(e0, {}, false, ops, g);
  }

  lemma LastCall(e0: Eager, ops: seq<Op>, g: Progress)
    requires g in Reached(e0, {}, false, ops) && g.done < |ops| && Legal(g.e, ops[g.done])
    requires NullFork(g.tabled, g.e, ops[g.done])
    ensures NullAt({}, e0, ops, g.done)
  {
    RunReached(e0, {}, false, ops, g);
    NextFrom(g.tabled, g.e, ops[g.done]);
  }

  lemma AllocFromBoot(e0: Eager, e1: Eager, stack: Page, init: Page)
    requires e0 == Booted(stack) && e1 == Eager(e0.mem[Key(0, HEAP) := init], map[0 := Proc(HEAP + 1, [], 1)])
    ensures Legal(e0, Alloc(0, init)) && EagerStep(e0, Alloc(0, init)) == Some(e1)
  {
    assert e0.procs[0 := Proc(HEAP + 1, [], 1)] == e1.procs;
  }

  lemma FreeToBoot(e0: Eager, e1: Eager, e2: Eager, stack: Page, init: Page)
    requires e0 == Booted(stack) && e1 == Eager(e0.mem[Key(0, HEAP) := init], map[0 := Proc(HEAP + 1, [], 1)])
    requires e2 == Eager(e0.mem, map[0 := Proc(HEAP + 1, [HEAP], 1)])
    ensures Legal(e1, Free(0, HEAP)) && EagerStep(e1, Free(0, HEAP)) == Some(e2)
  {
    assert e1.mem - {Key(0, HEAP)} == e0.mem;
    assert [] + [HEAP] == [HEAP];
    assert e1.procs[0 := Proc(HEAP + 1, [HEAP], 1)] == e2.procs;
  }

  // ---------------------------------------------------------------- the fork as written

  /**
   As written, do_fork leaves the child's heap page count at 0 while it copies the
   heap manager.  The child itself reads what it should; its own child gets no heap.
   */
  lemma GrandchildLosesHeap(e: Eager, p: nat, c: nat, d: nat, v: nat)
    requires Layout(e.mem.Keys, e.procs) && p in e.procs && c !in e.procs && d !in e.procs && c != d
    requires HEAP <= v < e.procs[p].top && v !in e.procs[p].free
    ensures Key(p, STACK) in e.mem
    ensures var m1 := CowFork(e.mem, p, c, e.procs[p].npages);
            && Key(c, STACK) in m1
            && Key(c, v) in m1 && m1[Key(c, v)] == e.mem[Key(p, v)]
            && Key(d, v) !in CowFork(m1, c, d, 0)
  {
    assert Key(p, v) in e.mem.Keys && Key(p, STACK) in e.mem.Keys;
    assert Key(d, v) !in e.mem.Keys;
    CowForkAt(e.mem, p, c, e.procs[p].npages, Key(c, v));
    CowForkAt(e.mem, p, c, e.procs[p].npages, Key(c, STACK));
    CowForkAt(e.mem, p, c, e.procs[p].npages, Key(d, v));
    var m1 := CowFork(e.mem, p, c, e.procs[p].npages);
    CowForkAt(m1, c, d, 0, Key(d, v));
  }
}
