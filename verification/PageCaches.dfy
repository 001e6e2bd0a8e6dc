/**
 The per-hart page cache of kernel/pmm.c as an array and a count, and the push at
 objs[++count], where the code departs from its evident intent.
 */
module PageCaches {

  const CACHE_SIZE: nat := 32
  const BATCH: nat := 16
  const WORD_32: nat := 0x1_0000_0000

  class PageCache {
    const objs: array<nat>
    var count: nat

    ghost predicate Valid()
      reads this
    {
      objs.Length == CACHE_SIZE && count <= CACHE_SIZE
    }

    /** The live slots, oldest first. */
    ghost function Contents(): (c: seq<nat>)
      requires Valid()
      reads this, objs
    {
      objs[..count]
    }

    constructor ()
      ensures Valid() && Contents() == [] && fresh(objs)
    {
      objs := new nat[CACHE_SIZE](_ => 0);
      count := 0;
    }

    /** objs[--count]: the slot above the new count keeps the pointer just handed out. */
    method Pop() returns (p: nat)
      requires Valid() && count > 0
      modifies this`count
      ensures Valid() && old(Contents()) == Contents() + [p] && objs[count] == p
    {
      count := count - 1;
      p := objs[count];
    }

    /** The intended push: the page lands in the first slot that is not live. */
    method Push(p: nat)
      requires Valid() && count < CACHE_SIZE
      modifies this`count, objs
      ensures Valid() && Contents() == old(Contents()) + [p]
    {
      objs[count] := p;
      count := count + 1;
    }

    /**
     The push as written, objs[++count] = p, for a pointer p.  In the array the new top slot is the
     stale one below the page.  When 31 slots are live it writes objs[32], which is where `count`
     lies: its new value is the low half of the pointer.
     */
    method PushAsWritten(p: nat) returns (inBounds: bool)
      requires Valid() && count < CACHE_SIZE
      modifies this`count, objs
      ensures inBounds <==> old(count) + 1 < CACHE_SIZE
      ensures !inBounds ==> count == p % WORD_32 && objs[..] == old(objs[..])
      ensures inBounds ==> count == old(count) + 1 && objs[..] == old(objs[..])[count := p]
      ensures inBounds ==> Valid() && Contents() == old(Contents()) + [old(objs[count])]
      ensures inBounds ==> (Contents() == old(Contents()) + [p] <==> old(objs[count]) == p)
    {
      ghost var before := objs[..];
      count := count + 1;
      if count >= CACHE_SIZE {
        count := p % WORD_32;
        return false;
      }
      objs[count] := p;
      assert objs[..count] == before[..count - 1] + [before[count - 1]];
      assert before[..count - 1] + [before[count - 1]] == before[..count - 1] + [p] ==>
          (before[..count - 1] + [before[count - 1]])[count - 1] == (before[..count - 1] + [p])[count - 1];
      return true;
    }

    /**
     Freeing what was just allocated: the written push gets it right, unless the cache
     was full, as pmm_init leaves it; then the pointer lands on `count`.
     */
    method PopThenPushAsWritten() returns (p: nat, inBounds: bool)
      requires Valid() && 0 < count
      modifies this`count, objs
      ensures p == old(objs[count - 1]) && (inBounds <==> old(count) < CACHE_SIZE)
      ensures objs[..] == if inBounds then old(objs[..])[old(count) := p] else old(objs[..])
      ensures count == if inBounds then old(count) else p % WORD_32
      ensures inBounds ==> Valid() && Contents() == old(Contents())
    {
      p := Pop();
      inBounds := PushAsWritten(p);
    }

    /** Two pages allocated and freed last-first: one is lost, the other is in the cache twice. */
    method WrittenPushLosesPages() returns (p: nat, q: nat)
      requires Valid() && 2 <= count < CACHE_SIZE && objs[count - 1] != objs[count - 2]
      modifies this`count, objs
      ensures Valid() && count == old(count) && p != q
      ensures old(Contents()) == old(Contents())[..count - 2] + [q, p]
      ensures Contents() == old(Contents())[..count - 2] + [q, q]
    {
      p := Pop();
      q := Pop();
      var _ := PushAsWritten(q);
      var _ := PushAsWritten(p);
    }
  }
}
