/**
 The scheduler of kernel/sched.c with the parts of kernel/process.c and
 kernel/syscall.c that feed it: the process pool, the ready queue threaded through
 queue_next, fork and exit.  Links are process numbers, -1 for NULL.
 */
module Scheduler {
  import opened Collections

  const NPROC: nat := 32
  const NULL: int := -1

  datatype Status = FREE | READY | RUNNING | BLOCKED | ZOMBIE

  datatype Op = Fork | Exit

  datatype Outcome = Running | Shutdown | NoFreeProcess | NotHandled | NotReady

  // ---------------------------------------------------------------- the queue as a chain of links

  ghost function After(q: seq<nat>, i: int): (p: int)
    requires -1 <= i < |q|
  {
    if i + 1 < |q| then q[i + 1] else NULL
  }

  /** Following links from head visits q in order and stops at NULL. */
  ghost predicate Chain(next: seq<int>, head: int, q: seq<nat>) {
    && head == After(q, -1)
    && (forall i | 0 <= i < |q| :: q[i] < |next|)
    && (forall i {:trigger next[q[i]]} | 0 <= i < |q| :: next[q[i]] == After(q, i))
  }

  /** Linking p behind the last element. */
  lemma ChainAppend(next: seq<int>, head: int, q: seq<nat>, p: nat)
    requires Chain(next, head, q) && Distinct(q) && p !in q && p < |next|
    ensures q != [] ==> Chain(next[q[|q| - 1] := p][p := NULL], head, q + [p])
    ensures q == [] ==> Chain(next[p := NULL], p, [p])
    ensures Distinct(q + [p])
  {
    if q != [] {
      var next' := next[q[|q| - 1] := p][p := NULL];
      var r := q + [p];
      forall i | 0 <= i < |r|
        ensures next'[r[i]] == After(r, i)
      {
        if i < |q| - 1 {
          assert next[q[i]] == After(q, i);
        }
      }
    }
  }

  lemma ChainTail(next: seq<int>, head: int, q: seq<nat>)
    requires Chain(next, head, q) && q != []
    ensures Chain(next, next[q[0]], q[1..])
  {
    var r := q[1..];
    assert next[q[0]] == After(q, 0);
    forall i | 0 <= i < |r|
      ensures next[r[i]] == After(r, i)
    {
      assert next[q[i + 1]] == After(q, i + 1);
    }
  }

  // ---------------------------------------------------------------- statuses

  /** READY exactly when queued; at most the current process runs; nothing blocks. */
  ghost predicate StatusOk(status: seq<Status>, q: seq<nat>, current: int) {
    && (forall p | 0 <= p < |status| :: status[p] == READY <==> p in q)
    && (forall p | 0 <= p < |status| :: status[p] == RUNNING <==> p == current)
    && (forall p | 0 <= p < |status| :: status[p] != BLOCKED)
  }

  /** Every process ever inserted is queued or was dispatched, in insertion order, and is not FREE again. */
  ghost predicate HistoryOk(status: seq<Status>, inserted: seq<nat>, log: seq<nat>, q: seq<nat>) {
    && inserted == log + q && Distinct(inserted)
    && (forall p | 0 <= p < |status| :: p in inserted <==> status[p] != FREE)
    && (forall i | 0 <= i < |inserted| :: inserted[i] < |status|)
  }

  lemma {:induction false} DistinctCovers(q: seq<nat>, n: nat)
    requires Distinct(q) && forall p | 0 <= p < n :: p in q
    ensures |q| >= n
    decreases n
  {
    if n > 0 {
      assert n - 1 in q;
      var k :| 0 <= k < |q| && q[k] == n - 1;
      var rest := q[..k] + q[k + 1..];
      forall p | 0 <= p < n - 1
        ensures p in rest
      {
        assert p in q;
        var i :| 0 <= i < |q| && q[i] == p;
        assert rest[if i < k then i else i - 1] == p;
      }
      DistinctCovers(rest, n - 1);
    }
  }

  // ---------------------------------------------------------------- what a run must do

  /**
   The outcome of a sequence of calls by whichever process is current, from the number
   of processes that have not exited and the number of pool entries used.
   */
  function Expected(ops: seq<Op>, live: nat, used: nat): (r: Outcome) {
    if ops == [] then Running
    else match ops[0]
         case Fork => if used >= NPROC then NoFreeProcess else Expected(ops[1..], live + 1, used + 1)
         case Exit => if live <= 1 then Shutdown else Expected(ops[1..], live - 1, used)
  }

  function Count(ops: seq<Op>, op: Op): (n: nat) {
    if ops == [] then 0 else Count(ops[1..], op) + if ops[0] == op then 1 else 0
  }

  /** If every process exits and the pool suffices, the run ends in shutdown. */
  lemma {:induction false} AllExitShutsDown(ops: seq<Op>, live: nat, used: nat)
    requires Count(ops, Exit) >= live + Count(ops, Fork) && live >= 1 && used + Count(ops, Fork) <= NPROC
    ensures Expected(ops, live, used) == Shutdown
    decreases |ops|
  {
    if ops[0] == Fork {
      AllExitShutsDown(ops[1..], live + 1, used + 1);
    } else if live > 1 {
      AllExitShutsDown(ops[1..], live - 1, used);
    }
  }

  /** ... and shutdown comes no sooner than the last exit. */
  lemma {:induction false} ShutdownNeedsAllExits(ops: seq<Op>, live: nat, used: nat)
    requires Expected(ops, live, used) == Shutdown && live >= 1
    ensures exists k :: 0 < k <= |ops| && Count(ops[..k], Exit) == live + Count(ops[..k], Fork)
    decreases |ops|
  {
    if ops[0] == Exit && live == 1 {
      assert ops[..1] == [Exit];
      assert Count(ops[..1][1..], Exit) == 0 && Count(ops[..1][1..], Fork) == 0;
      assert Count(ops[..1], Exit) == live + Count(ops[..1], Fork);
    } else {
      var live' := if ops[0] == Fork then live + 1 else live - 1;
      ShutdownNeedsAllExits(ops[1..], live', if ops[0] == Fork then used + 1 else used);
      var k :| 0 < k <= |ops[1..]| && Count(ops[1..][..k], Exit) == live' + Count(ops[1..][..k], Fork);
      assert ops[..k + 1][1..] == ops[1..][..k];
      assert Count(ops[..k + 1], Exit) == live + Count(ops[..k + 1], Fork);
    }
  }

  // ---------------------------------------------------------------- the scheduler

  class Kernel {
    const status: array<Status>
    const queueNext: array<int>
    var head: int
    var current: int
    ghost var queue: seq<nat>
    /** Processes in the order inserted, and in the order dispatched. */
    ghost var inserted: seq<nat>
    ghost var log: seq<nat>

    ghost predicate QueueOk()
      reads this, queueNext
    {
      queueNext.Length == NPROC && Chain(queueNext[..], head, queue) && Distinct(queue)
    }

    ghost predicate Valid()
      reads this, status, queueNext
    {
      && status.Length == NPROC && QueueOk() && (current == NULL || 0 <= current < NPROC)
      && StatusOk(status[..], queue, current) && HistoryOk(status[..], inserted, log, queue)
    }

    /** init_proc_pool: every process FREE, the queue empty, nothing current. */
    constructor ()
      ensures Valid() && queue == inserted == log == [] && current == NULL && fresh(status) && fresh(queueNext)
    {
      status := new Status[NPROC](_ => FREE);
      queueNext := new int[NPROC](_ => 0);
      head, current := NULL, NULL;
      queue, inserted, log := [], [], [];
    }

    /** The loop of insert_to_ready_queue: the last element, or the fact that proc is queued. */
    method FindLast(proc: nat) returns (found: bool, last: int)
      requires QueueOk() && head != NULL
      ensures found <==> proc in queue
      ensures !found ==> queue != [] && last == queue[|queue| - 1]
    {
      ghost var i := 0;
      last := head;
      while queueNext[last] != NULL
        invariant 0 <= i < |queue| && last == queue[i] && proc !in queue[..i]
        decreases |queue| - i
      {
        assert queueNext[..][queue[i]] == After(queue, i);
        if last == proc {
          return true, last;
        }
        assert queue[..i + 1] == queue[..i] + [queue[i]];
        last, i := queueNext[last], i + 1;
      }
      assert queueNext[..][queue[i]] == After(queue, i);
      assert queue == queue[..i] + [queue[i]];
      found := last == proc;
    }

    /** insert_to_ready_queue: appended at the end, unless it is queued already. */
    method Insert(proc: nat)
      requires QueueOk() && status.Length == NPROC && proc < NPROC
      modifies this`head, this`queue, this`inserted, queueNext, status
      ensures QueueOk()
      ensures proc in old(queue) ==> queue == old(queue) && status[..] == old(status[..]) && inserted == old(inserted)
      ensures proc !in old(queue) ==> queue == old(queue) + [proc] && status[..] == old(status[..])[proc := READY]
                                      && inserted == old(inserted) + [proc]
    {
      ghost var n0 := queueNext[..];
      if head == NULL {
        ChainAppend(n0, head, queue, proc);
        status[proc] := READY;
        queueNext[proc] := NULL;
        head := proc;
        queue, inserted := queue + [proc], inserted + [proc];
        assert queueNext[..] == n0[proc := NULL];
        return;
      }
      var found, last := FindLast(proc);
      if found {
        return;
      }
      ChainAppend(n0, head, queue, proc);
      queueNext[last] := proc;
      status[proc] := READY;
      queueNext[proc] := NULL;
      queue, inserted := queue + [proc], inserted + [proc];
      assert queueNext[..] == n0[last := proc][proc := NULL];
    }

    /** schedule: with nothing RUNNING, the front of the queue runs; an empty queue shuts down. */
    method Schedule() returns (r: Outcome)
      requires status.Length == NPROC && QueueOk()
      requires StatusOk(status[..], queue, NULL) && HistoryOk(status[..], inserted, log, queue)
      modifies this`head, this`current, this`queue, this`log, status
      ensures inserted == old(inserted)
      ensures old(queue) == [] ==> r == Shutdown && queue == [] && log == old(log) && status[..] == old(status[..])
      ensures old(queue) != [] ==> r == Running && Valid() && current == old(queue)[0]
      ensures old(queue) != [] ==> queue == old(queue)[1..] && log == old(log) + [old(queue)[0]]
    {
      if head == NULL {
        var shutdown := AllEnded();
        return if shutdown then Shutdown else NotHandled;
      }
      FrontIsReady();
      current := head;
      if status[current] != READY {
        return NotReady;
      }
      head := queueNext[head];
      status[current] := RUNNING;
      log := log + [queue[0]];
      queue := queue[1..];
      DispatchKeeps(old(status[..]), status[..], inserted, old(log), old(queue));
      return Running;
    }

    /** The scan over the pool: every process FREE or ZOMBIE. */
    method AllEnded() returns (ended: bool)
      requires status.Length == NPROC
      ensures ended <==> forall p | 0 <= p < NPROC :: status[p] == FREE || status[p] == ZOMBIE
    {
      ended := true;
      for i := 0 to NPROC
        invariant ended <==> forall p | 0 <= p < i :: status[p] == FREE || status[p] == ZOMBIE
      {
        if status[i] != FREE && status[i] != ZOMBIE {
          ended := false;
        }
      }
    }

    lemma FrontIsReady()
      requires status.Length == NPROC && QueueOk() && StatusOk(status[..], queue, NULL) && queue != []
      ensures head == queue[0] < NPROC && status[head] == READY && Chain(queueNext[..], queueNext[head], queue[1..])
    {
      assert queue[0] in queue && status[..][queue[0]] == READY;
      ChainTail(queueNext[..], head, queue);
    }

    /** sys_user_exit: the current process becomes a zombie and another is scheduled. */
    method ExitCurrent() returns (r: Outcome)
      requires Valid() && current != NULL
      modifies this`head, this`current, this`queue, this`log, status
      ensures inserted == old(inserted)
      ensures old(queue) == [] ==> r == Shutdown && log == old(log) &&
                                   forall p | 0 <= p < NPROC :: status[p] == FREE || status[p] == ZOMBIE
      ensures old(queue) != [] ==> r == Running && Valid() && current != NULL
      ensures old(queue) != [] ==> queue == old(queue)[1..] && log == old(log) + [old(queue)[0]]
    {
      status[current] := ZOMBIE;
      assert StatusOk(status[..], queue, NULL);
      assert HistoryOk(status[..], inserted, log, queue);
      ghost var st := status[..];
      r := Schedule();
      if r == Shutdown {
        assert forall p | 0 <= p < NPROC :: st[p] == READY <==> p in [];
      }
    }

    /** alloc_process: the first FREE entry of the pool. */
    method AllocProcess() returns (found: bool, p: nat)
      requires Valid()
      ensures found ==> p < NPROC && status[p] == FREE && p !in inserted && forall q | 0 <= q < p :: status[q] != FREE
      ensures found <==> |inserted| < NPROC
    {
      p := 0;
      while p < NPROC
        invariant p <= NPROC && forall i | 0 <= i < p :: status[i] != FREE
      {
        if status[p] == FREE {
          FreeMeansRoom(p);
          return true, p;
        }
        p := p + 1;
      }
      assert forall i | 0 <= i < NPROC :: status[..][i] != FREE;
      DistinctCovers(inserted, NPROC);
      return false, 0;
    }

    lemma FreeMeansRoom(p: nat)
      requires Valid() && p < NPROC && status[p] == FREE
      ensures p !in inserted && |inserted| < NPROC
    {
      assert status[..][p] == FREE;
      DistinctInRange(inserted + [p], 0, NPROC);
    }

    /** sys_user_fork, as far as the scheduler sees it: a child READY at the end of the queue. */
    method ForkCurrent() returns (r: Outcome)
      requires Valid() && current != NULL
      modifies this`head, this`queue, this`inserted, queueNext, status
      ensures Valid() && current == old(current) && log == old(log)
      ensures r == if |old(inserted)| < NPROC then Running else NoFreeProcess
      ensures r == Running ==> exists child: nat :: child !in old(inserted) && queue == old(queue) + [child]
      ensures |inserted| == |old(inserted)| + if r == Running then 1 else 0
      ensures r != Running ==> queue == old(queue) && inserted == old(inserted)
    {
      var found, child := AllocProcess();
      if !found {
        return NoFreeProcess;
      }
      assert child !in queue;
      status[child] := READY;
      Insert(child);
      InsertKeepsHistory(old(status[..]), status[..], old(inserted), log, old(queue), child, current);
      return Running;
    }

    /** s_start: the first process is inserted and scheduled. */
    method Boot()
      requires Valid() && inserted == [] && current == NULL
      modifies this, queueNext, status
      ensures Valid() && current != NULL && queue == [] && |inserted| == 1 && log == inserted
    {
      var found, first := AllocProcess();
      Insert(first);
      InsertKeepsHistory(old(status[..]), status[..], [], log, [], first, NULL);
      var _ := Schedule();
    }

    /**
     Any run of forks and exits by the current process.  It ends as Expected says, so
     neither the READY assertion nor the "Not handled" panic is ever reached; dispatch
     order is insertion order and no process is dispatched twice.
     */
    method Run(ops: seq<Op>) returns (r: Outcome)
      requires Valid() && current != NULL
      modifies this, queueNext, status
      ensures r == Expected(ops, |old(queue)| + 1, |old(inserted)|)
      ensures r == Running || r == NoFreeProcess ==> Valid() && current != NULL
      ensures log <= inserted && old(inserted) <= inserted && Distinct(inserted) && |log| <= NPROC
      ensures r == Shutdown ==> log == inserted && forall p | 0 <= p < NPROC :: status[p] == FREE || status[p] == ZOMBIE
    {
      var i := 0;
      while i < |ops|
        invariant i <= |ops| && Valid() && current != NULL && old(inserted) <= inserted
        invariant Expected(ops[i..], |queue| + 1, |inserted|) == Expected(ops, |old(queue)| + 1, |old(inserted)|)
      {
        assert ops[i..][1..] == ops[i + 1..];
        DistinctInRange(inserted, 0, NPROC);
        if ops[i] == Fork {
          r := ForkCurrent();
        } else {
          r := ExitCurrent();
        }
        if r != Running {
          return;
        }
        i := i + 1;
      }
      DistinctInRange(inserted, 0, NPROC);
      r := Running;
    }
  }

  /** The front of the queue made RUNNING keeps statuses and history in step. */
  lemma DispatchKeeps(before: seq<Status>, after: seq<Status>, inserted: seq<nat>, log: seq<nat>, q: seq<nat>)
    requires StatusOk(before, q, NULL) && HistoryOk(before, inserted, log, q) && Distinct(q)
    requires q != [] && q[0] < |before| && after == before[q[0] := RUNNING]
    ensures StatusOk(after, q[1..], q[0]) && HistoryOk(after, inserted, log + [q[0]], q[1..]) && Distinct(q[1..])
  {
    assert q == [q[0]] + q[1..];
    assert inserted == (log + [q[0]]) + q[1..];
    assert q[0] in q;
    forall p | 0 <= p < |after|
      ensures p in q[1..] <==> p in q && p != q[0]
    {
    }
  }

  /** A FREE process made READY and appended keeps statuses and history in step. */
  lemma InsertKeepsHistory(before: seq<Status>, after: seq<Status>, inserted: seq<nat>, log: seq<nat>, q: seq<nat>,
                           child: nat, current: int)
    requires StatusOk(before, q, current) && HistoryOk(before, inserted, log, q)
    requires child < |before| && before[child] == FREE && after == before[child := READY]
    ensures StatusOk(after, q + [child], current) && HistoryOk(after, inserted + [child], log, q + [child])
  {
    assert child !in inserted;
    assert inserted + [child] == log + (q + [child]);
  }
}
