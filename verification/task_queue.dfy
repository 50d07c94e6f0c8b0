/** The task queue of the thread pool: a singly linked list of heap-allocated
    tasks. `last_task` is the head, the task the workers take next, and
    `first_task` is the tail, the task pushed most recently; each task's
    `next` points from the head towards the tail.

    Memory is a map from addresses to tasks: `malloc` is a fresh address
    supplied by the caller, `free` removes the address from the map, and a
    NULL pointer is `None`. The mutex, the condition variables and the
    worker threads are not modelled; every operation is one step taken
    under the lock. */
module TaskQueue {
  import opened Wrappers

  /** The address of a heap-allocated task. */
  type Ref = nat

  /** A non-NULL `task_func`; only its identity matters here. */
  datatype Func = Func(id: nat)

  datatype Task = Task(next: Option<Ref>, func: Func, arg: nat)

  type Heap = map<Ref, Task>

  /** The queue part of `ThreadPool`. */
  datatype Pool = Pool(first: Option<Ref>, last: Option<Ref>, active: bool)

  /** The tasks reachable from `start` along `next` are exactly `q`, in
      order, each allocated and none visited twice. */
  ghost predicate Chain(h: Heap, start: Option<Ref>, q: seq<Ref>)
    decreases |q|
  {
    if q == [] then start == None
    else start == Some(q[0]) && q[0] in h && q[0] !in q[1..] && Chain(h, h[q[0]].next, q[1..])
  }

  /** The pool holds the queue `q`: the head `last_task` starts the chain
      and the tail `first_task` is its final task. */
  ghost predicate Valid(p: Pool, h: Heap, q: seq<Ref>) {
    Chain(h, p.last, q) && p.first == (if q == [] then None else Some(q[|q| - 1]))
  }

  /** `create_task`: NULL for a NULL function, otherwise an unlinked task
      carrying the function and its argument. */
  function CreateTask(func: Option<Func>, arg: nat): (t: Option<Task>)
    ensures t.None? <==> func.None?
    ensures t.Some? ==> t.value.next == None && Some(t.value.func) == func && t.value.arg == arg
  {
    match func
    case None => None
    case Some(f) => Some(Task(None, f, arg))
  }

  /** `destroy_task`: free a task; freeing NULL does nothing. */
  function DestroyTask(h: Heap, task: Option<Ref>): (h': Heap)
    ensures task.None? ==> h' == h
    ensures task.Some? ==> task.value !in h' && forall r :: r in h && Some(r) != task ==> r in h' && h'[r] == h[r]
    ensures h'.Keys <= h.Keys
  {
    match task
    case None => h
    case Some(r) => h - {r}
  }

  /** `init_thread_pool`: with at least one thread the queue starts empty
      and the pool active; with none the call returns at once. */
  function InitPool(p: Pool, numThreads: nat): (p': Pool)
    ensures numThreads < 1 ==> p' == p
    ensures numThreads >= 1 ==> forall h: Heap :: Valid(p', h, []) && p'.active
  {
    if numThreads < 1 then p else Pool(None, None, true)
  }

  /** `push_task`. `addr` is where `malloc` puts the new task. The result
      is the pool, the heap and the returned flag. */
  function PushTask(pool: Option<Pool>, h: Heap, func: Option<Func>, arg: nat, addr: Ref): (r: (Option<Pool>, Heap, bool))
    requires addr !in h
    requires pool.Some? && pool.value.first.Some? ==> pool.value.first.value in h
    ensures !r.2 <==> pool.None? || func.None?
    ensures !r.2 ==> r.0 == pool && r.1 == h
  {
    if pool.None? then (pool, h, false)
    else
      match CreateTask(func, arg)
      case None => (pool, h, false)
      case Some(t) =>
        var p := pool.value;
        var h1 := h[addr := t];
        if p.first.Some? then
          var tail := p.first.value;
          (Some(p.(first := Some(addr))), h1[tail := h[tail].(next := Some(addr))], true)
        else
          (Some(p.(first := Some(addr), last := Some(addr))), h1, true)
  }

  /** `next_task` as written: take the head and advance `last_task` along
      `next`. `first_task` is left alone, also when the queue runs empty. */
  function NextTask(pool: Option<Pool>, h: Heap): (r: (Option<Pool>, Option<Ref>))
    requires pool.Some? && pool.value.last.Some? ==> pool.value.last.value in h
    ensures pool.None? ==> r == (None, None)
    ensures pool.Some? ==> r.0.Some? && r.0.value.first == pool.value.first && r.0.value.active == pool.value.active
    ensures pool.Some? ==> r.1 == pool.value.last
  {
    if pool.None? then (None, None)
    else
      var p := pool.value;
      match p.last
      case None => (pool, None)
      case Some(task) =>
        if h[task].next == None then (Some(p.(last := None)), Some(task))
        else (Some(p.(last := h[task].next)), Some(task))
  }

  /** `next_task` as evidently intended: taking the only task also clears
      `first_task`, so that the queue is empty at both ends. */
  function NextTaskFixed(pool: Option<Pool>, h: Heap): (r: (Option<Pool>, Option<Ref>))
    requires pool.Some? && pool.value.last.Some? ==> pool.value.last.value in h
    ensures pool.None? ==> r == (None, None)
    ensures pool.Some? ==> r.0.Some? && r.0.value.active == pool.value.active
    ensures pool.Some? ==> r.1 == pool.value.last
  {
    if pool.None? then (None, None)
    else
      var p := pool.value;
      match p.last
      case None => (pool, None)
      case Some(task) =>
        if h[task].next == None then (Some(p.(first := None, last := None)), Some(task))
        else (Some(p.(last := h[task].next)), Some(task))
  }

  // ----- Chains -----

  /** A chain ending in `None` is empty. */
  lemma ChainNone(h: Heap, q: seq<Ref>)
    requires Chain(h, None, q)
    ensures q == []
  {
  }

  /** The tasks of a chain are allocated and its final task has no `next`. */
  lemma {:induction false} ChainShape(h: Heap, s: Option<Ref>, q: seq<Ref>)
    requires Chain(h, s, q)
    ensures forall r :: r in q ==> r in h
    ensures q != [] ==> h[q[|q| - 1]].next == None
    decreases |q|
  {
    if q != [] {
      ChainShape(h, h[q[0]].next, q[1..]);
      assert q == [q[0]] + q[1..];
      if q[1..] == [] {
        ChainNone(h, q[1..]);
      }
    }
  }

  /** Linking a fresh task after the final task extends the chain by it. */
  lemma {:induction false} ChainSnoc(h: Heap, s: Option<Ref>, q: seq<Ref>, addr: Ref, t: Task)
    requires Chain(h, s, q) && q != []
    requires addr !in h && t.next == None
    ensures var tail := q[|q| - 1];
            tail in h && Chain(h[addr := t][tail := h[tail].(next := Some(addr))], s, q + [addr])
    decreases |q|
  {
    ChainShape(h, s, q);
    var tail := q[|q| - 1];
    var h2 := h[addr := t][tail := h[tail].(next := Some(addr))];
    assert q[0] in h;
    if |q| == 1 {
      ChainNone(h, q[1..]);
      assert (q + [addr])[1..] == [addr];
      assert Chain(h2, h2[addr].next, []);
    } else {
      ChainSnoc(h, h[q[0]].next, q[1..], addr, t);
      assert q[1..][|q[1..]| - 1] == tail;
      assert q[1..] + [addr] == (q + [addr])[1..];
      assert q[0] != tail by {
        assert tail in q[1..];
      }
    }
  }

  // ----- The queue discipline -----

  /** A push on a valid pool appends the new task at the tail and reports
      success; the head stays unless the queue was empty. */
  lemma PushAppends(p: Pool, h: Heap, q: seq<Ref>, f: Func, arg: nat, addr: Ref)
    requires Valid(p, h, q) && addr !in h
    ensures p.first.Some? ==> p.first.value in h
    ensures var (pool', h', ok) := PushTask(Some(p), h, Some(f), arg, addr);
            ok && pool'.Some? && Valid(pool'.value, h', q + [addr]) && h'[addr] == Task(None, f, arg)
            && pool'.value.active == p.active
            && (q != [] ==> pool'.value.last == p.last)
  {
    ChainShape(h, p.last, q);
    var t := Task(None, f, arg);
    if q == [] {
      var h1 := h[addr := t];
      assert Chain(h1, h1[addr].next, []);
      assert Chain(h1, Some(addr), [addr]);
    } else {
      ChainSnoc(h, p.last, q, addr, t);
      assert addr != q[|q| - 1];
    }
  }

  /** The evident intent of `next_task`: on a valid pool it returns the head
      (NULL when empty) and leaves the rest of the queue valid. */
  lemma NextFixedPops(p: Pool, h: Heap, q: seq<Ref>)
    requires Valid(p, h, q)
    ensures p.last.Some? ==> p.last.value in h
    ensures var (pool', task) := NextTaskFixed(Some(p), h);
            pool'.Some? && task == (if q == [] then None else Some(q[0]))
            && Valid(pool'.value, h, if q == [] then [] else q[1..])
  {
    if q != [] {
      var next := h[q[0]].next;
      if next == None {
        ChainNone(h, q[1..]);
      }
    }
  }

  /** `next_task` as written agrees with the intended pop except when it
      takes the only task: then the queue is empty but `first_task` still
      names the task just taken. */
  lemma NextAsWrittenPops(p: Pool, h: Heap, q: seq<Ref>)
    requires Valid(p, h, q)
    ensures p.last.Some? ==> p.last.value in h
    ensures |q| != 1 ==> NextTask(Some(p), h) == NextTaskFixed(Some(p), h)
    ensures |q| == 1 ==> NextTask(Some(p), h) == (Some(p.(last := None)), Some(q[0]))
                         && p.first == Some(q[0])
  {
    if q != [] {
      assert Chain(h, h[q[0]].next, q[1..]);
      if |q| > 1 {
        assert q[1..][0] == q[1];
      } else {
        assert q[1..] == [];
      }
    }
  }

  /** Draining with the intended `next_task`: n calls, collecting the tasks
      returned. */
  function DrainFixed(p: Pool, h: Heap, q: seq<Ref>, n: nat): (out: seq<Ref>)
    requires Valid(p, h, q)
    ensures |out| == if n < |q| then n else |q|
    decreases n
  {
    NextFixedPops(p, h, q);
    if n == 0 then []
    else
      var (pool', task) := NextTaskFixed(Some(p), h);
      if task.None? then []
      else [task.value] + DrainFixed(pool'.value, h, q[1..], n - 1)
  }

  /** The queue is first in, first out: draining a valid pool returns its
      tasks in push order. */
  lemma {:induction false} DrainInOrder(p: Pool, h: Heap, q: seq<Ref>)
    requires Valid(p, h, q)
    ensures DrainFixed(p, h, q, |q|) == q
    decreases |q|
  {
    if q != [] {
      DrainUnfold(p, h, q);
      var p' := NextTaskFixed(Some(p), h).0.value;
      DrainInOrder(p', h, q[1..]);
      assert q == [q[0]] + q[1..];
    }
  }

  /** One step of the drain: the head, then the drain of the rest. */
  lemma DrainUnfold(p: Pool, h: Heap, q: seq<Ref>)
    requires Valid(p, h, q) && q != []
    ensures p.last.Some? && p.last.value in h
    ensures var pool' := NextTaskFixed(Some(p), h).0;
            && pool'.Some? && Valid(pool'.value, h, q[1..])
            && DrainFixed(p, h, q, |q|) == [q[0]] + DrainFixed(pool'.value, h, q[1..], |q| - 1)
  {
    NextFixedPops(p, h, q);
  }

  // ----- Finding: the stale `first_task` -----

  /** The state `next_task` leaves after taking the only task: a tail but no
      head. */
  predicate Stranded(p: Pool) {
    p.first.Some? && p.last.None?
  }

  /** A stranded pool stays stranded: `next_task` returns NULL, and a push
      links the new task after the stale tail, where no worker reaches it. */
  lemma StrandedAbsorbs(p: Pool, h: Heap, f: Func, arg: nat, addr: Ref)
    requires Stranded(p) && p.first.value in h && addr !in h
    ensures NextTask(Some(p), h) == (Some(p), None)
    ensures var (pool', h', ok) := PushTask(Some(p), h, Some(f), arg, addr);
            ok && pool'.Some? && Stranded(pool'.value) && pool'.value.first == Some(addr)
  {
  }

  /** Push A, take A, push B: the second push reports success, yet the next
      `next_task` returns NULL, so B is never run. */
  lemma LostPushAsWritten()
    ensures var p0 := Pool(None, None, true);
            var (p1, h1, ok1) := PushTask(Some(p0), map[], Some(Func(0)), 0, 1);
            var (p2, a) := NextTask(p1, h1);
            var (p3, h3, ok3) := PushTask(p2, h1, Some(Func(0)), 0, 2);
            var (p4, b) := NextTask(p3, h3);
            ok1 && a == Some(1) && ok3 && b == None && p4.Some? && Stranded(p4.value)
  {
  }

  /** With the intended `next_task` the same sequence runs B. */
  lemma PushAfterDrainFixed()
    ensures var p0 := Pool(None, None, true);
            var (p1, h1, ok1) := PushTask(Some(p0), map[], Some(Func(0)), 0, 1);
            var (p2, a) := NextTaskFixed(p1, h1);
            var (p3, h3, ok3) := PushTask(p2, h1, Some(Func(0)), 0, 2);
            var (p4, b) := NextTaskFixed(p3, h3);
            ok1 && a == Some(1) && ok3 && b == Some(2)
  {
  }

  // ----- Teardown -----

  /** The pending-task walk of `destroy_thread_pool`: free every task
      reachable from `last_task`, then clear `last_task` and `active`.
      `q` names the tasks the walk will meet. */
  method DestroyThreadPool(pool: Option<Pool>, h: Heap, ghost q: seq<Ref>) returns (pool': Option<Pool>, h': Heap)
    requires pool.Some? ==> Chain(h, pool.value.last, q)
    ensures pool.None? ==> pool' == pool && h' == h
    ensures pool.Some? ==> pool' == Some(pool.value.(last := None, active := false))
    ensures pool.Some? ==> h' == h - set r | r in q
  {
    if pool.None? {
      return pool, h;
    }
    var p := pool.value;
    var task := p.last;
    h' := h;
    ghost var k := 0;
    while task.Some?
      invariant 0 <= k <= |q|
      invariant Chain(h, task, q[k..])
      invariant h' == h - set r | r in q[..k]
      decreases |q| - k
    {
      assert q[k..][0] == q[k];
      assert q[k] !in q[..k] by {
        ChainSuffixDistinct(h, p.last, q, k);
      }
      var next := h'[task.value].next;
      h' := DestroyTask(h', task);
      assert q[..k + 1] == q[..k] + [q[k]];
      assert q[k + 1..] == q[k..][1..];
      task := next;
      k := k + 1;
    }
    assert q[k..] == [] by {
      ChainNone(h, q[k..]);
    }
    assert q[..k] == q;
    pool' := Some(p.(last := None, active := false));
  }

  /** The tasks of a chain are distinct: the one at position k is not among
      those before it. */
  lemma {:induction false} ChainSuffixDistinct(h: Heap, s: Option<Ref>, q: seq<Ref>, k: nat)
    requires Chain(h, s, q) && k < |q|
    ensures q[k] !in q[..k]
    decreases |q|
  {
    if k > 0 {
      ChainSuffixDistinct(h, h[q[0]].next, q[1..], k - 1);
      assert q[1..][..k - 1] == q[1..k];
      assert q[..k] == [q[0]] + q[1..k];
      assert q[k] in q[1..];
    }
  }
}
