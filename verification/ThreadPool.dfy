/** The code of src/thread_pool.c under the lock, on ring buffers, against its meaning on queues. */
module ThreadPool {
  import opened RingBuffer
  import opened PoolSpec
  import PoolRuns

  const STD_BUFFER_SIZE: nat := 128

  /** What a worker does at the top of its loop; leaving, it wakes all others. */
  datatype Action = Run(task: Task) | Leave | Sleep

  /** What is sent on the condition variable. */
  datatype Wakeup = NoWakeup | One | All

  class Pool {
    const high: Ring
    const medium: Ring
    const blockingTasks: Ring
    const low: Ring
    const threads: nat
    const maxBlocking: nat
    const pattern: string
    var rr: nat
    var active: nat
    var blocking: nat
    var shutdown: bool

    /** The guarded fields as tc_thread_pool_init() sets them. */
    constructor (threads: nat, maxBlocking: nat, pattern: string)
      requires |pattern| >= 1 && forall i :: 0 <= i < |pattern| ==> 'A' <= pattern[i] <= 'D'
      ensures Valid() && Setup().caps == [64, 128, 128, 256]
      ensures this.threads == threads && this.maxBlocking == maxBlocking && this.pattern == pattern
      ensures Abs() == Core([[], [], [], []], 0, 0, 0, false)
    {
      hide Ring.Contents;
      high := new Ring(STD_BUFFER_SIZE / 2);
      medium := new Ring(STD_BUFFER_SIZE);
      blockingTasks := new Ring(STD_BUFFER_SIZE);
      low := new Ring(2 * STD_BUFFER_SIZE);
      this.threads, this.maxBlocking, this.pattern := threads, maxBlocking, pattern;
      rr, active, blocking, shutdown := 0, 0, 0, false;
    }

    /** task_prio_buffer[i] */
    function RingAt(i: nat): Ring
      requires i < PRIORITIES
    {
      if i == 0 then high else if i == 1 then medium else if i == 2 then blockingTasks else low
    }

    ghost function Parts(): set<object> {
      {high, medium, blockingTasks, low, high.buffer, medium.buffer, blockingTasks.buffer, low.buffer}
    }

    ghost function Setup(): Params {
      Params([high.buffer.Length, medium.buffer.Length, blockingTasks.buffer.Length, low.buffer.Length], threads,
        maxBlocking, pattern)
    }

    ghost predicate Apart() {
      && high != medium && high != blockingTasks && high != low && medium != blockingTasks && medium != low &&
        blockingTasks != low
      && high.buffer != medium.buffer && high.buffer != blockingTasks.buffer && high.buffer != low.buffer
      && medium.buffer != blockingTasks.buffer && medium.buffer != low.buffer && blockingTasks.buffer != low.buffer
    }

    ghost predicate Shape()
      reads this, Parts()
    {
      && ParamsOk(Setup()) && Apart() && high.Valid() && medium.Valid() && blockingTasks.Valid() && low.Valid()
    }

    ghost function Queues(): (q: seq<seq<Task>>)
      reads this, Parts()
      requires Shape()
      ensures |q| == PRIORITIES
    {
      [high.Contents(), medium.Contents(), blockingTasks.Contents(), low.Contents()]
    }

    ghost function Abs(): Core
      reads this, Parts()
      requires Shape()
    {
      Core(Queues(), rr, active, blocking, shutdown)
    }

    ghost predicate Valid()
      reads this, Parts()
    {
      Shape() && CoreOk(Setup(), Abs())
    }

    /** Only ring i has changed. */
    twostate lemma OthersSame(i: nat)
      requires old(Shape()) && Shape() && i < PRIORITIES
      requires forall j: nat :: j < PRIORITIES && j != i ==> unchanged(RingAt(j)) && unchanged(RingAt(j).buffer)
      ensures Queues() == old(Queues())[i := RingAt(i).Contents()]
    {
      assert forall j: nat :: j < PRIORITIES && j != i ==> RingAt(j).Contents() == old(RingAt(j).Contents());
      assert RingAt(0) == high && RingAt(1) == medium && RingAt(2) == blockingTasks && RingAt(3) == low;
    }

    /** buffer_eligible() */
    method BufferEligible(i: nat) returns (b: bool)
      requires Valid() && i < PRIORITIES
      ensures b <==> Eligible(Setup(), Abs(), i)
    {
      var empty := RingAt(i).IsEmpty();
      assert Queues()[i] == RingAt(i).Contents();
      if empty { return false; }
      if i == BLOCKING && blocking >= maxBlocking { return false; }
      b := true;
    }

    /** thread_pool_has_tasks() */
    method HasWork() returns (b: bool)
      requires Valid()
      ensures b <==> HasTasks(Setup(), Abs())
    {
      hide Eligible, CoreOk, ParamsOk;
      ghost var p, c := Setup(), Abs();
      for i := 0 to PRIORITIES
        invariant forall j: nat :: j < i ==> !Eligible(p, c, j)
        modifies {}
      {
        var e := BufferEligible(i);
        if e { return true; }
      }
      b := false;
    }

    /** Stores a task in ring i. */
    method PushTo(i: nat, task: Task) returns (ok: bool)
      requires Shape() && i < PRIORITIES
      modifies RingAt(i)`head, RingAt(i).buffer
      ensures Shape() && (ok <==> |old(Queues())[i]| < RingAt(i).buffer.Length - 1)
      ensures Queues() == if ok then old(Queues())[i := old(Queues())[i] + [task]] else old(Queues())
    {
      hide ParamsOk, Ring.Contents;
      ghost var q := Queues();
      QueueAt(i);
      ok := RingAt(i).Push(task);
      OthersSame(i);
      assert q[i := q[i]] == q;
    }

    lemma QueueAt(i: nat)
      requires Shape() && i < PRIORITIES
      ensures Queues()[i] == RingAt(i).Contents()
    {
    }

    /** Slots that only a continuation may use: one for each thread, or for each blocking task that may run. */
    function Spared(i: nat): nat { if i == 2 then maxBlocking else threads }

    /** After one more task at priority i, more than `spared` slots are free. One slot always stays empty. */
    ghost predicate Roomy(i: nat, spared: nat)
      reads this, Parts()
      requires Shape() && i < 4
    {
      |Queues()[i]| + 1 + spared < RingAt(i).buffer.Length
    }

    /** task_buffer_enqueue() into the buffer of the task's priority. */
    method BufferEnqueue(task: Task, isYield: bool) returns (ok: bool)
      requires Valid() && task.priority < PRIORITIES
      modifies RingAt(task.priority)`head, RingAt(task.priority).buffer
      ensures Valid() && (ok <==> Accepts(Setup(), old(Abs()), task.priority, isYield))
      ensures ok <==> old(Roomy(task.priority, if isYield then 0 else Spared(task.priority)))
      ensures Abs() == if ok then Enqueue(old(Abs()), task) else old(Abs())
      ensures var i := task.priority;
        Queues() == if ok then old(Queues())[i := old(Queues())[i] + [task]] else old(Queues())
    {
      hide ParamsOk, CoreOk;
      var i := task.priority;
      QueueAt(i);
      CapAt(i);
      EnqueueOk(Setup(), Abs(), task);
      var remaining := RingAt(i).Remaining();
      var reserved := if i == BLOCKING then maxBlocking else threads;
      if !isYield && remaining <= reserved { return false; }
      ok := PushTo(i, task);
    }

    lemma CapAt(i: nat)
      requires i < PRIORITIES
      ensures Setup().caps[i] == RingAt(i).buffer.Length
    {
    }

    /** The search of task_pool_dequeue(), from buffer `start` on. */
    method SearchFrom(start: nat) returns (i: nat)
      requires Valid() && start < PRIORITIES
      ensures i == Search(Setup(), Abs(), start, PRIORITIES)
      ensures i < 4 ==> FirstFrom(Setup(), Abs(), start, i)
      ensures i >= 4 ==> !HasTasks(Setup(), Abs())
    {
      hide Eligible, CoreOk, ParamsOk;
      ghost var p, c := Setup(), Abs();
      SearchFirst(p, c, start, PRIORITIES);
      SearchEnds(p, c, start);
      i := start;
      for n := 0 to PRIORITIES
        invariant i < PRIORITIES && Search(p, c, i, PRIORITIES - n) == Search(p, c, start, PRIORITIES)
        modifies {}
      {
        var e := BufferEligible(i);
        if e { return; }
        i := (i + 1) % PRIORITIES;
      }
      i := PRIORITIES;
    }

    /** Takes the oldest task from ring i. */
    method PopFrom(i: nat) returns (task: Task)
      requires Shape() && i < PRIORITIES && Queues()[i] != []
      modifies RingAt(i)`tail
      ensures Shape() && task == old(Queues())[i][0] && Queues() == old(Queues())[i := old(Queues())[i][1..]]
    {
      hide ParamsOk, Ring.Contents;
      QueueAt(i);
      var r := RingAt(i).Pop();
      OthersSame(i);
      task := r.task;
    }

    /** The start of task_pool_dequeue(): the pattern's next letter as a buffer index. */
    method Advance() returns (start: nat)
      requires Valid()
      modifies `rr
      ensures Valid() && start == Turn(Setup(), old(rr)) && start < PRIORITIES
      ensures Abs() == old(Abs()).(rr := NextTurn(Setup(), old(rr)))
    {
      if rr == |pattern| { rr := 0; }
      var letter := pattern[rr];
      rr := rr + 1;
      start := letter as int - 'A' as int;
    }

    /** A worker may take a task of priority i now. */
    ghost predicate Runnable(i: nat)
      reads this, Parts()
      requires Shape() && i < 4
    {
      Queues()[i] != [] && (i == 2 ==> blocking < maxBlocking)
    }

    /** There is a task that a worker may take. */
    ghost predicate Work()
      reads this, Parts()
      requires Shape()
    {
      exists i: nat :: i < 4 && Runnable(i)
    }

    lemma WorkIs()
      requires Shape()
      ensures Work() == HasTasks(Setup(), Abs())
    {
      hide Eligible, Runnable;
      forall i: nat | i < 4 ensures Runnable(i) == Eligible(Setup(), Abs(), i) { RunnableIs(i); }
    }

    lemma RunnableIs(i: nat)
      requires Shape() && i < 4
      ensures Runnable(i) == Eligible(Setup(), Abs(), i)
    {
    }

    /** task_pool_dequeue(): with an eligible task, the one the pattern chooses; the end of the search that
        "should never happen" comes only without one. The priority taken is the first runnable one from the pattern's
        letter on: A, B, C, D and round again. */
    method PoolDequeue() returns (r: Popped)
      requires Valid()
      modifies `rr, high`tail, medium`tail, blockingTasks`tail, low`tail
      ensures Shape()
      ensures old(HasTasks(Setup(), Abs())) ==>
          r == Some(Taken(Setup(), old(Abs()))) &&
            Abs() == Take(Setup(), old(Abs())).(active := active, blocking := blocking)
      ensures !old(HasTasks(Setup(), Abs())) ==> r == NoTask && Queues() == old(Queues())
      ensures r.Some? ==> r.task.priority < 4 && old(Runnable(r.task.priority))
      ensures r.Some? ==> var i := r.task.priority;
        r.task == old(Queues())[i][0] && Queues() == old(Queues())[i := old(Queues())[i][1..]]
      ensures r.Some? ==> var t := pattern[old(rr) % |pattern|] as int - 'A' as int;
        forall u: nat :: u < 4 && old(Runnable(u)) ==>
          (if r.task.priority >= t then r.task.priority - t else r.task.priority + 4 - t) <=
          if u >= t then u - t else u + 4 - t
      ensures rr == old(rr) % |pattern| + 1
    {
      hide Eligible, Search, HasTasks, Turn, NextTurn, ParamsOk, CoreOk, Ring.Contents;
      ghost var p, c := Setup(), Abs();
      ChoiceWhen(p, c);
      TurnIs(p, c);
      forall u: nat | u < 4 ensures Runnable(u) == Eligible(p, c, u) { RunnableIs(u); }
      var start := Advance();
      SearchSame(p, c, Abs(), start, PRIORITIES);
      var i := SearchFrom(start);
      if i == PRIORITIES { return NoTask; }
      var task := PopFrom(i);
      r := Some(task);
    }

    /** thread_pool_worker() at the top of its loop, up to running a task, leaving or waiting. */
    method WorkerLook() returns (a: Action)
      requires Valid()
      modifies `rr, `active, `blocking, high`tail, medium`tail, blockingTasks`tail, low`tail
      ensures Valid()
      ensures a.Run? <==> old(HasTasks(Setup(), Abs()))
      ensures a.Run? ==> a.task == Taken(Setup(), old(Abs())) && Abs() == Take(Setup(), old(Abs()))
      ensures !a.Run? ==> Abs() == old(Abs()) && (a.Leave? <==> shutdown && active == 0)
      ensures a.Run? <==> old(Work())
      ensures a.Run? ==> a.task.priority < 4 && old(Runnable(a.task.priority)) && active == old(active) + 1
      ensures a.Run? ==> blocking == old(blocking) + if a.task.priority == 2 then 1 else 0
      ensures a.Run? ==> var i := a.task.priority;
        a.task == old(Queues())[i][0] && Queues() == old(Queues())[i := old(Queues())[i][1..]]
    {
      hide Eligible, Search, HasTasks, Ring.Contents, CoreOk, ParamsOk, Work;
      WorkIs();
      var work := HasWork();
      if !work {
        return if shutdown && active == 0 then Leave else Sleep;
      }
      var r := PoolDequeue();
      TakenCounts(Setup(), old(Abs()));
      var isBlocking := r.task.priority == BLOCKING;
      active := active + 1;
      if isBlocking { blocking := blocking + 1; }
      a := Run(r.task);
    }

    /** thread_pool_worker() after a task has returned. */
    method WorkerDone(task: Task) returns (wake: Wakeup)
      requires Valid() && active >= 1 && (task.priority == BLOCKING ==> blocking >= 1)
      modifies `active, `blocking
      ensures Valid() && Abs() == PoolRuns.Finished(old(Abs()), task)
      ensures wake.All? <==> shutdown && active == 0 && !HasTasks(Setup(), Abs())
      ensures active == old(active) - 1 && blocking == old(blocking) - if task.priority == 2 then 1 else 0
      ensures wake == if shutdown && active == 0 && !Work() then All else if task.priority == 2 then One else NoWakeup
    {
      hide Eligible, HasTasks, Ring.Contents, Work;
      active := active - 1;
      wake := NoWakeup;
      if task.priority == BLOCKING {
        blocking := blocking - 1;
        wake := One;
      }
      var work := HasWork();
      WorkIs();
      if shutdown && active == 0 && !work { wake := All; }
    }

    /** tc_thread_schedule_new() */
    method ScheduleNew(task: Task) returns (ok: bool, wake: Wakeup)
      requires Valid() && task.priority < PRIORITIES
      modifies RingAt(task.priority)`head, RingAt(task.priority).buffer
      ensures Valid() && (ok <==> !shutdown && Accepts(Setup(), old(Abs()), task.priority, false))
      ensures ok <==> !shutdown && old(Roomy(task.priority, Spared(task.priority)))
      ensures Abs() == (if ok then Enqueue(old(Abs()), task) else old(Abs())) && (ok <==> wake == One)
      ensures var i := task.priority;
        Queues() == if ok then old(Queues())[i := old(Queues())[i] + [task]] else old(Queues())
    {
      hide Ring.Contents, Accepts;
      if shutdown { return false, NoWakeup; }
      ok := BufferEnqueue(task, false);
      if !ok { return false, NoWakeup; }
      wake := One;
    }

    /** tc_thread_schedule_next(): on shutdown the other function takes over; a null function is dropped. The
        requirement is what the reserved slots guarantee, so the assertion holds. */
    method ScheduleNext(next: nat, shutdownTask: nat, arg: nat, priority: nat, generation: int) returns (wake: Wakeup)
      requires Valid() && priority < PRIORITIES && Accepts(Setup(), Abs(), priority, true)
      modifies RingAt(priority)`head, RingAt(priority).buffer
      ensures Valid()
      ensures var func := if shutdown then shutdownTask else next;
        && Abs() == (if func == 0 then old(Abs()) else Enqueue(old(Abs()), Task(func, arg, priority, generation)))
        && (wake == One <==> func != 0)
        && var task, i := Task(func, arg, priority, generation), priority;
           Queues() == if func != 0 then old(Queues())[i := old(Queues())[i] + [task]] else old(Queues())
    {
      hide Ring.Contents, Accepts;
      var func := if shutdown then shutdownTask else next;
      if func == 0 { return NoWakeup; }
      var ok := BufferEnqueue(Task(func, arg, priority, generation), true);
      assert ok;
      wake := One;
    }

    /** tc_thread_schedule_next2(): refused on shutdown and for a null function only. */
    method ScheduleNext2(next: nat, arg: nat, priority: nat, generation: int) returns (ok: bool, wake: Wakeup)
      requires Valid() && priority < PRIORITIES && Accepts(Setup(), Abs(), priority, true)
      modifies RingAt(priority)`head, RingAt(priority).buffer
      ensures Valid() && (ok <==> !shutdown && next != 0)
      ensures Abs() == if ok then Enqueue(old(Abs()), Task(next, arg, priority, generation)) else old(Abs())
      ensures ok <==> wake == One
      ensures var task, i := Task(next, arg, priority, generation), priority;
        Queues() == if ok then old(Queues())[i := old(Queues())[i] + [task]] else old(Queues())
    {
      hide Ring.Contents, Accepts;
      if shutdown { return false, NoWakeup; }
      if next == 0 { return false, NoWakeup; }
      ok := BufferEnqueue(Task(next, arg, priority, generation), true);
      assert ok;
      wake := One;
    }

    /** tc_thread_pool_stop() */
    method Stop() returns (wake: Wakeup)
      requires Valid()
      modifies `shutdown
      ensures Valid() && Abs() == old(Abs()).(shutdown := true) && wake == All
    {
      shutdown := true;
      wake := All;
    }
  }

  /** The letter at the round-robin index. */
  lemma TurnIs(p: Params, c: Core)
    requires ParamsOk(p) && CoreOk(p, c)
    ensures Turn(p, c.rr) == p.pattern[c.rr % |p.pattern|] as int - 'A' as int < 4
    ensures NextTurn(p, c.rr) == c.rr % |p.pattern| + 1
    ensures forall i: nat, k: nat :: i < 4 && k < |c.queues[i]| ==> c.queues[i][k].priority == i
  {
    RoundIndex(c.rr, |p.pattern|);
  }

  lemma RoundIndex(i: nat, n: nat)
    requires i <= n && n >= 1
    ensures i % n == if i == n then 0 else i
  {
  }

  /** The search does not look at the round-robin index. */
  lemma {:induction false} SearchSame(p: Params, c: Core, c': Core, i: nat, n: nat)
    requires |c.queues| == PRIORITIES && c'.queues == c.queues && c'.blocking == c.blocking && i < PRIORITIES
    ensures Search(p, c', i, n) == Search(p, c, i, n)
    decreases n
  {
    if n > 0 { SearchSame(p, c, c', (i + 1) % PRIORITIES, n - 1); }
  }

  lemma SearchEnds(p: Params, c: Core, i: nat)
    requires |c.queues| == PRIORITIES && i < PRIORITIES
    ensures HasTasks(p, c) ==> Search(p, c, i, PRIORITIES) < PRIORITIES
  {
    hide Eligible, Search;
    if t: nat :| t < PRIORITIES && Eligible(p, c, t) { SearchFinds(p, c, i, PRIORITIES, t); }
  }

  /** The search succeeds exactly when some buffer is eligible, and then finds a task. */
  lemma ChoiceWhen(p: Params, c: Core)
    requires ParamsOk(p) && CoreOk(p, c)
    ensures Choice(p, c) <= PRIORITIES && (Choice(p, c) < PRIORITIES <==> HasTasks(p, c))
    ensures Choice(p, c) < PRIORITIES ==> c.queues[Choice(p, c)] != []
  {
    hide Search;
    if HasTasks(p, c) { ChoiceExists(p, c); }
  }

  lemma TakenCounts(p: Params, c: Core)
    requires ParamsOk(p) && CoreOk(p, c) && HasTasks(p, c)
    ensures var t, c' := Taken(p, c), Take(p, c);
      c'.active == c.active + 1 && c'.blocking == c.blocking + (if t.priority == BLOCKING then 1 else 0) &&
        c'.shutdown == c.shutdown
  {
  }

  lemma EnqueueOk(p: Params, c: Core, task: Task)
    requires CoreOk(p, c) && task.priority < PRIORITIES
    ensures CoreOk(p, Enqueue(c, task))
  {
  }
}
