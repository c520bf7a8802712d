/** The thread pool of src/thread_pool.c as a state machine: every section under the lock is one step,
    and waiting on the condition variable may end at any time. */
module PoolRuns {
  import opened RingBuffer
  import opened PoolSpec

  /** Ready: about to look for work; Waiting: on the condition variable; Running: outside the lock, in a
      task that may have scheduled its continuation. */
  datatype Worker = Ready | Waiting | Running(task: Task, continued: bool) | Exited

  /** The guarded fields, the workers, and the tasks accepted and started so far. */
  datatype State = State(core: Core, workers: seq<Worker>, accepted: multiset<Task>, started: multiset<Task>)

  // ----- counting workers -----

  ghost function Count(ws: seq<Worker>, f: Worker -> bool): nat {
    if ws == [] then 0 else Count(ws[..|ws| - 1], f) + if f(ws[|ws| - 1]) then 1 else 0
  }

  lemma {:induction false} CountUpdate(ws: seq<Worker>, i: nat, w: Worker, f: Worker -> bool)
    requires i < |ws|
    ensures Count(ws[i := w], f) == Count(ws, f) - (if f(ws[i]) then 1 else 0) + (if f(w) then 1 else 0)
    decreases |ws|
  {
    var n := |ws| - 1;
    if i == n {
      assert ws[i := w][..n] == ws[..n];
    } else {
      assert ws[i := w][..n] == ws[..n][i := w];
      CountUpdate(ws[..n], i, w, f);
    }
  }

  lemma {:induction false} CountLess(ws: seq<Worker>, f: Worker -> bool, g: Worker -> bool)
    requires forall w :: f(w) ==> g(w)
    ensures Count(ws, f) <= Count(ws, g) <= |ws|
    decreases |ws|
  {
    if ws != [] { CountLess(ws[..|ws| - 1], f, g); }
  }

  /** Some waiting workers are woken. */
  ghost predicate Woken(ws: seq<Worker>, ws': seq<Worker>) {
    |ws| == |ws'| && forall i :: 0 <= i < |ws| ==> ws'[i] == ws[i] || (ws[i].Waiting? && ws'[i].Ready?)
  }

  lemma {:induction false} CountWoken(ws: seq<Worker>, ws': seq<Worker>, f: Worker -> bool)
    requires Woken(ws, ws') && !f(Ready) && !f(Waiting)
    ensures Count(ws', f) == Count(ws, f)
    decreases |ws|
  {
    if ws != [] {
      var n := |ws| - 1;
      assert Woken(ws[..n], ws'[..n]) by {
        assert forall i :: 0 <= i < n ==> ws[..n][i] == ws[i] && ws'[..n][i] == ws'[i];
      }
      CountWoken(ws[..n], ws'[..n], f);
    }
  }

  lemma {:induction false} CountSome(ws: seq<Worker>, f: Worker -> bool, i: nat)
    requires i < |ws| && f(ws[i])
    ensures Count(ws, f) >= 1
    decreases |ws|
  {
    var n := |ws| - 1;
    if i < n {
      assert ws[..n][i] == ws[i];
      CountSome(ws[..n], f, i);
    }
  }

  function IsRunning(): Worker -> bool { (w: Worker) => w.Running? }
  function IsBlocking(): Worker -> bool { (w: Worker) => w.Running? && w.task.priority == BLOCKING }

  /** Running a task of priority i that has not been continued. */
  function IsOpen(i: nat): Worker -> bool { (w: Worker) => w.Running? && !w.continued && w.task.priority == i }

  // ----- steps -----

  ghost predicate SomeWaiting(ws: seq<Worker>) { exists i :: 0 <= i < |ws| && ws[i].Waiting? }

  /** p_cond_variable_signal(): one waiting worker, if there is any. */
  ghost predicate Signalled(ws: seq<Worker>, ws': seq<Worker>) {
    if SomeWaiting(ws) then exists i :: 0 <= i < |ws| && ws[i].Waiting? && ws' == ws[i := Ready] else ws' == ws
  }

  /** p_cond_variable_broadcast() */
  ghost function Broadcast(ws: seq<Worker>): (r: seq<Worker>)
    ensures Woken(ws, r) && !SomeWaiting(r)
  {
    seq(|ws|, i requires 0 <= i < |ws| => if ws[i].Waiting? then Ready else ws[i])
  }

  lemma SignalWakes(ws: seq<Worker>, ws': seq<Worker>)
    requires Signalled(ws, ws')
    ensures Woken(ws, ws')
    ensures SomeWaiting(ws) ==> exists i :: 0 <= i < |ws'| && ws'[i].Ready?
  {
    if SomeWaiting(ws) {
      var i :| 0 <= i < |ws| && ws[i].Waiting? && ws' == ws[i := Ready];
      assert ws'[i].Ready?;
    }
  }

  ghost predicate Shaped(p: Params, s: State) {
    ParamsOk(p) && CoreOk(p, s.core) && |s.workers| == p.threads
  }

  /** thread_pool_worker() from the top of its loop: take a task, exit or wait. */
  ghost predicate Look(p: Params, s: State, w: nat, s': State)
    requires Shaped(p, s)
  {
    && w < |s.workers| && s.workers[w].Ready?
    && if HasTasks(p, s.core) then
         s' == State(Take(p, s.core), s.workers[w := Running(Taken(p, s.core), false)], s.accepted,
                     s.started + multiset{Taken(p, s.core)})
       else if s.core.shutdown && s.core.active == 0 then s' == s.(workers := Broadcast(s.workers)[w := Exited])
       else s' == s.(workers := s.workers[w := Waiting])
  }

  /** The counters after a running task has returned. */
  function Finished(c: Core, task: Task): Core
    requires c.active >= 1 && (task.priority == BLOCKING ==> c.blocking >= 1)
  {
    c.(active := c.active - 1, blocking := c.blocking - if task.priority == BLOCKING then 1 else 0)
  }

  /** thread_pool_worker() after a task: a freed blocking slot wakes one worker, the end of the last task of
      a shutdown all of them. */
  ghost predicate Finish(p: Params, s: State, w: nat, s': State)
    requires Shaped(p, s)
  {
    && w < |s.workers| && s.workers[w].Running?
    && var task := s.workers[w].task;
    && s.core.active >= 1 && (task.priority == BLOCKING ==> s.core.blocking >= 1)
    && var core, ws := Finished(s.core, task), s.workers[w := Ready];
       exists mid :: FreedSlot(task, ws, mid) && s' == s.(core := core, workers := LastOne(p, core, mid))
  }

  ghost predicate FreedSlot(task: Task, ws: seq<Worker>, ws': seq<Worker>) {
    if task.priority == BLOCKING then Signalled(ws, ws') else ws' == ws
  }

  ghost function LastOne(p: Params, c: Core, ws: seq<Worker>): seq<Worker>
    requires |c.queues| == PRIORITIES
  {
    if c.shutdown && c.active == 0 && !HasTasks(p, c) then Broadcast(ws) else ws
  }

  /** The task goes into its queue and one worker is signalled. */
  ghost predicate Queued(s: State, task: Task, s': State)
    requires |s.core.queues| == PRIORITIES
  {
    && task.priority < PRIORITIES && Signalled(s.workers, s'.workers) && s'.core == Enqueue(s.core, task)
    && s'.accepted == s.accepted + multiset{task} && s'.started == s.started
  }

  /** tc_thread_schedule_new(), from any thread: refused on shutdown or without spare room. */
  ghost predicate New(p: Params, s: State, task: Task, s': State)
    requires Shaped(p, s)
  {
    && task.priority < PRIORITIES
    && if s.core.shutdown || !Accepts(p, s.core, task.priority, false) then s' == s else Queued(s, task, s')
  }

  /** tc_thread_schedule_next() and tc_thread_schedule_next2() from a running task that has not continued
      yet, at its own priority. Their assertion is that the task is accepted. */
  ghost predicate Continue(p: Params, s: State, w: nat, task: Task, s': State)
    requires Shaped(p, s)
  {
    && w < |s.workers| && s.workers[w].Running? && !s.workers[w].continued &&
      task.priority == s.workers[w].task.priority
    && task.priority < PRIORITIES && Accepts(p, s.core, task.priority, true)
    && Queued(s.(workers := s.workers[w := s.workers[w].(continued := true)]), task, s')
  }

  /** tc_thread_pool_stop() */
  ghost predicate Stop(s: State, s': State) {
    s' == s.(core := s.core.(shutdown := true), workers := Broadcast(s.workers))
  }

  /** A wait may end without a signal. */
  ghost predicate Wake(s: State, w: nat, s': State) {
    w < |s.workers| && s.workers[w].Waiting? && s' == s.(workers := s.workers[w := Ready])
  }

  datatype Step = LookStep(w: nat) | FinishStep(w: nat) | NewStep(task: Task) | ContinueStep(w: nat, task: Task)
    | StopStep | WakeStep(w: nat)

  ghost predicate Next(p: Params, s: State, step: Step, s': State)
    requires Shaped(p, s)
  {
    match step
    case LookStep(w) => Look(p, s, w, s')
    case FinishStep(w) => Finish(p, s, w, s')
    case NewStep(task) => New(p, s, task, s')
    case ContinueStep(w, task) => Continue(p, s, w, task, s')
    case StopStep => Stop(s, s')
    case WakeStep(w) => Wake(s, w, s')
  }

  ghost predicate Init(p: Params, s: State) {
    && ParamsOk(p) && p.threads >= 1
    && s.core == Core(seq(PRIORITIES, _ => []), 0, 0, 0, false)
    && s.workers == seq(p.threads, _ => Ready) && s.accepted == multiset{} && s.started == multiset{}
  }

  // ----- the invariant -----

  /** The counters are exact and running blocking tasks stay within the cap. */
  ghost predicate Counted(p: Params, s: State) {
    && s.core.active == Count(s.workers, IsRunning()) && s.core.blocking == Count(s.workers, IsBlocking())
    && s.core.blocking <= p.maxBlocking
    && forall w :: 0 <= w < |s.workers| && s.workers[w].Running? ==> s.workers[w].task.priority < PRIORITIES
  }

  /** Every queue has room for the continuations still to come. */
  ghost predicate Roomy(p: Params, s: State)
    requires Shaped(p, s)
  {
    forall i: nat :: i < PRIORITIES ==> Free(p, s.core, i) >= Count(s.workers, IsOpen(i))
  }

  ghost predicate Alert(w: Worker) { w.Ready? || w.Running? }

  /** An eligible task never meets only sleeping workers. */
  ghost predicate Awake(p: Params, s: State)
    requires Shaped(p, s)
  {
    HasTasks(p, s.core) ==> exists w :: 0 <= w < |s.workers| && Alert(s.workers[w])
  }

  /** Nothing left to do in a shutdown: nobody sleeps. */
  ghost predicate Quiet(p: Params, s: State)
    requires Shaped(p, s)
  {
    s.core.shutdown && s.core.active == 0 && !HasTasks(p, s.core) ==> !SomeWaiting(s.workers)
  }

  /** A worker exits only when everything is over. */
  ghost predicate Gone(p: Params, s: State)
    requires Shaped(p, s)
  {
    forall w :: 0 <= w < |s.workers| && s.workers[w].Exited? ==>
      s.core.shutdown && s.core.active == 0 && !HasTasks(p, s.core)
  }

  function QueuedTasks(q: seq<seq<Task>>): multiset<Task>
    requires |q| == PRIORITIES
  {
    multiset(q[0]) + multiset(q[1]) + multiset(q[2]) + multiset(q[3])
  }

  /** Every accepted task is queued or was started, exactly once. */
  ghost predicate Conserved(s: State)
    requires |s.core.queues| == PRIORITIES
  {
    s.accepted == s.started + QueuedTasks(s.core.queues)
  }

  ghost predicate Inv(p: Params, s: State) {
    && Shaped(p, s) && p.threads >= 1
    && Counted(p, s) && Roomy(p, s) && Awake(p, s) && Quiet(p, s) && Gone(p, s) && Conserved(s)
  }

  lemma InitInv(p: Params, s: State)
    requires Init(p, s)
    ensures Inv(p, s)
  {
    NoneCounted(s.workers, IsRunning());
    NoneCounted(s.workers, IsBlocking());
    forall i: nat | i < PRIORITIES ensures Free(p, s.core, i) >= Count(s.workers, IsOpen(i)) {
      NoneCounted(s.workers, IsOpen(i));
    }
    assert Alert(s.workers[0]);
  }

  lemma {:induction false} NoneCounted(ws: seq<Worker>, f: Worker -> bool)
    requires forall i :: 0 <= i < |ws| ==> !f(ws[i])
    ensures Count(ws, f) == 0
    decreases |ws|
  {
    if ws != [] { NoneCounted(ws[..|ws| - 1], f); }
  }

  // ----- counters and room -----

  /** Changing one worker and waking others. */
  lemma CountsStep(ws: seq<Worker>, i: nat, w: Worker, ws': seq<Worker>, f: Worker -> bool)
    requires i < |ws| && Woken(ws[i := w], ws') && !f(Ready) && !f(Waiting)
    ensures Count(ws', f) == Count(ws, f) - (if f(ws[i]) then 1 else 0) + (if f(w) then 1 else 0)
  {
    CountUpdate(ws, i, w, f);
    CountWoken(ws[i := w], ws', f);
  }

  lemma WokenSame(ws: seq<Worker>)
    ensures Woken(ws, ws)
  {
  }

  /** A running worker shows in the counters. */
  lemma RunningCounts(p: Params, s: State, w: nat)
    requires Inv(p, s) && w < |s.workers| && s.workers[w].Running?
    ensures s.core.active >= 1 && s.workers[w].task.priority < PRIORITIES
    ensures s.workers[w].task.priority == BLOCKING ==> s.core.blocking >= 1
    ensures !s.workers[w].continued ==> Free(p, s.core, s.workers[w].task.priority) >= 1
  {
    hide Count, HasTasks;
    CountSome(s.workers, IsRunning(), w);
    if s.workers[w].task.priority == BLOCKING { CountSome(s.workers, IsBlocking(), w); }
    if !s.workers[w].continued { CountSome(s.workers, IsOpen(s.workers[w].task.priority), w); }
  }

  /** Continuations are never refused: the assertions behind tc_thread_schedule_next() and
      tc_thread_schedule_next2() hold. */
  lemma ContinuationAccepted(p: Params, s: State, w: nat)
    requires Inv(p, s) && w < |s.workers| && s.workers[w].Running? && !s.workers[w].continued
    ensures s.workers[w].task.priority < PRIORITIES && Accepts(p, s.core, s.workers[w].task.priority, true)
  {
    RunningCounts(p, s, w);
  }

  /** The open tasks of a priority are never more than the slots reserved for it. */
  lemma OpenReserved(p: Params, s: State, i: nat)
    requires Inv(p, s) && i < PRIORITIES
    ensures Count(s.workers, IsOpen(i)) <= Reserved(p, i)
  {
    hide Count, HasTasks;
    CountLess(s.workers, IsOpen(i), IsRunning());
    if i == BLOCKING { CountLess(s.workers, IsOpen(i), IsBlocking()); }
  }

  // ----- every step keeps the invariant -----

  lemma TakeFacts(p: Params, c: Core)
    requires ParamsOk(p) && CoreOk(p, c) && HasTasks(p, c)
    ensures var i, t, c' := Choice(p, c), Taken(p, c), Take(p, c);
      && i < PRIORITIES && t.priority == i && c.queues[i] == [t] + c'.queues[i]
      && (forall j :: 0 <= j < PRIORITIES && j != i ==> c'.queues[j] == c.queues[j])
      && (i == BLOCKING ==> c.blocking < p.maxBlocking)
      && c'.active == c.active + 1 && c'.blocking == c.blocking + (if i == BLOCKING then 1 else 0) &&
        c'.shutdown == c.shutdown
      && QueuedTasks(c.queues) == QueuedTasks(c'.queues) + multiset{t}
  {
    hide Search;
    ChoiceExists(p, c);
    var i, c' := Choice(p, c), Take(p, c);
    assert c.queues[i] == [c.queues[i][0]] + c'.queues[i];
    assert multiset(c.queues[i]) == multiset{c.queues[i][0]} + multiset(c'.queues[i]);
  }

  lemma LookTakes(p: Params, s: State, w: nat, s': State)
    requires Inv(p, s) && Look(p, s, w, s') && HasTasks(p, s.core)
    ensures Inv(p, s')
  {
    hide Count, HasTasks, Choice, Taken, Take, QueuedTasks;
    TakeFacts(p, s.core);
    var r := Running(Taken(p, s.core), false);
    CountUpdate(s.workers, w, r, IsRunning());
    CountUpdate(s.workers, w, r, IsBlocking());
    forall i: nat | i < PRIORITIES ensures Free(p, s'.core, i) >= Count(s'.workers, IsOpen(i)) {
      CountUpdate(s.workers, w, r, IsOpen(i));
    }
    assert Alert(s'.workers[w]);
  }

  /** A step that leaves the queues and counters alone and changes workers that are not running. */
  lemma IdleStep(p: Params, s: State, w: nat, to: Worker, s': State)
    requires Inv(p, s) && w < |s.workers| && !s.workers[w].Running? && !to.Running?
    requires Woken(s.workers[w := to], s'.workers) && s' == s.(workers := s'.workers)
    ensures Shaped(p, s') && Counted(p, s') && Roomy(p, s') && Conserved(s')
  {
    hide Count, HasTasks, QueuedTasks;
    CountsStep(s.workers, w, to, s'.workers, IsRunning());
    CountsStep(s.workers, w, to, s'.workers, IsBlocking());
    forall i: nat | i < PRIORITIES ensures Free(p, s'.core, i) >= Count(s'.workers, IsOpen(i)) {
      CountsStep(s.workers, w, to, s'.workers, IsOpen(i));
    }
  }

  lemma LookExits(p: Params, s: State, w: nat, s': State)
    requires Inv(p, s) && Look(p, s, w, s') && !HasTasks(p, s.core) && s.core.shutdown && s.core.active == 0
    ensures Inv(p, s')
  {
    hide Count, HasTasks, QueuedTasks, Counted, Roomy, Conserved;
    assert Woken(s.workers[w := Exited], s'.workers);
    IdleStep(p, s, w, Exited, s');
  }

  lemma LookWaits(p: Params, s: State, w: nat, s': State)
    requires Inv(p, s) && Look(p, s, w, s') && !HasTasks(p, s.core) && !(s.core.shutdown && s.core.active == 0)
    ensures Inv(p, s')
  {
    hide Count, HasTasks, QueuedTasks, Counted, Roomy, Conserved;
    WokenSame(s'.workers);
    IdleStep(p, s, w, Waiting, s');
  }

  lemma WakeKeeps(p: Params, s: State, w: nat, s': State)
    requires Inv(p, s) && Wake(s, w, s')
    ensures Inv(p, s')
  {
    hide Count, HasTasks, QueuedTasks, Counted, Roomy, Conserved;
    WokenSame(s'.workers);
    IdleStep(p, s, w, Ready, s');
    assert Alert(s'.workers[w]);
  }

  lemma FinishKeeps(p: Params, s: State, w: nat, s': State)
    requires Inv(p, s) && Finish(p, s, w, s')
    ensures Inv(p, s')
  {
    hide Count, HasTasks, QueuedTasks;
    RunningCounts(p, s, w);
    var task, ws := s.workers[w].task, s.workers[w := Ready];
    var core := Finished(s.core, task);
    var mid :| FreedSlot(task, ws, mid) && s' == s.(core := core, workers := LastOne(p, core, mid));
    if task.priority == BLOCKING { SignalWakes(ws, mid); } else { WokenSame(ws); }
    WokenTrans(ws, mid, s'.workers);
    CountsStep(s.workers, w, Ready, s'.workers, IsRunning());
    CountsStep(s.workers, w, Ready, s'.workers, IsBlocking());
    forall i: nat | i < PRIORITIES ensures Free(p, s'.core, i) >= Count(s'.workers, IsOpen(i)) {
      CountsStep(s.workers, w, Ready, s'.workers, IsOpen(i));
    }
    assert Alert(s'.workers[w]);
  }

  lemma WokenTrans(a: seq<Worker>, b: seq<Worker>, c: seq<Worker>)
    requires Woken(a, b) && (c == b || c == Broadcast(b))
    ensures Woken(a, c)
  {
  }

  lemma EnqueueFacts(p: Params, c: Core, task: Task)
    requires ParamsOk(p) && CoreOk(p, c) && task.priority < PRIORITIES
    ensures var c' := Enqueue(c, task);
      && CoreOk(p, c') && QueuedTasks(c'.queues) == QueuedTasks(c.queues) + multiset{task}
      && (forall i: nat :: i < PRIORITIES ==> Free(p, c', i) == Free(p, c, i) - if i == task.priority then 1 else 0)
  {
  }

  lemma NewKeeps(p: Params, s: State, task: Task, s': State)
    requires Inv(p, s) && New(p, s, task, s')
    ensures Inv(p, s')
  {
    hide Count, HasTasks, QueuedTasks, Enqueue, Signalled;
    if s' != s {
      EnqueueFacts(p, s.core, task);
      SignalWakes(s.workers, s'.workers);
      CountWoken(s.workers, s'.workers, IsRunning());
      CountWoken(s.workers, s'.workers, IsBlocking());
      forall i: nat | i < PRIORITIES ensures Free(p, s'.core, i) >= Count(s'.workers, IsOpen(i)) {
        CountWoken(s.workers, s'.workers, IsOpen(i));
        OpenReserved(p, s, i);
      }
      EnqueueRest(s.core, task);
      SomeoneAlert(p, s, s'.workers);
    }
  }

  lemma EnqueueRest(c: Core, task: Task)
    requires |c.queues| == PRIORITIES && task.priority < PRIORITIES
    ensures var c' := Enqueue(c, task);
      c'.active == c.active && c'.blocking == c.blocking && c'.shutdown == c.shutdown && c'.rr == c.rr &&
        |c'.queues| == PRIORITIES
  {
  }

  /** Outside a shutdown a signal leaves someone awake. */
  lemma SomeoneAlert(p: Params, s: State, ws: seq<Worker>)
    requires Inv(p, s) && !s.core.shutdown && Woken(s.workers, ws)
    requires SomeWaiting(s.workers) ==> exists i :: 0 <= i < |ws| && ws[i].Ready?
    ensures exists w :: 0 <= w < |ws| && Alert(ws[w])
  {
    hide Count, HasTasks, QueuedTasks;
    if SomeWaiting(s.workers) {
      var i :| 0 <= i < |ws| && ws[i].Ready?;
      assert Alert(ws[i]);
    } else {
      assert Alert(ws[0]);
    }
  }

  lemma ContinueKeeps(p: Params, s: State, w: nat, task: Task, s': State)
    requires Inv(p, s) && Continue(p, s, w, task, s')
    ensures Inv(p, s')
  {
    hide Count, HasTasks, QueuedTasks, Enqueue, Signalled;
    RunningCounts(p, s, w);
    var r := s.workers[w].(continued := true);
    var ws := s.workers[w := r];
    EnqueueFacts(p, s.core, task);
    EnqueueRest(s.core, task);
    SignalWakes(ws, s'.workers);
    CountsStep(s.workers, w, r, s'.workers, IsRunning());
    CountsStep(s.workers, w, r, s'.workers, IsBlocking());
    forall i: nat | i < PRIORITIES ensures Free(p, s'.core, i) >= Count(s'.workers, IsOpen(i)) {
      CountsStep(s.workers, w, r, s'.workers, IsOpen(i));
    }
    assert Alert(s'.workers[w]);
  }

  lemma StopKeeps(p: Params, s: State, s': State)
    requires Inv(p, s) && Stop(s, s')
    ensures Inv(p, s')
  {
    hide Count, QueuedTasks;
    CountWoken(s.workers, s'.workers, IsRunning());
    CountWoken(s.workers, s'.workers, IsBlocking());
    forall i: nat | i < PRIORITIES ensures Free(p, s'.core, i) >= Count(s'.workers, IsOpen(i)) {
      CountWoken(s.workers, s'.workers, IsOpen(i));
    }
    StopTasks(p, s.core);
    if HasTasks(p, s.core) {
      var w :| 0 <= w < |s.workers| && Alert(s.workers[w]);
      assert Alert(s'.workers[w]);
    }
  }

  lemma StopTasks(p: Params, c: Core)
    requires |c.queues| == PRIORITIES
    ensures HasTasks(p, c.(shutdown := true)) <==> HasTasks(p, c)
  {
    var c' := c.(shutdown := true);
    assert forall i: nat :: i < PRIORITIES ==> (Eligible(p, c', i) <==> Eligible(p, c, i));
  }

  lemma NextInv(p: Params, s: State, step: Step, s': State)
    requires Inv(p, s) && Next(p, s, step, s')
    ensures Inv(p, s')
  {
    hide Inv, HasTasks;
    InvShaped(p, s);
    match step
    case LookStep(w) =>
      if HasTasks(p, s.core) { LookTakes(p, s, w, s'); }
      else if s.core.shutdown && s.core.active == 0 { LookExits(p, s, w, s'); }
      else { LookWaits(p, s, w, s'); }
    case FinishStep(w) => FinishKeeps(p, s, w, s');
    case NewStep(task) => NewKeeps(p, s, task, s');
    case ContinueStep(w, task) => ContinueKeeps(p, s, w, task, s');
    case StopStep => StopKeeps(p, s, s');
    case WakeStep(w) => WakeKeeps(p, s, w, s');
  }

  lemma InvShaped(p: Params, s: State)
    requires Inv(p, s)
    ensures Shaped(p, s)
  {
  }

  // ----- whole runs -----

  /** A run of the pool: from the start, one step after the other. */
  ghost predicate Run(p: Params, run: seq<State>, steps: seq<Step>) {
    && |run| == |steps| + 1 && Init(p, run[0])
    && forall k :: 0 <= k < |steps| ==> Shaped(p, run[k]) && Next(p, run[k], steps[k], run[k + 1])
  }

  lemma {:induction false} RunInv(p: Params, run: seq<State>, steps: seq<Step>, k: nat)
    requires Run(p, run, steps) && k < |run|
    ensures Inv(p, run[k])
    decreases k
  {
    hide Inv, Next, Init;
    if k == 0 {
      InitInv(p, run[0]);
    } else {
      RunInv(p, run, steps, k - 1);
      NextInv(p, run[k - 1], steps[k - 1], run[k]);
    }
  }

  /** No continuation is refused in any run. */
  lemma NoRefusedContinuation(p: Params, run: seq<State>, steps: seq<Step>, k: nat, w: nat)
    requires Run(p, run, steps) && k < |run| && w < |run[k].workers| && run[k].workers[w].Running?
    requires !run[k].workers[w].continued
    ensures Shaped(p, run[k]) && run[k].workers[w].task.priority < PRIORITIES
    ensures Accepts(p, run[k].core, run[k].workers[w].task.priority, true)
  {
    hide Run, Accepts;
    RunInv(p, run, steps, k);
    ContinuationAccepted(p, run[k], w);
  }

  /** No wakeup is lost: when all workers that have not exited sleep, there is nothing they could run and no
      shutdown to finish. */
  lemma NoLostWakeup(p: Params, run: seq<State>, steps: seq<Step>, k: nat)
    requires Run(p, run, steps) && k < |run|
    requires SomeWaiting(run[k].workers)
    requires forall w :: 0 <= w < |run[k].workers| ==> run[k].workers[w].Waiting? || run[k].workers[w].Exited?
    ensures Shaped(p, run[k]) && !HasTasks(p, run[k].core) && !run[k].core.shutdown
    ensures forall w :: 0 <= w < |run[k].workers| ==> run[k].workers[w].Waiting?
  {
    hide Run, HasTasks, Count;
    RunInv(p, run, steps, k);
    NoneCounted(run[k].workers, IsRunning());
  }

  /** With room for one blocking task, eligible means queued when nothing runs. */
  lemma EmptyQueues(p: Params, c: Core)
    requires |c.queues| == PRIORITIES && p.maxBlocking >= 1 && c.blocking == 0 && !HasTasks(p, c)
    ensures forall i :: 0 <= i < PRIORITIES ==> c.queues[i] == []
  {
    forall i: nat | i < PRIORITIES ensures c.queues[i] == [] { assert !Eligible(p, c, i); }
  }

  /** Once a worker has exited, every accepted task has been started exactly once and has returned, nobody
      sleeps, and no new task is taken. */
  lemma DrainedAtExit(p: Params, run: seq<State>, steps: seq<Step>, k: nat, w: nat)
    requires Run(p, run, steps) && k < |run| && w < |run[k].workers| && run[k].workers[w].Exited? && p.maxBlocking >= 1
    ensures run[k].accepted == run[k].started && !SomeWaiting(run[k].workers)
    ensures forall v :: 0 <= v < |run[k].workers| ==> !run[k].workers[v].Running?
    ensures forall step, s' :: Shaped(p, run[k]) && Next(p, run[k], step, s') ==>
      s'.accepted == run[k].accepted && s'.started == run[k].started
  {
    hide Run, HasTasks, Count;
    RunInv(p, run, steps, k);
    var s := run[k];
    CountLess(s.workers, IsBlocking(), IsRunning());
    EmptyQueues(p, s.core);
    forall v | 0 <= v < |s.workers| ensures !s.workers[v].Running? {
      if s.workers[v].Running? { CountSome(s.workers, IsRunning(), v); }
    }
    NothingQueued(s.core.queues);
  }

  lemma NothingQueued(q: seq<seq<Task>>)
    requires |q| == PRIORITIES && forall i :: 0 <= i < PRIORITIES ==> q[i] == []
    ensures QueuedTasks(q) == multiset{}
  {
  }

  /** What is left when a worker has exited is in the blocking queue, and only without room for blocking tasks. */
  lemma LeftAtExit(p: Params, run: seq<State>, steps: seq<Step>, k: nat, w: nat)
    requires Run(p, run, steps) && k < |run| && w < |run[k].workers| && run[k].workers[w].Exited?
    ensures Shaped(p, run[k]) && run[k].accepted == run[k].started + multiset(run[k].core.queues[BLOCKING])
    ensures p.maxBlocking >= 1 ==> run[k].core.queues[BLOCKING] == []
  {
    hide Run, Count;
    RunInv(p, run, steps, k);
    var c := run[k].core;
    CountLess(run[k].workers, IsBlocking(), IsRunning());
    forall i: nat | i < PRIORITIES && (i != BLOCKING || p.maxBlocking >= 1) ensures c.queues[i] == [] {
      assert !Eligible(p, c, i);
    }
    assert QueuedTasks(c.queues) == multiset(c.queues[BLOCKING]);
  }

  /** Without room for any blocking task none is ever started. */
  lemma {:induction false} NoneStarted(p: Params, run: seq<State>, steps: seq<Step>, k: nat)
    requires Run(p, run, steps) && k < |run| && p.maxBlocking == 0
    ensures forall t :: t in run[k].started ==> t.priority != BLOCKING
  {
    if k > 0 {
      var s := run[k - 1];
      NoneStarted(p, run, steps, k - 1);
      assert Shaped(p, s) && Next(p, s, steps[k - 1], run[k]);
      if steps[k - 1].LookStep? && HasTasks(p, s.core) { TakesOther(p, s.core); }
    }
  }

  lemma TakesOther(p: Params, c: Core)
    requires ParamsOk(p) && CoreOk(p, c) && HasTasks(p, c) && p.maxBlocking == 0
    ensures Taken(p, c).priority != BLOCKING
  {
    hide Search;
    ChoiceExists(p, c);
    assert Choice(p, c) != BLOCKING;
  }

  /** Without room for any blocking task an accepted one is never run, and all workers leave it behind. The
      drain is complete exactly when the cap is at least one or no blocking task was ever accepted. */
  lemma DrainedExactly(p: Params, run: seq<State>, steps: seq<Step>, k: nat, w: nat)
    requires Run(p, run, steps) && k < |run| && w < |run[k].workers| && run[k].workers[w].Exited?
    ensures run[k].accepted == run[k].started <==>
      p.maxBlocking >= 1 || forall t :: t in run[k].accepted ==> t.priority != BLOCKING
  {
    hide Run;
    var s := run[k];
    LeftAtExit(p, run, steps, k, w);
    if p.maxBlocking == 0 {
      NoneStarted(p, run, steps, k);
      var q := s.core.queues[BLOCKING];
      if q != [] {
        assert q[0] in multiset(q) && q[0].priority == BLOCKING;
        assert q[0] in s.accepted;
      }
    }
  }

  /** Such a run: a blocking task is accepted, the pool is stopped, and its only worker exits. */
  lemma LeftBehind() returns (p: Params, run: seq<State>, steps: seq<Step>)
    ensures Run(p, run, steps) && p.maxBlocking == 0 && |run| == 4
    ensures run[3].workers == [Exited] && run[3].accepted != run[3].started
  {
    p := Params([64, 128, 128, 256], 1, 0, "AABCAABCD");
    var t := Task(1, 1, BLOCKING, 0);
    var none: seq<Task> := [];
    var s0 := State(Core([none, none, none, none], 0, 0, 0, false), [Ready], multiset{}, multiset{});
    var s1 := State(Core([none, none, [t], none], 0, 0, 0, false), [Ready], multiset{t}, multiset{});
    var s2 := State(s1.core.(shutdown := true), [Ready], multiset{t}, multiset{});
    var s3 := State(s2.core, [Exited], multiset{t}, multiset{});
    run, steps := [s0, s1, s2, s3], [NewStep(t), StopStep, LookStep(0)];
    assert s0.core.queues == seq(PRIORITIES, _ => none) && s0.workers == seq(1, _ => Ready);
    assert Shaped(p, s0) && Shaped(p, s1) && Shaped(p, s2);
    assert none + [t] == [t] && s0.core.queues[BLOCKING := [t]] == s1.core.queues;
    assert Enqueue(s0.core, t) == s1.core;
    assert !SomeWaiting([Ready]);
    assert Next(p, s0, NewStep(t), s1);
    assert Broadcast([Ready]) == [Ready];
    assert Next(p, s1, StopStep, s2);
    assert !HasTasks(p, s2.core);
    assert Next(p, s2, LookStep(0), s3);
    assert t in s3.accepted;
  }
}
