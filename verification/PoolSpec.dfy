/** The thread pool of src/thread_pool.c as values: what each operation under the lock does to the
    queues and counters. */
module PoolSpec {
  import opened RingBuffer

  const PRIORITIES: nat := 4
  const BLOCKING: nat := 2

  /** What tc_thread_pool_init() fixes: the ring sizes, the number of workers, the cap on running
      blocking tasks, and the round-robin pattern of priority letters. */
  datatype Params = Params(caps: seq<nat>, threads: nat, maxBlocking: nat, pattern: string)

  ghost predicate ParamsOk(p: Params) {
    && |p.caps| == PRIORITIES && (forall i :: 0 <= i < PRIORITIES ==> p.caps[i] >= 1)
    && |p.pattern| >= 1 && (forall i :: 0 <= i < |p.pattern| ==> 'A' <= p.pattern[i] <= 'D')
  }

  /** The fields guarded by the lock. */
  datatype Core = Core(queues: seq<seq<Task>>, rr: nat, active: nat, blocking: nat, shutdown: bool)

  ghost predicate CoreOk(p: Params, c: Core) {
    && |c.queues| == PRIORITIES && c.rr <= |p.pattern|
    && forall i, k :: 0 <= i < PRIORITIES && 0 <= k < |c.queues[i]| ==> c.queues[i][k].priority == i
  }

  function Free(p: Params, c: Core, i: nat): int
    requires |p.caps| == |c.queues| == PRIORITIES && i < PRIORITIES
  {
    p.caps[i] - 1 - |c.queues[i]|
  }

  /** Slots kept for continuations. */
  function Reserved(p: Params, i: nat): nat { if i == BLOCKING then p.maxBlocking else p.threads }

  /** buffer_eligible() */
  predicate Eligible(p: Params, c: Core, i: nat)
    requires |c.queues| == PRIORITIES && i < PRIORITIES
  {
    c.queues[i] != [] && (i == BLOCKING ==> c.blocking < p.maxBlocking)
  }

  /** thread_pool_has_tasks() */
  ghost predicate HasTasks(p: Params, c: Core)
    requires |c.queues| == PRIORITIES
  {
    exists i: nat :: i < PRIORITIES && Eligible(p, c, i)
  }

  /** task_buffer_enqueue(): a new task must leave the reserved slots free, a continuation may use them. */
  predicate Accepts(p: Params, c: Core, i: nat, isYield: bool)
    requires |p.caps| == |c.queues| == PRIORITIES && i < PRIORITIES
  {
    (isYield || Free(p, c, i) > Reserved(p, i)) && Free(p, c, i) >= 1
  }

  function Enqueue(c: Core, task: Task): Core
    requires |c.queues| == PRIORITIES && task.priority < PRIORITIES
  {
    c.(queues := c.queues[task.priority := c.queues[task.priority] + [task]])
  }

  /** The priority named by the pattern at the round-robin index, which starts over at its end. */
  function Turn(p: Params, rr: nat): (i: nat)
    requires |p.pattern| >= 1 && rr <= |p.pattern|
  {
    var c := p.pattern[if rr == |p.pattern| then 0 else rr];
    if c < 'A' then 0 else c as int - 'A' as int
  }

  function NextTurn(p: Params, rr: nat): nat { if rr == |p.pattern| then 1 else rr + 1 }

  /** The search of task_pool_dequeue(): the first eligible priority from i on, in n tries. */
  function Search(p: Params, c: Core, i: nat, n: nat): (r: nat)
    requires |c.queues| == PRIORITIES && i < PRIORITIES
    ensures r < PRIORITIES ==> Eligible(p, c, r)
    ensures r <= PRIORITIES
    ensures n > 0 && Eligible(p, c, i) ==> r == i
    decreases n
  {
    if n == 0 then PRIORITIES else if Eligible(p, c, i) then i else Search(p, c, (i + 1) % PRIORITIES, n - 1)
  }

  /** Of the four priorities in turn from t on, r is the first eligible one. */
  ghost predicate FirstFrom(p: Params, c: Core, t: nat, r: nat)
    requires |c.queues| == 4
  {
    && r < 4 && Eligible(p, c, r)
    && forall u: nat :: u < 4 && Eligible(p, c, u) ==>
         (if r >= t then r - t else r + 4 - t) <= if u >= t then u - t else u + 4 - t
  }

  /** The search passes over no eligible priority. */
  lemma {:induction false} SearchFirst(p: Params, c: Core, i: nat, n: nat)
    requires |c.queues| == PRIORITIES && i < PRIORITIES
    ensures var r := Search(p, c, i, n); r < PRIORITIES ==> FirstFrom(p, c, i, r)
    decreases n
  {
    hide Eligible;
    if n > 0 && !Eligible(p, c, i) { SearchFirst(p, c, (i + 1) % PRIORITIES, n - 1); }
  }

  /** The priority that task_pool_dequeue() takes from. */
  function Choice(p: Params, c: Core): (r: nat)
    requires ParamsOk(p) && CoreOk(p, c)
    ensures r < PRIORITIES ==> Eligible(p, c, r)
    ensures Eligible(p, c, Turn(p, c.rr)) ==> r == Turn(p, c.rr)
    ensures r < PRIORITIES ==> FirstFrom(p, c, Turn(p, c.rr), r)
  {
    SearchFirst(p, c, Turn(p, c.rr), PRIORITIES);
    Search(p, c, Turn(p, c.rr), PRIORITIES)
  }

  /** How many steps lead from i round to t. */
  function Ahead(i: nat, t: nat): int { if t >= i then t - i else t + PRIORITIES - i }

  lemma {:induction false} SearchFinds(p: Params, c: Core, i: nat, n: nat, t: nat)
    requires |c.queues| == PRIORITIES && i < PRIORITIES && t < PRIORITIES && Eligible(p, c, t) && Ahead(i, t) < n
    ensures Search(p, c, i, n) < PRIORITIES
    decreases n
  {
    hide Eligible;
    if i != t { SearchFinds(p, c, (i + 1) % PRIORITIES, n - 1, t); }
  }

  /** With an eligible task the search succeeds: its "should never happen" end is never reached. */
  lemma ChoiceExists(p: Params, c: Core)
    requires ParamsOk(p) && CoreOk(p, c) && HasTasks(p, c)
    ensures Choice(p, c) < PRIORITIES
  {
    hide Eligible, Search;
    var t: nat :| t < PRIORITIES && Eligible(p, c, t);
    SearchFinds(p, c, Turn(p, c.rr), PRIORITIES, t);
  }

  /** The task taken, and the state after it: the pattern moves on and the worker counts as running. */
  function Taken(p: Params, c: Core): Task
    requires ParamsOk(p) && CoreOk(p, c) && HasTasks(p, c)
  {
    ChoiceExists(p, c);
    c.queues[Choice(p, c)][0]
  }

  function Take(p: Params, c: Core): (r: Core)
    requires ParamsOk(p) && CoreOk(p, c) && HasTasks(p, c)
    ensures CoreOk(p, r)
  {
    ChoiceExists(p, c);
    var i := Choice(p, c);
    var task := c.queues[i][0];
    Core(c.queues[i := c.queues[i][1..]], NextTurn(p, c.rr), c.active + 1,
         c.blocking + (if task.priority == BLOCKING then 1 else 0), c.shutdown)
  }
}
