/** Bounded waiting in the thread pool of src/thread_pool.c: a task in a buffer that the round-robin
    pattern names is dequeued after a bounded number of dequeues, whatever is scheduled meanwhile. */
module Fairness {
  import opened RingBuffer
  import opened PoolSpec
  import PoolRuns

  /** What can happen to the guarded fields: a task is enqueued, a task is dequeued, or only counters change. */
  datatype Move = Adds(task: Task) | Takes | Other

  ghost predicate Moved(p: Params, c: Core, m: Move, c': Core)
    requires ParamsOk(p) && CoreOk(p, c)
  {
    match m
    case Adds(task) => task.priority < PRIORITIES && c' == Enqueue(c, task)
    case Takes => HasTasks(p, c) && c' == Take(p, c)
    case Other => c'.queues == c.queues && c'.rr == c.rr
  }

  ghost predicate Moves(p: Params, cs: seq<Core>, ms: seq<Move>) {
    && ParamsOk(p) && |cs| == |ms| + 1 && (forall j :: 0 <= j < |cs| ==> CoreOk(p, cs[j]))
    && forall j :: 0 <= j < |ms| ==> Moved(p, cs[j], ms[j], cs[j + 1])
  }

  /** How many dequeues there are. */
  ghost function Dequeues(ms: seq<Move>): nat {
    if ms == [] then 0 else (if ms[0].Takes? then 1 else 0) + Dequeues(ms[1..])
  }

  /** How many of the first n moves dequeue from buffer i. */
  ghost function Served(p: Params, cs: seq<Core>, ms: seq<Move>, i: nat, n: nat): nat
    requires Moves(p, cs, ms) && n <= |ms|
  {
    if n == 0 then 0 else Served(p, cs, ms, i, n - 1) + if ms[n - 1].Takes? && Choice(p, cs[n - 1]) == i then 1 else 0
  }

  /** Turns until the round-robin index comes to pattern position q. */
  function Away(p: Params, rr: nat, q: nat): int
    requires |p.pattern| >= 1 && rr <= |p.pattern| && q < |p.pattern|
  {
    var at := if rr == |p.pattern| then 0 else rr;
    if q >= at then q - at else q + |p.pattern| - at
  }

  function Rounds(k: nat, n: nat): nat { if k == 0 then 0 else n + Rounds(k - 1, n) }

  lemma {:induction false} RoundsTimes(k: nat, n: nat)
    ensures Rounds(k, n) == k * n
    decreases k
  {
    if k > 0 { RoundsTimes(k - 1, n); }
  }

  lemma AwayStep(p: Params, rr: nat, q: nat)
    requires |p.pattern| >= 1 && rr <= |p.pattern| && q < |p.pattern|
    ensures NextTurn(p, rr) <= |p.pattern| && 0 <= Away(p, NextTurn(p, rr), q) < |p.pattern| && 0 <= Away(p, rr, q)
    ensures Away(p, rr, q) > 0 ==> Away(p, NextTurn(p, rr), q) == Away(p, rr, q) - 1
    ensures Away(p, rr, q) == 0 ==> q == if rr == |p.pattern| then 0 else rr
  {
  }

  lemma TailMoves(p: Params, cs: seq<Core>, ms: seq<Move>)
    requires Moves(p, cs, ms) && ms != []
    ensures Moves(p, cs[1..], ms[1..])
  {
    hide Moved, CoreOk;
    forall j | 0 <= j < |ms| - 1 ensures Moved(p, cs[1..][j], ms[1..][j], cs[1..][j + 1]) {
      assert Moved(p, cs[j + 1], ms[j + 1], cs[j + 2]);
    }
  }

  lemma {:induction false} TailServed(p: Params, cs: seq<Core>, ms: seq<Move>, i: nat, n: nat)
    requires Moves(p, cs, ms) && n < |ms|
    ensures Moves(p, cs[1..], ms[1..])
    ensures Served(p, cs, ms, i, n + 1) ==
            Served(p, cs[1..], ms[1..], i, n) + if ms[0].Takes? && Choice(p, cs[0]) == i then 1 else 0
    decreases n
  {
    hide Moves, Choice;
    TailMoves(p, cs, ms);
    MovesShape(p, cs, ms);
    if n > 0 { TailServed(p, cs, ms, i, n - 1); }
  }

  lemma MovesShape(p: Params, cs: seq<Core>, ms: seq<Move>)
    requires Moves(p, cs, ms)
    ensures ParamsOk(p) && |cs| == |ms| + 1 && forall j :: 0 <= j < |cs| ==> CoreOk(p, cs[j])
  {
  }

  /** One move: the task stays where it is, or moves up when its buffer is served. */
  lemma OneMove(p: Params, c: Core, m: Move, c': Core, i: nat, k: nat, q: nat)
    requires ParamsOk(p) && CoreOk(p, c) && CoreOk(p, c') && Moved(p, c, m, c')
    requires i < PRIORITIES && i != BLOCKING && k < |c.queues[i]| && q < |p.pattern|
    requires p.pattern[q] as int - 'A' as int == i
    ensures var served := m.Takes? && Choice(p, c) == i;
      && (served && k > 0 ==> k - 1 < |c'.queues[i]| && c'.queues[i][k - 1] == c.queues[i][k])
      && (served && k == 0 ==> HasTasks(p, c) && Taken(p, c) == c.queues[i][k])
      && (!served ==> k < |c'.queues[i]| && c'.queues[i][k] == c.queues[i][k])
    ensures !m.Takes? ==> c'.rr == c.rr
    ensures m.Takes? ==> c'.rr == NextTurn(p, c.rr)
    ensures m.Takes? && Choice(p, c) != i ==> Away(p, c.rr, q) > 0
  {
    hide Search;
    assert Eligible(p, c, i);
    AwayStep(p, c.rr, q);
  }

  /** After so many dequeues the task at position k of buffer i is out. */
  lemma {:induction false} OutInTime(p: Params, cs: seq<Core>, ms: seq<Move>, i: nat, k: nat, q: nat) returns (j: nat)
    requires Moves(p, cs, ms) && i < PRIORITIES && i != BLOCKING && k < |cs[0].queues[i]|
    requires q < |p.pattern| && p.pattern[q] as int - 'A' as int == i
    requires Dequeues(ms) >= Rounds(k, |p.pattern|) + Away(p, cs[0].rr, q) + 1
    ensures j < |ms| && ms[j].Takes? && Choice(p, cs[j]) == i && Served(p, cs, ms, i, j) == k
    ensures HasTasks(p, cs[j]) && Taken(p, cs[j]) == cs[0].queues[i][k]
    decreases |ms|
  {
    hide Choice, Taken, Take, Moves, HasTasks, Away, CoreOk;
    MovesShape(p, cs, ms);
    CoreShape(p, cs[0]);
    AwayStep(p, cs[0].rr, q);
    FirstMove(p, cs, ms);
    var c, m, c' := cs[0], ms[0], cs[1];
    OneMove(p, c, m, c', i, k, q);
    if m.Takes? && Choice(p, c) == i && k == 0 {
      j := 0;
    } else {
      var k' := if m.Takes? && Choice(p, c) == i then k - 1 else k;
      TailMoves(p, cs, ms);
      var j' := OutInTime(p, cs[1..], ms[1..], i, k', q);
      TailServed(p, cs, ms, i, j');
      j := j' + 1;
    }
  }

  lemma FirstMove(p: Params, cs: seq<Core>, ms: seq<Move>)
    requires Moves(p, cs, ms) && ms != []
    ensures Moved(p, cs[0], ms[0], cs[1])
  {
  }

  lemma CoreShape(p: Params, c: Core)
    requires CoreOk(p, c)
    ensures |c.queues| == PRIORITIES && c.rr <= |p.pattern|
  {
  }

  /** Bounded waiting: with k tasks ahead in a buffer other than the blocking one, named by the pattern, a task
      is the next but k from that buffer and comes out within (k + 1) * |pattern| dequeues. */
  lemma BoundedWaiting(p: Params, cs: seq<Core>, ms: seq<Move>, i: nat, k: nat) returns (j: nat)
    requires Moves(p, cs, ms) && i < PRIORITIES && i != BLOCKING && k < |cs[0].queues[i]|
    requires ('A' as int + i) as char in p.pattern && Dequeues(ms) >= (k + 1) * |p.pattern|
    ensures j < |ms| && ms[j].Takes? && Choice(p, cs[j]) == i && Served(p, cs, ms, i, j) == k
    ensures HasTasks(p, cs[j]) && Taken(p, cs[j]) == cs[0].queues[i][k]
  {
    hide Choice, Taken, Take, Moves, HasTasks, CoreOk;
    MovesShape(p, cs, ms);
    CoreShape(p, cs[0]);
    var q :| 0 <= q < |p.pattern| && p.pattern[q] == ('A' as int + i) as char;
    RoundsTimes(k + 1, |p.pattern|);
    j := OutInTime(p, cs, ms, i, k, q);
  }

  // ----- over the runs of the pool -----

  /** What a step of the pool does to the guarded fields. */
  ghost function MoveOf(p: Params, s: PoolRuns.State, step: PoolRuns.Step): Move
    requires PoolRuns.Shaped(p, s)
  {
    match step
    case LookStep(_) => if HasTasks(p, s.core) then Takes else Other
    case NewStep(task) =>
      if task.priority < PRIORITIES && !s.core.shutdown &&
        Accepts(p, s.core, task.priority, false) then Adds(task) else Other
    case ContinueStep(_, task) => Adds(task)
    case _ => Other
  }

  /** Every step of the pool is a move, and exactly the dequeues start a task. */
  lemma StepMoves(p: Params, s: PoolRuns.State, step: PoolRuns.Step, s': PoolRuns.State)
    requires PoolRuns.Shaped(p, s) && PoolRuns.Next(p, s, step, s')
    ensures Moved(p, s.core, MoveOf(p, s, step), s'.core)
    ensures MoveOf(p, s, step).Takes? ==> HasTasks(p, s.core) && s'.started == s.started + multiset{Taken(p, s.core)}
    ensures !MoveOf(p, s, step).Takes? ==> s'.started == s.started
  {
    hide HasTasks, Take, Taken;
  }

  ghost predicate Shaped(p: Params, run: seq<PoolRuns.State>) {
    forall k :: 0 <= k < |run| ==> PoolRuns.Shaped(p, run[k])
  }

  ghost function Cores(run: seq<PoolRuns.State>, a: nat, b: nat): (cs: seq<Core>)
    requires a <= b < |run|
  {
    seq(b - a + 1, j requires 0 <= j < b - a + 1 => run[a + j].core)
  }

  ghost function MovesOf(p: Params, run: seq<PoolRuns.State>, steps: seq<PoolRuns.Step>, a: nat,
                         b: nat): (ms: seq<Move>)
    requires Shaped(p, run) && a <= b < |run| == |steps| + 1
  {
    seq(b - a, j requires 0 <= j < b - a => MoveOf(p, run[a + j], steps[a + j]))
  }

  lemma RunShaped(p: Params, run: seq<PoolRuns.State>, steps: seq<PoolRuns.Step>)
    requires PoolRuns.Run(p, run, steps)
    ensures Shaped(p, run) && |run| == |steps| + 1
  {
    forall k | 0 <= k < |run| ensures PoolRuns.Shaped(p, run[k]) { PoolRuns.RunInv(p, run, steps, k); }
  }

  /** The part of a run from a to b as moves; its dequeues are the tasks started meanwhile. */
  lemma {:induction false} RunMoves(p: Params, run: seq<PoolRuns.State>, steps: seq<PoolRuns.Step>, a: nat, b: nat)
    requires PoolRuns.Run(p, run, steps) && Shaped(p, run) && a <= b < |run| == |steps| + 1
    ensures Moves(p, Cores(run, a, b), MovesOf(p, run, steps, a, b))
    ensures Dequeues(MovesOf(p, run, steps, a, b)) == |run[b].started| - |run[a].started|
    decreases b - a
  {
    hide MoveOf, Moved, Moves, CoreOk, PoolRuns.Shaped, PoolRuns.Next, PoolRuns.Run;
    var cs, ms := Cores(run, a, b), MovesOf(p, run, steps, a, b);
    OneCore(p, run[a]);
    if a < b {
      RunMoves(p, run, steps, a + 1, b);
      RunStep(p, run, steps, a);
      StepMoves(p, run[a], steps[a], run[a + 1]);
      assert ms[1..] == MovesOf(p, run, steps, a + 1, b) && cs[1..] == Cores(run, a + 1, b);
      MovesBefore(p, cs, ms);
    } else {
      assert cs == [run[a].core] && ms == [];
    }
  }

  lemma OneCore(p: Params, s: PoolRuns.State)
    requires PoolRuns.Shaped(p, s)
    ensures ParamsOk(p) && CoreOk(p, s.core) && Moves(p, [s.core], [])
  {
  }

  lemma MovesBefore(p: Params, cs: seq<Core>, ms: seq<Move>)
    requires |cs| == |ms| + 1 && ms != [] && Moves(p, cs[1..], ms[1..])
    requires CoreOk(p, cs[0]) && Moved(p, cs[0], ms[0], cs[1])
    ensures Moves(p, cs, ms)
  {
    hide Moved, CoreOk;
    forall j | 0 <= j < |cs| ensures CoreOk(p, cs[j]) {
      if j > 0 { assert cs[j] == cs[1..][j - 1]; }
    }
    forall j | 0 <= j < |ms| ensures Moved(p, cs[j], ms[j], cs[j + 1]) {
      if j > 0 { assert Moved(p, cs[1..][j - 1], ms[1..][j - 1], cs[1..][j]); }
    }
  }

  /** Bounded waiting in every run: a task with k tasks ahead of it at state a, in a buffer other than the
      blocking one that the pattern names, is among the next (k + 1) * |pattern| tasks started. */
  lemma StartedInTime(p: Params, run: seq<PoolRuns.State>, steps: seq<PoolRuns.Step>, a: nat, b: nat, i: nat, k: nat)
    returns (j: nat)
    requires PoolRuns.Run(p, run, steps) && a <= b < |run| && i < PRIORITIES && i != BLOCKING
    requires |run[a].core.queues| == PRIORITIES && k < |run[a].core.queues[i]| && ('A' as int + i) as char in p.pattern
    requires |run[b].started| >= |run[a].started| + (k + 1) * |p.pattern|
    ensures a <= j < b && run[j + 1].started == run[j].started + multiset{run[a].core.queues[i][k]}
  {
    hide PoolRuns.Run, MoveOf, Moves, PoolRuns.Shaped, HasTasks, Taken, Choice, Served;
    RunShaped(p, run, steps);
    RunMoves(p, run, steps, a, b);
    var cs, ms := Cores(run, a, b), MovesOf(p, run, steps, a, b);
    var n := BoundedWaiting(p, cs, ms, i, k);
    j := a + n;
    RunStep(p, run, steps, j);
    StepMoves(p, run[j], steps[j], run[j + 1]);
  }

  lemma RunStep(p: Params, run: seq<PoolRuns.State>, steps: seq<PoolRuns.Step>, j: nat)
    requires PoolRuns.Run(p, run, steps) && j < |steps|
    ensures |run| == |steps| + 1 && PoolRuns.Shaped(p, run[j]) && PoolRuns.Next(p, run[j], steps[j], run[j + 1])
  {
  }
}
