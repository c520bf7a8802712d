/** The task backlog of src/task_backlog.c: a list of blocks that refines an append-only sequence, and the
    bookkeeping when it is handed to the thread pool. */
module Backlog {
  const SIZE: nat := 32
  const NO_PRIORITY: int := -1

  datatype Entry = Entry(success: nat, failure: nat, context: nat, priority: int, generation: int)

  // Handing over, as values.

  /** Whether there is a result and which handlers were given, and the priority of the current task. */
  datatype Setup = Setup(result: bool, acquire: bool, release: bool, current: int)

  /** What the outside answers for an entry: whether memory is found and whether the pool takes the task. */
  datatype Answer = Answer(memory: bool, accepted: bool)

  /** What the code does to the outside. A task is scheduled as a new one or as the current chain's next. */
  datatype Event =
    | Allocate | Free
    | Acquire | Release
    | Fail(entry: Entry)
    | Schedule(entry: Entry, continuing: bool)

  predicate Succeeds(c: Setup, a: Answer) { c.result && a.memory && a.accepted }

  /** What is done for one entry. */
  function Handle(c: Setup, continued: bool, e: Entry, a: Answer): seq<Event> {
    if !c.result || !a.memory then [Fail(e)] else
    [Allocate] + (if c.acquire then [Acquire] else []) +
    (if a.accepted then [Schedule(e, e.priority == c.current && !continued)]
     else [Fail(e)] + (if c.release then [Release] else []) + [Free])
  }

  /** Whether the chain has been continued by then. */
  function Continued(c: Setup, entries: seq<Entry>, answers: seq<Answer>): bool
    requires |answers| == |entries|
  {
    exists i :: 0 <= i < |entries| && entries[i].priority == c.current && Succeeds(c, answers[i])
  }

  /** What is done for a whole backlog. */
  function HandleAll(c: Setup, entries: seq<Entry>, answers: seq<Answer>): seq<Event>
    requires |answers| == |entries|
  {
    if entries == [] then [] else
    var n := |entries| - 1;
    HandleAll(c, entries[..n], answers[..n]) + Handle(c, Continued(c, entries[..n], answers[..n]), entries[n],
      answers[n])
  }

  // What the events amount to.

  /** The ends of entries, in order. */
  function Ends(log: seq<Event>): seq<Event> {
    if log == [] then [] else
    var n := |log| - 1;
    if log[n].Fail? || log[n].Schedule? then Ends(log[..n]) + [log[n]] else Ends(log[..n])
  }

  function Count(log: seq<Event>, e: Event): nat {
    if log == [] then 0 else Count(log[..|log| - 1], e) + (if log[|log| - 1] == e then 1 else 0)
  }

  lemma {:induction false} EndsConcat(x: seq<Event>, y: seq<Event>)
    ensures Ends(x + y) == Ends(x) + Ends(y)
  {
    if y == [] {
      assert x + y == x;
    } else {
      var n := |y| - 1;
      assert (x + y)[..|x + y| - 1] == x + y[..n];
      EndsConcat(x, y[..n]);
    }
  }

  lemma {:induction false} CountConcat(x: seq<Event>, y: seq<Event>, e: Event)
    ensures Count(x + y, e) == Count(x, e) + Count(y, e)
  {
    if y == [] {
      assert x + y == x;
    } else {
      assert (x + y)[..|x + y| - 1] == x + y[..|y| - 1];
      CountConcat(x, y[..|y| - 1], e);
    }
  }

  lemma EndsOne(e: Event)
    ensures Ends([e]) == if e.Fail? || e.Schedule? then [e] else []
  {
    assert [e][..0] == [];
  }

  lemma CountOne(d: Event, e: Event)
    ensures Count([d], e) == if d == e then 1 else 0
  {
    assert [d][..0] == [];
  }

  /** The end that one entry comes to. */
  function End(c: Setup, continued: bool, e: Entry, a: Answer): Event {
    if Succeeds(c, a) then Schedule(e, e.priority == c.current && !continued) else Fail(e)
  }

  lemma HandleEnds(c: Setup, continued: bool, e: Entry, a: Answer)
    ensures Ends(Handle(c, continued, e, a)) == [End(c, continued, e, a)]
  {
    hide Ends;
    var end := End(c, continued, e, a);
    EndsOne(end);
    EndsOne(Allocate);
    EndsOne(Acquire);
    EndsOne(Release);
    EndsOne(Free);
    var none: seq<Event> := [];
    NoEnds();
    if c.result && a.memory {
      var acquired := if c.acquire then [Acquire] else none;
      var released := if c.release then [Release] else none;
      EndsConcat([Allocate], acquired);
      if a.accepted {
        EndsConcat([Allocate] + acquired, [end]);
      } else {
        EndsConcat([end], released);
        EndsConcat([end] + released, [Free]);
        EndsConcat([Allocate] + acquired, [end] + released + [Free]);
      }
    }
  }

  /** The first entry of the current priority that succeeds continues the chain, and no other does. */
  predicate First(c: Setup, entries: seq<Entry>, answers: seq<Answer>, i: nat)
    requires |answers| == |entries| && i < |entries|
  {
    entries[i].priority == c.current && !Continued(c, entries[..i], answers[..i])
  }

  function Fate(c: Setup, entries: seq<Entry>, answers: seq<Answer>, i: nat): Event
    requires |answers| == |entries| && i < |entries|
  {
    if Succeeds(c, answers[i]) then Schedule(entries[i], First(c, entries, answers, i)) else Fail(entries[i])
  }

  /** Exactly once, in order: each entry comes to one end, success if there is a result, memory and room. */
  lemma {:induction false} EachOnce(c: Setup, entries: seq<Entry>, answers: seq<Answer>)
    requires |answers| == |entries|
    ensures |Ends(HandleAll(c, entries, answers))| == |entries|
    ensures forall i :: 0 <= i < |entries| ==>
      Ends(HandleAll(c, entries, answers))[i] == Fate(c, entries, answers, i)
  {
    hide Ends, Handle, Continued, Succeeds;
    if entries == [] {
      NoEnds();
    } else {
      var n := |entries| - 1;
      var es, xs := entries[..n], answers[..n];
      EachOnce(c, es, xs);
      EndsConcat(HandleAll(c, es, xs), Handle(c, Continued(c, es, xs), entries[n], answers[n]));
      HandleEnds(c, Continued(c, es, xs), entries[n], answers[n]);
      forall i | 0 <= i < n ensures First(c, entries, answers, i) == First(c, es, xs, i) {
        assert es[..i] == entries[..i] && xs[..i] == answers[..i];
      }
    }
  }

  lemma NoEnds()
    ensures Ends([]) == []
  {
  }

  /** At most one entry continues the chain. */
  lemma OneContinuation(c: Setup, entries: seq<Entry>, answers: seq<Answer>, i: nat, j: nat)
    requires |answers| == |entries| && i < j < |entries|
    ensures Succeeds(c, answers[i]) && First(c, entries, answers, i) ==> !First(c, entries, answers, j)
  {
    if Succeeds(c, answers[i]) && First(c, entries, answers, i) {
      assert entries[..j][i] == entries[i] && answers[..j][i] == answers[i];
    }
  }

  /** How many entries succeed. */
  function Successes(c: Setup, answers: seq<Answer>): nat {
    if answers == [] then 0 else
    var n := |answers| - 1;
    Successes(c, answers[..n]) + if Succeeds(c, answers[n]) then 1 else 0
  }

  lemma HandleCounts(c: Setup, continued: bool, e: Entry, a: Answer)
    ensures var log := Handle(c, continued, e, a); var one := if Succeeds(c, a) then 1 else 0;
      && Count(log, Allocate) == Count(log, Free) + one
      && (c.acquire == c.release ==> Count(log, Acquire) == Count(log, Release) + if c.acquire then one else 0)
  {
    hide Count;
    var end := End(c, continued, e, a);
    var none: seq<Event> := [];
    var acquired := if c.acquire then [Acquire] else none;
    var released := if c.release then [Release] else none;
    forall d: Event ensures Count([], d) == 0 { CountNone(d); }
    forall d: Event, f: Event ensures Count([d], f) == if d == f then 1 else 0 { CountOne(d, f); }
    if c.result && a.memory {
      forall d: Event ensures Count(Handle(c, continued, e, a), d) ==
        Count([Allocate], d) + Count(acquired, d) + Count([end], d) +
          (if a.accepted then 0 else Count(released, d) + Count([Free], d)) {
        CountConcat([Allocate], acquired, d);
        if a.accepted {
          CountConcat([Allocate] + acquired, [end], d);
        } else {
          CountConcat([end], released, d);
          CountConcat([end] + released, [Free], d);
          CountConcat([Allocate] + acquired, [end] + released + [Free], d);
        }
      }
    }
  }

  lemma CountNone(e: Event)
    ensures Count([], e) == 0
  {
  }

  // The order of events.

  /** What comes directly before each event: a task is scheduled only with its argument allocated and its result held,
      and a failed one gives both back only after its handler has run. */
  ghost predicate Preceded(c: Setup, log: seq<Event>, k: nat)
    requires k < |log|
  {
    match log[k]
    case Schedule(_, _) => k > 0 && log[k - 1] == if c.acquire then Acquire else Allocate
    case Acquire => k > 0 && log[k - 1] == Allocate
    case Release => k > 0 && log[k - 1].Fail?
    case Free => k > 0 && if c.release then log[k - 1] == Release else log[k - 1].Fail?
    case _ => true
  }

  ghost predicate InOrder(c: Setup, log: seq<Event>) {
    forall k: nat :: k < |log| ==> Preceded(c, log, k)
  }

  lemma OrderConcat(c: Setup, x: seq<Event>, y: seq<Event>)
    requires InOrder(c, x) && InOrder(c, y)
    ensures InOrder(c, x + y)
  {
    forall k: nat | k < |x + y| ensures Preceded(c, x + y, k) {
      if k < |x| {
        assert Preceded(c, x, k);
      } else {
        assert Preceded(c, y, k - |x|);
      }
    }
  }

  /** Whatever happens, every event of a backlog comes in its order. */
  lemma {:induction false} AllInOrder(c: Setup, entries: seq<Entry>, answers: seq<Answer>)
    requires |answers| == |entries|
    ensures InOrder(c, HandleAll(c, entries, answers))
  {
    hide Continued, InOrder, Handle;
    if entries == [] {
      NothingOutOfOrder(c);
    } else {
      var n := |entries| - 1;
      var continued := Continued(c, entries[..n], answers[..n]);
      AllInOrder(c, entries[..n], answers[..n]);
      HandleInOrder(c, continued, entries[n], answers[n]);
      OrderConcat(c, HandleAll(c, entries[..n], answers[..n]), Handle(c, continued, entries[n], answers[n]));
    }
  }

  lemma NothingOutOfOrder(c: Setup)
    ensures InOrder(c, [])
  {
  }

  lemma HandleInOrder(c: Setup, continued: bool, e: Entry, a: Answer)
    ensures InOrder(c, Handle(c, continued, e, a))
  {
  }

  /** The tasks scheduled so far. */
  function Scheduled(log: seq<Event>): nat {
    if log == [] then 0 else Scheduled(log[..|log| - 1]) + if log[|log| - 1].Schedule? then 1 else 0
  }

  /** At every moment, also between two events of an entry, each scheduled task has its own argument and holds the
      result. */
  ghost predicate Safe(c: Setup, log: seq<Event>) {
    forall k: nat {:trigger log[..k]} :: k <= |log| ==>
      && Count(log[..k], Allocate) >= Count(log[..k], Free) + Scheduled(log[..k])
      && (c.acquire && c.release ==> Count(log[..k], Acquire) >= Count(log[..k], Release) + Scheduled(log[..k]))
  }

  lemma {:induction false} ScheduledConcat(x: seq<Event>, y: seq<Event>)
    ensures Scheduled(x + y) == Scheduled(x) + Scheduled(y)
  {
    if y == [] {
      assert x + y == x;
    } else {
      assert (x + y)[..|x + y| - 1] == x + y[..|y| - 1];
      ScheduledConcat(x, y[..|y| - 1]);
    }
  }

  lemma SafeConcat(c: Setup, x: seq<Event>, y: seq<Event>)
    requires Safe(c, x) && Safe(c, y)
    ensures Safe(c, x + y)
  {
    hide Count, Scheduled;
    var log := x + y;
    assert x[..|x|] == x;
    forall k: nat {:trigger log[..k]} | k <= |log|
      ensures Count(log[..k], Allocate) >= Count(log[..k], Free) + Scheduled(log[..k])
      ensures c.acquire && c.release ==> Count(log[..k], Acquire) >= Count(log[..k], Release) + Scheduled(log[..k])
    {
      if k <= |x| {
        assert log[..k] == x[..k];
      } else {
        var z := y[..k - |x|];
        assert log[..k] == x + z;
        CountConcat(x, z, Allocate);
        CountConcat(x, z, Free);
        CountConcat(x, z, Acquire);
        CountConcat(x, z, Release);
        ScheduledConcat(x, z);
      }
    }
  }

  /** Arguments and results beyond those of the scheduled tasks. */
  function Kept(log: seq<Event>): int { Count(log, Allocate) - Count(log, Free) - Scheduled(log) }

  function Held(log: seq<Event>): int { Count(log, Acquire) - Count(log, Release) - Scheduled(log) }

  lemma SafePush(c: Setup, log: seq<Event>, e: Event)
    requires Safe(c, log) && Kept(log) >= (if e.Free? || e.Schedule? then 1 else 0)
    requires c.acquire && c.release ==> Held(log) >= if e.Release? || e.Schedule? then 1 else 0
    ensures Safe(c, log + [e])
    ensures Kept(log + [e]) == Kept(log) + if e.Allocate? then 1 else if e.Free? || e.Schedule? then -1 else 0
    ensures Held(log + [e]) == Held(log) + if e.Acquire? then 1 else if e.Release? || e.Schedule? then -1 else 0
  {
    var more := log + [e];
    assert more[..|log|] == log && more[..|more|] == more;
    forall k: nat {:trigger more[..k]} | k <= |more|
      ensures Count(more[..k], Allocate) >= Count(more[..k], Free) + Scheduled(more[..k])
      ensures c.acquire && c.release ==> Count(more[..k], Acquire) >= Count(more[..k], Release) + Scheduled(more[..k])
    {
      if k <= |log| { assert more[..k] == log[..k]; }
    }
  }

  lemma HandleSafe(c: Setup, continued: bool, e: Entry, a: Answer)
    ensures Safe(c, Handle(c, continued, e, a))
  {
    hide Kept, Held, Safe;
    var log: seq<Event>, end := [], End(c, continued, e, a);
    NothingUnsafe(c);
    if !c.result || !a.memory {
      SafePush(c, log, end);
      assert log + [end] == Handle(c, continued, e, a);
    } else {
      SafePush(c, log, Allocate);
      log := log + [Allocate];
      if c.acquire {
        SafePush(c, log, Acquire);
        log := log + [Acquire];
      }
      SafePush(c, log, end);
      log := log + [end];
      if !a.accepted {
        if c.release {
          SafePush(c, log, Release);
          log := log + [Release];
        }
        SafePush(c, log, Free);
        log := log + [Free];
      }
      assert log == Handle(c, continued, e, a);
    }
  }

  lemma {:induction false} AlwaysSafe(c: Setup, entries: seq<Entry>, answers: seq<Answer>)
    requires |answers| == |entries|
    ensures Safe(c, HandleAll(c, entries, answers))
  {
    hide Continued, Safe, Handle;
    if entries == [] {
      NothingUnsafe(c);
    } else {
      var n := |entries| - 1;
      var continued := Continued(c, entries[..n], answers[..n]);
      AlwaysSafe(c, entries[..n], answers[..n]);
      HandleSafe(c, continued, entries[n], answers[n]);
      SafeConcat(c, HandleAll(c, entries[..n], answers[..n]), Handle(c, continued, entries[n], answers[n]));
    }
  }

  lemma NothingUnsafe(c: Setup)
    ensures Safe(c, []) && Kept([]) == 0 && Held([]) == 0
  {
  }

  /** Conservation: arguments kept and results held are those of the scheduled tasks. */
  lemma {:induction false} Balanced(c: Setup, entries: seq<Entry>, answers: seq<Answer>)
    requires |answers| == |entries|
    ensures var log, n := HandleAll(c, entries, answers), Successes(c, answers);
      && Count(log, Allocate) == Count(log, Free) + n
      && (c.acquire == c.release ==> Count(log, Acquire) == Count(log, Release) + if c.acquire then n else 0)
  {
    hide Count, Handle, Succeeds;
    if entries == [] {
      forall d: Event ensures Count([], d) == 0 { CountNone(d); }
    } else {
      var n := |entries| - 1;
      var continued := Continued(c, entries[..n], answers[..n]);
      Balanced(c, entries[..n], answers[..n]);
      HandleCounts(c, continued, entries[n], answers[n]);
      forall d: Event ensures Count(HandleAll(c, entries, answers), d) ==
        Count(HandleAll(c, entries[..n], answers[..n]), d) + Count(Handle(c, continued, entries[n], answers[n]), d) {
        CountConcat(HandleAll(c, entries[..n], answers[..n]), Handle(c, continued, entries[n], answers[n]), d);
      }
    }
  }

  // The list of blocks.

  class Block {
    const entries: array<Entry>
    var count: nat
    var next: Block?

    /** tc_task_backlog_block_new() with memory at hand. */
    constructor ()
      ensures entries.Length == SIZE && count == 0 && next == null && fresh(entries)
    {
      entries := new Entry[SIZE](_ => Entry(0, 0, 0, 0, 0));
      count, next := 0, null;
    }
  }

  class Backlog {
    var head: Block?
    var tail: Block?
    ghost var blocks: seq<Block>
    ghost var list: seq<Entry>

    constructor ()
      ensures Valid() && list == [] && fresh(Repr())
    {
      head, tail, blocks, list := null, null, [], [];
    }

    ghost function Repr(): set<object>
      reads this
    {
      (set i | 0 <= i < |blocks| :: blocks[i] as object) + (set i | 0 <= i < |blocks| :: blocks[i].entries as object)
    }

    /** Block i holds its piece of the list; all but the last are full. */
    ghost predicate Holds(i: nat)
      reads this, blocks, set j | 0 <= j < |blocks| :: blocks[j].entries
      requires i < |blocks|
    {
      && blocks[i].entries.Length == SIZE && blocks[i].count <= SIZE
      && SIZE * i + blocks[i].count <= |list|
      && blocks[i].entries[..blocks[i].count] == list[SIZE * i..SIZE * i + blocks[i].count]
      && (i + 1 < |blocks| ==> blocks[i].count == SIZE && blocks[i].next == blocks[i + 1])
      && (i + 1 == |blocks| ==> blocks[i].count >= 1 && blocks[i].next == null && |list| == SIZE * i + blocks[i].count)
    }

    ghost predicate Apart()
      reads this
    {
      && (forall i, j :: 0 <= i < j < |blocks| ==> blocks[i] != blocks[j])
      && (forall i, j :: 0 <= i < j < |blocks| ==> blocks[i].entries != blocks[j].entries)
    }

    ghost predicate Valid()
      reads this, blocks, set j | 0 <= j < |blocks| :: blocks[j].entries
    {
      && Apart()
      && (head == null <==> blocks == []) && (tail == null <==> blocks == [])
      && (blocks == [] ==> list == [])
      && (blocks != [] ==> head == blocks[0] && tail == blocks[|blocks| - 1])
      && forall i: nat :: i < |blocks| ==> Holds(i)
    }

    /** tc_task_backlog_push(): appends, unless a block is needed and there is no memory; then nothing changes. */
    method Push(entry: Entry, memory: bool) returns (ok: bool)
      requires Valid()
      modifies this, blocks, set j | 0 <= j < |blocks| :: blocks[j].entries
      ensures Valid() && (ok <==> memory || |old(list)| % 32 != 0)
      ensures list == if ok then old(list) + [entry] else old(list)
      ensures fresh(Repr() - old(Repr()))
    {
      Part(list);
      if head == null {
        if !memory { return false; }
        Start(entry);
      } else if tail.count == SIZE {
        if !memory { return false; }
        Extend(entry);
      } else {
        Append(entry);
      }
      ok := true;
    }

    lemma Part(l: seq<Entry>)
      requires Valid() && l == list
      ensures head != null ==> tail.count <= SIZE
      ensures |l| % SIZE != 0 <==> head != null && tail.count != SIZE
    {
      if head != null {
        var i := |blocks| - 1;
        assert Holds(i);
        assert |l| == SIZE * i + tail.count;
      }
    }

    /** The last block has room. */
    method Append(entry: Entry)
      requires Valid() && tail != null && tail.count < SIZE
      modifies this`list, tail`count, tail.entries
      ensures Valid() && list == old(list) + [entry] && blocks == old(blocks)
    {
      ghost var n := |blocks| - 1;
      assert tail == blocks[n] && Holds(n);
      ghost var was := tail.entries[..tail.count];
      tail.entries[tail.count] := entry;
      tail.count := tail.count + 1;
      list := list + [entry];
      assert tail.entries[..tail.count] == was + [entry];
      forall i: nat | i < |blocks| ensures Holds(i) {
        assert old(Holds(i));
        if i < n {
          assert list[SIZE * i..SIZE * i + SIZE] == old(list)[SIZE * i..SIZE * i + SIZE];
        } else {
          assert list[SIZE * i..SIZE * i + tail.count] == old(list)[SIZE * i..] + [entry];
        }
      }
    }

    /** The first block. */
    method Start(entry: Entry)
      requires Valid() && head == null
      modifies this
      ensures Valid() && list == [entry] && fresh(Repr())
    {
      var block := new Block();
      block.entries[0] := entry;
      block.count := 1;
      head, tail := block, block;
      list, blocks := [entry], [block];
      assert block.entries[..1] == [entry];
    }

    /** Every block holds its piece once a block with the entry is linked in. */
    twostate lemma Kept(new block: Block, entry: Entry)
      requires old(Valid()) && old(blocks) != [] && old(tail.count) == SIZE
      requires blocks == old(blocks) + [block] && list == old(list) + [entry]
      requires forall i :: 0 <= i < |old(blocks)| ==>
        unchanged(blocks[i].entries) && blocks[i].count == old(blocks[i].count)
      requires forall i :: 0 <= i < |old(blocks)| - 1 ==> blocks[i].next == old(blocks[i].next)
      requires old(tail).next == block
      requires block.entries.Length == SIZE && block.entries[0] == entry && block.count == 1 && block.next == null
      ensures forall i: nat :: i < |blocks| ==> Holds(i)
    {
      var n := |old(blocks)|;
      assert old(Holds(n - 1));
      forall i: nat | i < |old(blocks)| ensures Holds(i) {
        assert old(Holds(i));
        assert list[SIZE * i..SIZE * i + SIZE] == old(list)[SIZE * i..SIZE * i + SIZE];
      }
      assert Holds(n) by {
        assert block.entries[..1] == [entry] == list[SIZE * n..SIZE * n + 1];
      }
    }

    /** A new block after the full last one. */
    method Extend(entry: Entry)
      requires Valid() && head != null && tail.count == SIZE
      modifies `tail, `blocks, `list, tail`next
      ensures Valid() && list == old(list) + [entry] && fresh(Repr() - old(Repr()))
    {
      hide Holds;
      var block := new Block();
      block.entries[0] := entry;
      block.count := 1;
      tail.next := block;
      tail := block;
      list, blocks := list + [entry], blocks + [block];
      Kept(block, entry);
    }

    /** tc_task_schedule_backlog(): every entry in order, whatever the answers. */
    method ScheduleBacklog(c: Setup, answers: seq<Answer>) returns (log: seq<Event>)
      requires Valid() && |answers| == |list|
      ensures log == HandleAll(c, list, answers)
    {
      hide Handle, HandleAll, Continued, Succeeds;
      NothingYet(c);
      var block, continued, n := head, false, 0;
      ghost var k: nat := 0;
      log := [];
      while block != null
        invariant k <= |blocks| && block == (if k < |blocks| then blocks[k] else null)
        invariant n <= |list| && n == if k < |blocks| then SIZE * k else |list|
        invariant log == HandleAll(c, list[..n], answers[..n]) && continued == Continued(c, list[..n], answers[..n])
        decreases |blocks| - k
      {
        assert Holds(k);
        for i := 0 to block.count
          invariant n == SIZE * k + i <= |list|
          invariant log == HandleAll(c, list[..n], answers[..n]) && continued == Continued(c, list[..n], answers[..n])
        {
          assert block.entries[..block.count][i] == list[n];
          var events;
          OneMore(c, list, answers, n);
          events, continued := HandleOne(c, continued, block.entries[i], answers[n]);
          log := log + events;
          n := n + 1;
        }
        block := block.next;
        k := k + 1;
      }
      assert list[..n] == list && answers[..n] == answers;
    }
  }

  lemma NothingYet(c: Setup)
    ensures HandleAll(c, [], []) == [] && !Continued(c, [], [])
  {
  }

  lemma OneMore(c: Setup, entries: seq<Entry>, answers: seq<Answer>, n: nat)
    requires |answers| == |entries| && n < |entries|
    ensures HandleAll(c, entries[..n + 1], answers[..n + 1]) ==
      HandleAll(c, entries[..n], answers[..n]) + Handle(c, Continued(c, entries[..n], answers[..n]), entries[n],
        answers[n])
    ensures Continued(c, entries[..n + 1], answers[..n + 1]) <==>
      Continued(c, entries[..n], answers[..n]) || (entries[n].priority == c.current && Succeeds(c, answers[n]))
  {
    hide Handle, Succeeds;
    var es, xs := entries[..n + 1], answers[..n + 1];
    assert es[..n] == entries[..n] && xs[..n] == answers[..n];
    if Continued(c, entries[..n], answers[..n]) {
      var i :| 0 <= i < n && entries[..n][i].priority == c.current && Succeeds(c, answers[..n][i]);
      assert es[i].priority == c.current && Succeeds(c, xs[i]);
    }
    if entries[n].priority == c.current && Succeeds(c, answers[n]) {
      assert es[n].priority == c.current && Succeeds(c, xs[n]);
    }
    if Continued(c, es, xs) {
      var i :| 0 <= i < n + 1 && es[i].priority == c.current && Succeeds(c, xs[i]);
      if i < n { assert entries[..n][i].priority == c.current && Succeeds(c, answers[..n][i]); }
    }
  }

  /** The body of the loop in tc_task_schedule_backlog(). */
  method HandleOne(c: Setup, continued: bool, e: Entry, a: Answer) returns (log: seq<Event>, continued': bool)
    ensures log == Handle(c, continued, e, a)
    ensures continued' <==> continued || (e.priority == c.current && Succeeds(c, a))
  {
    continued' := continued;
    if !c.result { return [Fail(e)], continued; }
    if !a.memory { return [Fail(e)], continued; }
    log := [Allocate];
    if c.acquire { log := log + [Acquire]; }
    if e.priority == c.current && !continued {
      if !a.accepted {
        log := log + Undo(c, e);
        return;
      }
      log := log + [Schedule(e, true)];
      continued' := true;
      return;
    }
    if !a.accepted {
      log := log + Undo(c, e);
      return;
    }
    log := log + [Schedule(e, false)];
  }

  /** The error path after a refused task. */
  function Undo(c: Setup, e: Entry): seq<Event> {
    [Fail(e)] + (if c.release then [Release] else []) + [Free]
  }

  /** tc_task_backlog_invoke_handler(): as for a backlog of one entry; with the invalid priority no chain is
      continued. */
  method InvokeHandler(c: Setup, e: Entry, a: Answer) returns (log: seq<Event>)
    ensures c.current != NO_PRIORITY ==> log == HandleAll(c, [e], [a])
    ensures c.current == NO_PRIORITY ==> log == Handle(c, true, e, a)
  {
    hide HandleAll;
    OnlyOne(c, e, a);
    if !c.result { return [Fail(e)]; }
    if !a.memory { return [Fail(e)]; }
    log := [Allocate];
    if c.acquire { log := log + [Acquire]; }
    if c.current != NO_PRIORITY && c.current == e.priority {
      log := log + if a.accepted then [Schedule(e, true)] else Undo(c, e);
    } else {
      log := log + if a.accepted then [Schedule(e, false)] else Undo(c, e);
    }
  }

  lemma OnlyOne(c: Setup, e: Entry, a: Answer)
    ensures HandleAll(c, [e], [a]) == Handle(c, false, e, a)
  {
    hide Handle;
    assert [e][..0] == [] && [a][..0] == [];
    assert HandleAll(c, [], []) == [];
    assert [] + Handle(c, false, e, a) == Handle(c, false, e, a);
  }
}
