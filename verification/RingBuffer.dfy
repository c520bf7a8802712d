/** The task buffers of src/thread_pool.c: a ring that refines a first-in first-out sequence. One slot
    always stays free, so that a full ring differs from an empty one. */
module RingBuffer {
  /** A tc_thread_pool_context_t. */
  datatype Task = Task(func: nat, arg: nat, priority: nat, generation: int)

  datatype Popped = NoTask | Some(task: Task)

  lemma Wrap(x: nat, n: nat)
    requires n > 0
    ensures x < n ==> x % n == x
    ensures n <= x < 2 * n ==> x % n == x - n
  {
    if n <= x < 2 * n { assert x == 1 * n + (x - n); }
  }

  class Ring {
    const buffer: array<Task>
    var head: nat
    var tail: nat

    ghost predicate Valid()
      reads this
    {
      buffer.Length >= 1 && head < buffer.Length && tail < buffer.Length
    }

    /** The queued tasks, the oldest first. */
    ghost function Contents(): (s: seq<Task>)
      reads this, buffer
      requires Valid()
      ensures |s| < buffer.Length
    {
      if tail <= head then buffer[tail..head] else buffer[tail..] + buffer[..head]
    }

    constructor (capacity: nat)
      requires capacity >= 1
      ensures Valid() && Contents() == [] && buffer.Length == capacity && fresh(buffer)
    {
      buffer := new Task[capacity](_ => Task(0, 0, 0, 0));
      head, tail := 0, 0;
    }

    /** task_buffer_remaining_capacity() */
    method Remaining() returns (n: nat)
      requires Valid()
      ensures n == buffer.Length - 1 - |Contents()|
    {
      Wrap(head + buffer.Length - tail, buffer.Length);
      var used := (head + buffer.Length - tail) % buffer.Length;
      n := buffer.Length - 1 - used;
    }

    /** task_buffer_is_empty() */
    method IsEmpty() returns (b: bool)
      requires Valid()
      ensures b <==> Contents() == []
    {
      b := head == tail;
    }

    /** The end of task_buffer_enqueue(): store the task unless the ring is full. */
    method Push(task: Task) returns (ok: bool)
      requires Valid()
      modifies `head, buffer
      ensures Valid() && (ok <==> |old(Contents())| < buffer.Length - 1)
      ensures Contents() == if ok then old(Contents()) + [task] else old(Contents())
    {
      Wrap(head + 1, buffer.Length);
      var next := (head + 1) % buffer.Length;
      if next == tail { return false; }
      buffer[head] := task;
      head := next;
      ok := true;
    }

    /** task_buffer_dequeue(): the oldest task, or the invalid one from an empty ring. */
    method Pop() returns (r: Popped)
      requires Valid()
      modifies `tail
      ensures Valid() && (r.NoTask? <==> old(Contents()) == [])
      ensures r.NoTask? ==> Contents() == old(Contents())
      ensures r.Some? ==> old(Contents()) == [r.task] + Contents()
    {
      if head == tail { return NoTask; }
      r := Some(buffer[tail]);
      Wrap(tail + 1, buffer.Length);
      tail := (tail + 1) % buffer.Length;
    }
  }
}
