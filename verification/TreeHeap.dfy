/** The priority queue of build_tree() in zlib/trees.c: pqdownheap() on heap[1 .. heap_len]. */
module TreeHeap {
  /** smaller(): by frequency, then by depth. */
  predicate Smaller(freq: seq<nat>, depth: seq<nat>, n: nat, m: nat)
    requires n < |freq| && m < |freq| && n < |depth| && m < |depth|
  {
    freq[n] < freq[m] || (freq[n] == freq[m] && depth[n] <= depth[m])
  }

  ghost predicate Indexed(heap: seq<nat>, len: nat, freq: seq<nat>, depth: seq<nat>) {
    && len < |heap| && |freq| <= |depth|
    && forall i :: 1 <= i <= len ==> heap[i] < |freq|
  }

  /** The father at i is not larger than its sons. */
  ghost predicate FatherOk(heap: seq<nat>, len: nat, freq: seq<nat>, depth: seq<nat>, i: nat)
    requires Indexed(heap, len, freq, depth) && 1 <= i
  {
    && (2 * i <= len ==> Smaller(freq, depth, heap[i], heap[2 * i]))
    && (2 * i + 1 <= len ==> Smaller(freq, depth, heap[i], heap[2 * i + 1]))
  }

  /** The heap property for all fathers from k on. */
  ghost predicate HeapedFrom(heap: seq<nat>, len: nat, freq: seq<nat>, depth: seq<nat>, k: nat)
    requires Indexed(heap, len, freq, depth) && 1 <= k
  {
    forall i :: k <= i ==> FatherOk(heap, len, freq, depth, i)
  }

  /** The heap holds each node of the set once. */
  ghost predicate Holds(heap: seq<nat>, len: nat, nodes: set<nat>) {
    && len < |heap| && |nodes| == len
    && (forall i :: 1 <= i <= len ==> heap[i] in nodes)
    && (forall i, j :: 1 <= i < j <= len ==> heap[i] != heap[j])
  }

  /** While v is held out of its place k: the other places hold the other nodes once. */
  ghost predicate HoldsBut(heap: seq<nat>, len: nat, nodes: set<nat>, k: nat, v: nat) {
    && len < |heap| && |nodes| == len && 1 <= k <= len && v in nodes
    && (forall i :: 1 <= i <= len && i != k ==> heap[i] in nodes && heap[i] != v)
    && (forall i, j :: 1 <= i < j <= len && i != k && j != k ==> heap[i] != heap[j])
  }

  lemma Lift(heap: seq<nat>, len: nat, nodes: set<nat>, k: nat, v: nat, j: nat)
    requires HoldsBut(heap, len, nodes, k, v) && 1 <= j <= len && j != k
    ensures HoldsBut(heap[k := heap[j]], len, nodes, j, v)
  {
  }

  lemma Drop(heap: seq<nat>, len: nat, nodes: set<nat>, k: nat, v: nat)
    requires HoldsBut(heap, len, nodes, k, v)
    ensures Holds(heap[k := v], len, nodes)
  {
  }

  /** Moving the smaller son up keeps every father in order, the son's own place still holding its copy. */
  lemma LiftOrder(heap: seq<nat>, len: nat, freq: seq<nat>, depth: seq<nat>, lo: nat, k: nat, j: nat)
    requires Indexed(heap, len, freq, depth) && 1 <= lo <= k && j in {2 * k, 2 * k + 1} && j <= len
    requires forall i :: lo <= i && (i == k ==> k > lo) ==> FatherOk(heap, len, freq, depth, i)
    requires HeapedFrom(heap, len, freq, depth, lo + 1)
    requires forall s :: s in {2 * k, 2 * k + 1} && s <= len ==> Smaller(freq, depth, heap[j], heap[s])
    requires k > lo ==> Smaller(freq, depth, heap[k / 2], heap[j])
    ensures HeapedFrom(heap[k := heap[j]], len, freq, depth, lo)
  {
    var h := heap[k := heap[j]];
    forall i | lo <= i ensures FatherOk(h, len, freq, depth, i) {
      if i != k { assert FatherOk(heap, len, freq, depth, i); }
    }
  }

  /** Putting v back below a father and above its sons. */
  lemma DropOrder(heap: seq<nat>, len: nat, freq: seq<nat>, depth: seq<nat>, lo: nat, k: nat, v: nat)
    requires Indexed(heap, len, freq, depth) && 1 <= lo <= k <= len && v < |freq|
    requires HeapedFrom(heap, len, freq, depth, lo + 1)
    requires k > lo ==> HeapedFrom(heap, len, freq, depth, lo) && Smaller(freq, depth, heap[k / 2], v)
    requires forall s :: s in {2 * k, 2 * k + 1} && s <= len ==> Smaller(freq, depth, v, heap[s])
    ensures HeapedFrom(heap[k := v], len, freq, depth, lo)
  {
    var h := heap[k := v];
    forall i | lo <= i ensures FatherOk(h, len, freq, depth, i) {
      if i != k && (i > lo || k > lo) { assert FatherOk(heap, len, freq, depth, i); }
    }
  }

  /** No node is less frequent, and none as frequent is less deep. */
  ghost predicate Foremost(freq: seq<nat>, depth: seq<nat>, nodes: set<nat>, n: nat) {
    && n in nodes && (forall x :: x in nodes ==> x < |freq| && x < |depth|)
    && forall x :: x in nodes ==> freq[n] < freq[x] || (freq[n] == freq[x] && depth[n] <= depth[x])
  }

  /** The top of the heap is a least node. */
  lemma {:induction false} TopIsLeast(heap: seq<nat>, len: nat, freq: seq<nat>, depth: seq<nat>, i: nat)
    requires Indexed(heap, len, freq, depth) && HeapedFrom(heap, len, freq, depth, 1) && 1 <= i <= len
    ensures var a, b := heap[1], heap[i];
      freq[a] < freq[b] || (freq[a] == freq[b] && depth[a] <= depth[b])
    decreases i
  {
    if i > 1 {
      TopIsLeast(heap, len, freq, depth, i / 2);
      assert FatherOk(heap, len, freq, depth, i / 2);
    }
  }

  /** pqdownheap(): restores the heap property at k, keeping the nodes. */
  method DownHeap(heap: array<nat>, len: nat, freq: seq<nat>, depth: seq<nat>, start: nat, ghost nodes: set<nat>)
    requires Indexed(heap[..], len, freq, depth) && Holds(heap[..], len, nodes)
    requires 1 <= start <= len && HeapedFrom(heap[..], len, freq, depth, start + 1)
    modifies heap
    ensures Indexed(heap[..], len, freq, depth) && Holds(heap[..], len, nodes)
    ensures HeapedFrom(heap[..], len, freq, depth, start)
    ensures forall i :: len < i < heap.Length ==> heap[i] == old(heap[i])
    ensures heap[0] == old(heap[0])
  {
    hide HeapedFrom, Holds, HoldsBut;
    var k, v := start, heap[start];
    var j := 2 * k;
    assert HoldsBut(heap[..], len, nodes, k, v) by { Hole(heap[..], len, nodes, k); }
    while j <= len
      invariant start <= k <= len && j == 2 * k && v < |freq| && Indexed(heap[..], len, freq, depth)
      invariant HoldsBut(heap[..], len, nodes, k, v) && HeapedFrom(heap[..], len, freq, depth, start + 1)
      invariant k > start ==>
        k / 2 >= start && HeapedFrom(heap[..], len, freq, depth, start) && Smaller(freq, depth, heap[k / 2], v)
      invariant forall i :: len < i < heap.Length ==> heap[i] == old(heap[i])
      invariant heap[0] == old(heap[0])
    {
      if j < len && Smaller(freq, depth, heap[j + 1], heap[j]) { j := j + 1; }
      if Smaller(freq, depth, v, heap[j]) { break; }
      ghost var was: seq<nat> := heap[..];
      Lift(was, len, nodes, k, v, j);
      FathersAbove(was, len, freq, depth, start, k, j);
      LiftOrder(was, len, freq, depth, start, k, j);
      heap[k] := heap[j];
      assert heap[..] == was[k := was[j]];
      Weaken(heap[..], len, freq, depth, start);
      k := j;
      j := 2 * j;
    }
    ghost var was: seq<nat> := heap[..];
    Drop(was, len, nodes, k, v);
    DropOrder(was, len, freq, depth, start, k, v);
    heap[k] := v;
    assert heap[..] == was[k := v];
  }

  lemma Hole(heap: seq<nat>, len: nat, nodes: set<nat>, k: nat)
    requires Holds(heap, len, nodes) && 1 <= k <= len
    ensures HoldsBut(heap, len, nodes, k, heap[k])
  {
  }

  lemma FathersAbove(heap: seq<nat>, len: nat, freq: seq<nat>, depth: seq<nat>, lo: nat, k: nat, j: nat)
    requires Indexed(heap, len, freq, depth) && 1 <= lo <= k && HeapedFrom(heap, len, freq, depth, lo + 1)
    requires k > lo ==> k / 2 >= lo && HeapedFrom(heap, len, freq, depth, lo)
    requires j in {2 * k, 2 * k + 1} && j <= len
    ensures forall i :: lo <= i && (i == k ==> k > lo) ==> FatherOk(heap, len, freq, depth, i)
    ensures k > lo ==> Smaller(freq, depth, heap[k / 2], heap[j])
  {
    if k > lo {
      assert FatherOk(heap, len, freq, depth, k);
      assert FatherOk(heap, len, freq, depth, k / 2);
    }
  }

  lemma Weaken(heap: seq<nat>, len: nat, freq: seq<nat>, depth: seq<nat>, k: nat)
    requires Indexed(heap, len, freq, depth) && 1 <= k && HeapedFrom(heap, len, freq, depth, k)
    ensures HeapedFrom(heap, len, freq, depth, k + 1)
  {
  }
}
