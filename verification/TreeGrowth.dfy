/** What every merge of build_tree() in zlib/trees.c keeps: nodes still in the heap, and nodes already
    paired off at the end of heap[], each with its father. */
module TreeGrowth {
  import opened TreeShape
  import opened BitLengths

  /** After `made` merges over the given leaves: nodes are still in the heap, and place says where a
      paired node sits (beyond heap[] if it does not). */
  datatype Grove = Grove(elems: nat, maxCode: nat, leaves: set<nat>, made: nat, nodes: set<nat>, place: seq<nat>)

  ghost function Top(g: Grove): int { HEAP_SIZE - 2 * g.made }

  /** The father of the pair that ends at or contains heap index i. */
  ghost function Father(g: Grove, i: nat): nat
    requires i < HEAP_SIZE
  {
    g.elems + (HEAP_SIZE - 1 - i) / 2
  }

  ghost predicate Paired(g: Grove, heap: seq<nat>, x: nat) {
    x < |g.place| && Top(g) <= g.place[x] < HEAP_SIZE == |heap| && heap[g.place[x]] == x
  }

  ghost predicate PairOk(g: Grove, heap: seq<nat>, dl: seq<nat>, i: nat)
    requires i < HEAP_SIZE == |heap|
  {
    var x := heap[i];
    && x < |dl| && x < |g.place| && x !in g.nodes && g.place[x] == i && dl[x] == Father(g, i)
    && (x in g.leaves || g.elems <= x < Father(g, i))
  }

  ghost predicate Grown(g: Grove, heap: seq<nat>, dl: seq<nat>) {
    && |heap| == HEAP_SIZE && 0 <= Top(g) && g.maxCode < g.elems && g.elems + g.made <= |g.place| == |dl|
    && (forall x :: x in g.leaves ==> x <= g.maxCode)
    && (forall i: nat :: Top(g) <= i < HEAP_SIZE ==> PairOk(g, heap, dl, i))
    && (forall x :: g.elems <= x < g.elems + g.made ==> x in g.nodes || Paired(g, heap, x))
    && (forall x :: x in g.leaves ==> x in g.nodes || Paired(g, heap, x))
    && (forall x :: x in g.nodes ==> x in g.leaves || g.elems <= x < g.elems + g.made)
    && (forall n :: 0 <= n < g.elems && n !in g.leaves ==> g.place[n] >= HEAP_SIZE && dl[n] == 0)
  }

  /** Pairing n and m under a new node. */
  ghost function Merged(g: Grove, n: nat, m: nat): Grove
    requires n < |g.place| && m < |g.place| && Top(g) >= 2
  {
    g.(made := g.made + 1, nodes := g.nodes - {n, m} + {g.elems + g.made},
      place := g.place[n := Top(g) - 1][m := Top(g) - 2])
  }

  /** Only the end of heap[] matters. */
  lemma GrownFrame(g: Grove, heap: seq<nat>, heap': seq<nat>, dl: seq<nat>)
    requires Grown(g, heap, dl) && |heap'| == HEAP_SIZE && forall i :: Top(g) <= i < HEAP_SIZE ==> heap'[i] == heap[i]
    ensures Grown(g, heap', dl)
  {
    forall i: nat | Top(g) <= i < HEAP_SIZE ensures PairOk(g, heap', dl, i) { assert PairOk(g, heap, dl, i); }
    forall x | x in g.leaves || g.elems <= x < g.elems + g.made ensures x in g.nodes || Paired(g, heap', x) {
      assert x in g.nodes || Paired(g, heap, x);
    }
  }

  lemma PairsMerge(g: Grove, heap: seq<nat>, dl: seq<nat>, n: nat, m: nat, i: nat)
    requires Grown(g, heap, dl) && n in g.nodes && m in g.nodes && n != m && Top(g) >= 2 && g.elems + g.made < |dl|
    requires Top(g) - 2 <= i < HEAP_SIZE && n < |dl| && m < |dl|
    ensures var top, x := Top(g), g.elems + g.made;
      PairOk(Merged(g, n, m), heap[top - 1 := n][top - 2 := m], dl[n := x][m := x], i)
  {
    if i >= Top(g) { assert PairOk(g, heap, dl, i); }
  }

  lemma CoveredMerge(g: Grove, heap: seq<nat>, dl: seq<nat>, n: nat, m: nat, y: nat)
    requires Grown(g, heap, dl) && n in g.nodes && m in g.nodes && n != m && Top(g) >= 2 && g.elems + g.made < |dl|
    requires (y in g.leaves || g.elems <= y < g.elems + g.made) && n < |dl| && m < |dl|
    ensures y in Merged(g, n, m).nodes || Paired(Merged(g, n, m), heap[Top(g) - 1 := n][Top(g) - 2 := m], y)
  {
    assert y in g.nodes || Paired(g, heap, y);
  }

  lemma GrownMerge(g: Grove, heap: seq<nat>, dl: seq<nat>, n: nat, m: nat)
    requires Grown(g, heap, dl) && n in g.nodes && m in g.nodes && n != m && Top(g) >= 2 && g.elems + g.made < |dl|
    ensures n < |dl| == |g.place| && m < |dl|
    ensures var top, x := Top(g), g.elems + g.made;
      Grown(Merged(g, n, m), heap[top - 1 := n][top - 2 := m], dl[n := x][m := x])
  {
    hide PairOk, Paired;
    var top, x, g' := Top(g), g.elems + g.made, Merged(g, n, m);
    var heap', dl' := heap[top - 1 := n][top - 2 := m], dl[n := x][m := x];
    forall i: nat | Top(g') <= i < HEAP_SIZE ensures PairOk(g', heap', dl', i) { PairsMerge(g, heap, dl, n, m, i); }
    forall y | y in g.leaves || g.elems <= y < x ensures y in g'.nodes || Paired(g', heap', y) {
      CoveredMerge(g, heap, dl, n, m, y);
    }
  }

  /** The tree left when only the root is in the heap. */
  ghost function Finished(g: Grove, heap: seq<nat>): Shape
    requires g.made >= 1 && |heap| == HEAP_SIZE && 1 <= Top(g) && g.elems + g.made <= |g.place|
  {
    var top, root := Top(g) - 1, g.elems + g.made - 1;
    Shape(g.elems, g.maxCode, g.made, heap[top := root][top..],
          seq(g.elems + g.made, x requires 0 <= x < g.elems + g.made =>
            if x == root then 0 else if top <= g.place[x] then g.place[x] - top else 0))
  }

  lemma FinishedAt(g: Grove, heap: seq<nat>, dl: seq<nat>, p: nat)
    requires Grown(g, heap, dl) && g.nodes == {g.elems + g.made - 1} && g.made >= 1 && 1 <= Top(g)
    requires 1 <= p <= 2 * g.made
    ensures var t := Finished(g, heap);
      |t.order| == 2 * g.made + 1 && t.order[p] == heap[Top(g) - 1 + p] && PairOk(g, heap, dl, Top(g) - 1 + p)
      && Father(g, Top(g) - 1 + p) == Dad(t, p)
  {
  }

  lemma FinishedOrder(g: Grove, heap: seq<nat>, dl: seq<nat>, p: nat)
    requires Grown(g, heap, dl) && g.nodes == {g.elems + g.made - 1} && g.made >= 1 && 1 <= Top(g) && p <= 2 * g.made
    ensures var t := Finished(g, heap);
      t.order[p] < |t.pos| && t.pos[t.order[p]] == p && (t.order[p] <= t.maxCode || t.order[p] >= t.elems)
      && (p > 0 ==> dl[t.order[p]] == Dad(t, p))
  {
    if p > 0 { FinishedAt(g, heap, dl, p); }
  }

  lemma FinishedInner(g: Grove, heap: seq<nat>, dl: seq<nat>, x: nat)
    requires Grown(g, heap, dl) && g.nodes == {g.elems + g.made - 1} && g.made >= 1 && 1 <= Top(g)
    requires g.elems <= x < g.elems + g.made
    ensures InnerOk(Finished(g, heap), x)
  {
    var t := Finished(g, heap);
    if x != g.elems + g.made - 1 {
      assert Paired(g, heap, x);
      FinishedAt(g, heap, dl, t.pos[x]);
    }
  }

  lemma FinishedShape(g: Grove, heap: seq<nat>, dl: seq<nat>)
    requires Grown(g, heap, dl) && g.nodes == {g.elems + g.made - 1} && g.made >= 1 && 1 <= Top(g)
    ensures g.elems + g.made <= |g.place| == |dl|
    ensures var t := Finished(g, heap);
      ShapeOk(t) && Fathered(t, dl)
  {
    hide PairOk, InnerOk;
    var t := Finished(g, heap);
    forall p | 0 <= p < |t.order|
      ensures t.order[p] < |t.pos| && t.pos[t.order[p]] == p && (t.order[p] <= t.maxCode || t.order[p] >= t.elems)
      ensures p > 0 ==> dl[t.order[p]] == Dad(t, p)
    {
      FinishedOrder(g, heap, dl, p);
    }
    forall x | t.elems <= x < t.elems + t.inner ensures InnerOk(t, x) { FinishedInner(g, heap, dl, x); }
    forall n | 0 <= n <= t.maxCode && t.pos[n] < |t.order| ensures t.order[t.pos[n]] == n {
      assert n in g.leaves ==> Paired(g, heap, n);
    }
  }
}
