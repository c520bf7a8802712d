/** What breaking ties by depth is for in build_tree() of zlib/trees.c: no code of least cost is less deep than the
    tree. Frequencies within 16 bits keep the depths small. */
module TreeHeight {
  import opened Sums
  import opened TreeShape
  import opened BitLengths
  import opened TreeHeap
  import opened TreeGrowth
  import opened TreeCost
  import opened TreeWeight

  // ----- heights are small -----

  ghost function Fib(n: nat): nat { if n < 2 then n else Fib(n - 1) + Fib(n - 2) }

  lemma {:induction false} FibMono(a: nat, b: nat)
    requires a <= b
    ensures Fib(a) <= Fib(b)
    decreases b
  {
    if a < b && b >= 2 {
      FibMono(a, b - 1);
    }
  }

  lemma FibValue()
    ensures Fib(25) == 75025
  {
    assert Fib(8) == 21 && Fib(9) == 34;
    assert Fib(12) == 144 && Fib(13) == 233;
    assert Fib(16) == 987 && Fib(17) == 1597;
    assert Fib(20) == 6765 && Fib(21) == 10946;
    assert Fib(24) == 46368;
  }

  /** A node that weighs less than 65536 is at most 23 high. */
  lemma LowHeight(h: nat, f: nat)
    requires Fib(h + 1) <= f <= 65535
    ensures h <= 23
  {
    if h > 23 {
      FibMono(25, h + 1);
      FibValue();
    }
  }

  ghost function Weights(freq: seq<nat>, nodes: set<nat>): (r: seq<int>)
    ensures |r| == |freq|
  {
    seq(|freq|, k requires 0 <= k < |freq| => if k in nodes then freq[k] else 0)
  }

  /** A son is less high than its father. */
  ghost predicate Lower(g: Grove, heap: seq<nat>, high: seq<nat>, i: nat)
    requires i < HEAP_SIZE == |heap|
  {
    heap[i] < |high| && Father(g, i) < |high| && high[heap[i]] < high[Father(g, i)]
  }

  /** The nodes weigh `total` together, and weights grow with heights like the Fibonacci numbers. */
  ghost predicate Slender(g: Grove, heap: seq<nat>, freq: seq<nat>, high: seq<nat>, total: int) {
    && |heap| == HEAP_SIZE && |freq| == |high| == |g.place| && Sum(Weights(freq, g.nodes)) == total
    && (forall y :: y in g.nodes ==> y < |freq| && freq[y] >= Fib(high[y] + 1))
    && (forall y, z :: y in g.nodes && z in g.nodes ==> freq[z] >= Fib(high[y]))
    && (forall y :: y in g.leaves ==> y < |freq| && high[y] == 0)
    && (forall i: nat :: Top(g) <= i < HEAP_SIZE ==> Lower(g, heap, high, i))
  }

  lemma {:induction false} SumAtLeast(s: seq<int>, i: nat)
    requires i < |s| && forall k :: 0 <= k < |s| ==> s[k] >= 0
    ensures s[i] <= Sum(s)
  {
    SumUpdate(s, i, 0);
    SumPositive(s[i := 0]);
  }

  lemma HeightBound(g: Grove, heap: seq<nat>, freq: seq<nat>, high: seq<nat>, total: int, y: nat)
    requires Slender(g, heap, freq, high, total) && total <= 65535 && y in g.nodes
    ensures high[y] <= 23
  {
    hide Sum, Fib;
    SumAtLeast(Weights(freq, g.nodes), y);
    LowHeight(high[y], freq[y]);
  }

  lemma WeightsMerge(freq: seq<nat>, nodes: set<nat>, n: nat, m: nat, x: nat)
    requires n in nodes && m in nodes && n != m && x !in nodes && x < |freq| && forall y :: y in nodes ==> y < |freq|
    ensures Sum(Weights(freq[x := freq[n] + freq[m]], nodes - {n, m} + {x})) == Sum(Weights(freq, nodes))
  {
    hide Sum;
    var a := Weights(freq, nodes);
    SumUpdate(a, n, 0);
    SumUpdate(a[n := 0], m, 0);
    SumUpdate(a[n := 0][m := 0], x, freq[n] + freq[m]);
    assert Weights(freq[x := freq[n] + freq[m]], nodes - {n, m} + {x}) == a[n := 0][m := 0][x := freq[n] + freq[m]];
  }

  /** A father weighs as much as its height asks for. */
  lemma FatherWeighs(g: Grove, heap: seq<nat>, freq: seq<nat>, high: seq<nat>, total: int, n: nat, m: nat)
    requires Slender(g, heap, freq, high, total) && n in g.nodes && m in g.nodes
    ensures freq[n] + freq[m] >= Fib(Above(high[n], high[m]) + 1)
    ensures freq[n] >= Fib(Above(high[n], high[m])) || freq[m] >= Fib(Above(high[n], high[m]))
  {
    var k := Above(high[n], high[m]);
    assert Fib(k + 1) == Fib(k) + Fib(k - 1);
    if high[n] >= high[m] { assert freq[m] >= Fib(high[n]); } else { assert freq[n] >= Fib(high[m]); }
  }

  lemma WeighEach(g: Grove, heap: seq<nat>, freq: seq<nat>, high: seq<nat>, total: int, n: nat, m: nat, x: nat)
    requires Slender(g, heap, freq, high, total) && FirstTwo(freq, high, g.nodes, n, m) && x !in g.nodes && x < |freq|
    ensures var freq', high' := freq[x := freq[n] + freq[m]], high[x := Above(high[n], high[m])];
      && (forall y :: y in g.nodes - {n, m} + {x} ==> freq'[y] >= Fib(high'[y] + 1))
      && (forall y, z :: y in g.nodes - {n, m} + {x} && z in g.nodes - {n, m} + {x} ==> freq'[z] >= Fib(high'[y]))
  {
    hide Fib, Above, Lower;
    FatherWeighs(g, heap, freq, high, total, n, m);
    var freq', high' := freq[x := freq[n] + freq[m]], high[x := Above(high[n], high[m])];
    forall y, z | y in g.nodes - {n, m} + {x} && z in g.nodes - {n, m} + {x} ensures freq'[z] >= Fib(high'[y]) {
      assert z != x ==> freq[n] <= freq[z] && freq[m] <= freq[z];
      assert y != x ==> freq[n] >= Fib(high[y]);
    }
  }

  lemma LowerMerge(g: Grove, heap: seq<nat>, dl: seq<nat>, high: seq<nat>, n: nat, m: nat, i: nat)
    requires Grown(g, heap, dl) && Top(g) >= 2 && n < |g.place| && m < |g.place| && g.elems + g.made < |high|
    requires n < |high| && m < |high| && n != g.elems + g.made && m != g.elems + g.made
    requires i >= Top(g) ==> i < HEAP_SIZE && Lower(g, heap, high, i)
    requires Top(g) - 2 <= i < HEAP_SIZE
    ensures var x := g.elems + g.made;
      Lower(Merged(g, n, m), heap[Top(g) - 1 := n][Top(g) - 2 := m], high[x := Above(high[n], high[m])], i)
  {
    if i >= Top(g) { assert PairOk(g, heap, dl, i); }
  }

  lemma SlenderMerge(g: Grove, heap: seq<nat>, dl: seq<nat>, freq: seq<nat>, high: seq<nat>, total: int, n: nat, m: nat)
    requires Slender(g, heap, freq, high, total) && Grown(g, heap, dl) && FirstTwo(freq, high, g.nodes, n, m)
    requires Top(g) >= 2 && g.elems + g.made < |freq| && g.elems + g.made !in g.nodes
    ensures n < |freq| && m < |freq|
    ensures var x := g.elems + g.made;
      Slender(Merged(g, n, m), heap[Top(g) - 1 := n][Top(g) - 2 := m], freq[x := freq[n] + freq[m]],
        high[x := Above(high[n], high[m])], total)
  {
    hide Sum, Fib, Above, Lower, Grown;
    var x := g.elems + g.made;
    var g', h, high' := Merged(g, n, m), heap[Top(g) - 1 := n][Top(g) - 2 := m], high[x := Above(high[n], high[m])];
    WeightsMerge(freq, g.nodes, n, m, x);
    WeighEach(g, heap, freq, high, total, n, m, x);
    LeavesLow(g, heap, dl);
    forall i: nat | Top(g') <= i < HEAP_SIZE ensures Lower(g', h, high', i) { LowerMerge(g, heap, dl, high, n, m, i); }
  }

  lemma LeavesLow(g: Grove, heap: seq<nat>, dl: seq<nat>)
    requires Grown(g, heap, dl)
    ensures forall y :: y in g.leaves ==> y < g.elems
  {
  }

  // ----- codes of least cost are not lower -----

  /** Bounds for the nodes in the heap are bounds for the leaves. */
  ghost predicate Grounded(g: Grove, freq: seq<nat>, high: seq<nat>, w: nat) {
    |freq| == |high| &&
      forall c: int, e: nat :: Bounded(freq, high, g.nodes, c, e) ==> Bounded(freq, high, g.leaves, c + w, e)
  }

  lemma BoundedFrame(freq: seq<nat>, high: seq<nat>, nodes: set<nat>, x: nat, f: nat, h: nat, c: int, e: nat)
    requires x < |freq| == |high| && x !in nodes && Bounded(freq, high, nodes, c, e)
    ensures Bounded(freq[x := f], high[x := h], nodes, c, e)
  {
    hide Sum, Costs, Codable;
    forall lens: seq<nat>, top: nat | |lens| == |freq| && Codable(lens, nodes, top)
      ensures var now := Sum(Costs(freq[x := f], lens, nodes));
        now >= c && (now == c ==> Tall(lens, high[x := h], nodes, e))
    {
      CostsFrame(freq, lens, nodes, x, f);
      if Tall(lens, high, nodes, e) {
        var k :| k in nodes && k < |lens| && k < |high| && lens[k] + high[k] >= e;
        assert lens[k] + high[x := h][k] >= e;
      }
    }
  }

  lemma GroundedMerge(g: Grove, freq: seq<nat>, high: seq<nat>, w: nat, n: nat, m: nat)
    requires Grounded(g, freq, high, w) && FirstTwo(freq, high, g.nodes, n, m) && Top(g) >= 2 && |g.place| == |freq|
    requires g.elems + g.made < |freq| && g.elems + g.made !in g.nodes && g.elems + g.made !in g.leaves
    ensures n < |freq| && m < |freq|
    ensures var x, f := g.elems + g.made, freq[n] + freq[m];
      Grounded(Merged(g, n, m), freq[x := f], high[x := Above(high[n], high[m])], w + f)
  {
    hide Bounded, Above;
    var x, f, g' := g.elems + g.made, freq[n] + freq[m], Merged(g, n, m);
    var freq', high' := freq[x := f], high[x := Above(high[n], high[m])];
    forall c: int, e: nat | Bounded(freq', high', g'.nodes, c, e)
      ensures Bounded(freq', high', g'.leaves, c + (w + f), e)
    {
      MergeTall(freq, high, g.nodes, n, m, x, c, e);
      BoundedFrame(freq, high, g.leaves, x, f, Above(high[n], high[m]), c + f + w, e);
    }
  }

  // ----- every merge -----

  /** All of this about the fields: the depths of the first |freq| nodes are the heights. */
  ghost predicate Risen(g: Grove, heap: seq<nat>, freq: seq<nat>, depth: seq<nat>, w: nat, total: int) {
    && |freq| <= |depth| && Slender(g, heap, freq, depth[..|freq|], total)
    && Grounded(g, freq, depth[..|freq|], w)
  }

  lemma RisenFrame(g: Grove, heap: seq<nat>, heap': seq<nat>, freq: seq<nat>, depth: seq<nat>, w: nat, total: int)
    requires Risen(g, heap, freq, depth, w, total) && |heap| == |heap'|
    requires forall i: nat :: Top(g) <= i < |heap| ==> heap'[i] == heap[i]
    ensures Risen(g, heap', freq, depth, w, total)
  {
    hide Sum, Fib, Grounded;
    var high := depth[..|freq|];
    forall i: nat | Top(g) <= i < HEAP_SIZE ensures Lower(g, heap', high, i) { assert Lower(g, heap, high, i); }
  }

  lemma RisenStart(g: Grove, heap: seq<nat>, freq: seq<nat>, depth: seq<nat>)
    requires g.nodes == g.leaves && |heap| == HEAP_SIZE == Top(g) && |freq| == |g.place| <= |depth|
    requires forall y :: y in g.nodes ==> y < |freq| && freq[y] > 0 && depth[y] == 0
    ensures Risen(g, heap, freq, depth, 0, Sum(Weights(freq, g.nodes)))
  {
    hide Sum, Bounded;
    assert Fib(0) == 0 && Fib(1) == 1;
  }

  /** A merge; the depth of the father is the larger one plus one in eight bits. */
  lemma RisenMerge(g: Grove, heap: seq<nat>, dl: seq<nat>, freq: seq<nat>, depth: seq<nat>, w: nat, total: int, n: nat,
                   m: nat, e: nat)
    requires Risen(g, heap, freq, depth, w, total) && total <= 65535 && Grown(g, heap, dl) && Top(g) >= 2
    requires Foremost(freq, depth, g.nodes, n) && Foremost(freq, depth, g.nodes - {n}, m)
    requires g.elems + g.made < |freq| && g.elems + g.made !in g.nodes
    requires e == ((if depth[n] >= depth[m] then depth[n] else depth[m]) + 1) % 256
    ensures n < |g.place| && m < |g.place| && n < |freq| && m < |freq|
    ensures var x, f := g.elems + g.made, freq[n] + freq[m];
      Risen(Merged(g, n, m), heap[Top(g) - 1 := n][Top(g) - 2 := m], freq[x := f], depth[x := e], w + f, total)
  {
    hide Slender, Grounded, Grown;
    var x, high := g.elems + g.made, depth[..|freq|];
    assert FirstTwo(freq, high, g.nodes, n, m) && |freq| == |g.place| by { SlenderSize(g, heap, freq, high, total); }
    HeightBound(g, heap, freq, high, total, n);
    HeightBound(g, heap, freq, high, total, m);
    LeavesLow(g, heap, dl);
    SlenderMerge(g, heap, dl, freq, high, total, n, m);
    GroundedMerge(g, freq, high, w, n, m);
    assert depth[x := e][..|freq|] == high[x := e];
  }

  lemma SlenderSize(g: Grove, heap: seq<nat>, freq: seq<nat>, high: seq<nat>, total: int)
    requires Slender(g, heap, freq, high, total)
    ensures |freq| == |g.place| && forall y :: y in g.nodes ==> y < |freq|
  {
  }

  // ----- the whole tree -----

  lemma {:induction false} LevelsBelow(g: Grove, heap: seq<nat>, freq: seq<nat>, high: seq<nat>, total: int, p: nat)
    requires g.made >= 1 && 1 <= Top(g) && g.elems + g.made <= |g.place| && Slender(g, heap, freq, high, total)
    requires ShapeOk(Finished(g, heap)) && p <= 2 * g.made
    ensures var t := Finished(g, heap);
      t.order[p] < |high| && Level(t, p) + high[t.order[p]] <= high[g.elems + g.made - 1]
    decreases p
  {
    hide Fib, Sum;
    var t := Finished(g, heap);
    if p > 0 {
      DadFirst(t, p);
      LevelsBelow(g, heap, freq, high, total, t.pos[Dad(t, p)]);
      var i := p + Top(g) - 1;
      assert Lower(g, heap, high, i);
      assert t.order[p] == heap[i] && Dad(t, p) == Father(g, i);
    }
  }

  /** A code that costs no more than the levels of the tree, if those are above the limit, has a length above it. */
  ghost predicate Steep(t: Shape, freq: seq<nat>, leaves: set<nat>, lens: seq<nat>, deep: seq<nat>, limit: nat)
    requires |lens| == |deep| == |freq|
  {
    TooDeep(t, limit) && Sum(Costs(freq, lens, leaves)) <= Sum(Costs(freq, deep, leaves)) ==>
      exists k :: k in leaves && k < |lens| && lens[k] > limit
  }

  lemma RootBounded(freq: seq<nat>, high: seq<nat>, root: nat)
    requires root < |freq| == |high|
    ensures Bounded(freq, high, {root}, 0, high[root])
  {
    hide Sum, Codable, Costs;
    NotNegative(freq, {root});
    forall lens: seq<nat>, top: nat | |lens| == |freq| && Codable(lens, {root}, top)
      ensures Tall(lens, high, {root}, high[root])
    {
      assert lens[root] + high[root] >= high[root];
    }
  }

  lemma FinishedSteep(g: Grove, heap: seq<nat>, dl: seq<nat>, freq: seq<nat>, high: seq<nat>, w: nat, total: int,
                      lens: seq<nat>, top: nat, deep: seq<nat>, top': nat, limit: nat)
    requires Grown(g, heap, dl) && g.nodes == {g.elems + g.made - 1} && g.made >= 1 && 1 <= Top(g)
    requires Weighed(g, heap, freq, w) && Slender(g, heap, freq, high, total) && Grounded(g, freq, high, w)
    requires |lens| == |deep| == |freq| && Codable(lens, g.leaves, top) && Deep(Finished(g, heap), deep, top')
    ensures Steep(Finished(g, heap), freq, g.leaves, lens, deep, limit)
  {
    hide Bounded, Weighed, Codable, Costs, Sum, Fib, Lower;
    var t, root := Finished(g, heap), g.elems + g.made - 1;
    FinishedLeast(g, heap, dl, freq, w, deep, top');
    RootBounded(freq, high, root);
    assert Bounded(freq, high, g.leaves, 0 + w, high[root]);
    if TooDeep(t, limit) && Sum(Costs(freq, lens, g.leaves)) <= w {
      var p :| 0 <= p < |t.order| && Level(t, p) > limit;
      LevelsBelow(g, heap, freq, high, total, p);
      CostsTall(freq, high, g.leaves, w, high[root], lens, top);
      var k :| k in g.leaves && k < |lens| && k < |high| && lens[k] + high[k] >= high[root];
      assert lens[k] > limit;
    }
  }

  lemma CostsTall(freq: seq<nat>, high: seq<nat>, nodes: set<nat>, w: nat, e: nat, lens: seq<nat>, top: nat)
    requires Bounded(freq, high, nodes, w, e) && |lens| == |freq| && Codable(lens, nodes, top)
    requires Sum(Costs(freq, lens, nodes)) <= w
    ensures Tall(lens, high, nodes, e)
  {
  }
}
