/** What every merge of build_tree() in zlib/trees.c keeps about costs: the fathers made so far weigh as much as the
    leaves cost above the nodes still in the heap, and no code for the leaves can save any of it. */
module TreeWeight {
  import opened Bits
  import opened Sums
  import opened TreeShape
  import opened BitLengths
  import opened TreeGrowth
  import opened TreeCost

  /** The paired node at heap index i is one level below its father, at most at level top. */
  ghost predicate Below(g: Grove, heap: seq<nat>, deep: seq<nat>, top: nat, i: nat)
    requires i < HEAP_SIZE == |heap|
  {
    heap[i] < |deep| && Father(g, i) < |deep| && deep[heap[i]] == deep[Father(g, i)] + 1 <= top
  }

  ghost predicate Depths(g: Grove, heap: seq<nat>, deep: seq<nat>, top: nat) {
    && |heap| == HEAP_SIZE && |deep| == |g.place|
    && forall i: nat :: Top(g) <= i < HEAP_SIZE ==> Below(g, heap, deep, top, i)
  }

  /** With these depths the leaves cost what the fathers weigh more than the nodes, and take as much code space. */
  ghost predicate Leveled(g: Grove, freq: seq<nat>, deep: seq<nat>, top: nat, w: nat)
    requires |freq| == |deep|
  {
    && Sum(Costs(freq, deep, g.leaves)) == w + Sum(Costs(freq, deep, g.nodes))
    && Sum(Shares(deep, g.leaves, top)) == Sum(Shares(deep, g.nodes, top))
  }

  /** w is what the fathers made so far weigh. */
  ghost predicate Weighed(g: Grove, heap: seq<nat>, freq: seq<nat>, w: nat) {
    && |freq| == |g.place|
    && (forall c :: AtLeast(freq, g.nodes, c) ==> AtLeast(freq, g.leaves, c + w))
    && (forall deep: seq<nat>, top: nat :: Depths(g, heap, deep, top) ==> Leveled(g, freq, deep, top, w))
  }

  lemma WeighedStart(g: Grove, heap: seq<nat>, freq: seq<nat>)
    requires g.nodes == g.leaves && |freq| == |g.place|
    ensures Weighed(g, heap, freq, 0)
  {
    forall c | AtLeast(freq, g.nodes, c) ensures AtLeast(freq, g.leaves, c + 0) { }
  }

  lemma WeighedFrame(g: Grove, heap: seq<nat>, heap': seq<nat>, freq: seq<nat>, w: nat)
    requires Weighed(g, heap, freq, w) && |heap| == |heap'|
    requires forall i: nat :: Top(g) <= i < |heap| ==> heap'[i] == heap[i]
    ensures Weighed(g, heap', freq, w)
  {
    hide Leveled, AtLeast;
    forall deep: seq<nat>, top: nat | Depths(g, heap', deep, top) ensures Leveled(g, freq, deep, top, w) {
      forall i: nat | Top(g) <= i < HEAP_SIZE ensures Below(g, heap, deep, top, i) {
        assert Below(g, heap', deep, top, i);
      }
      assert Depths(g, heap, deep, top);
    }
  }

  /** The weight of a node outside the set does not matter. */
  lemma BoundFrame(freq: seq<nat>, nodes: set<nat>, x: nat, f: nat, c: int)
    requires x < |freq| && x !in nodes && AtLeast(freq, nodes, c)
    ensures AtLeast(freq[x := f], nodes, c)
  {
    hide Sum, Costs, Codable;
    forall lens: seq<nat>, top: nat | |lens| == |freq| && Codable(lens, nodes, top)
      ensures Sum(Costs(freq[x := f], lens, nodes)) >= c
    {
      CostsFrame(freq, lens, nodes, x, f);
    }
  }

  lemma CostsFrame(freq: seq<nat>, lens: seq<nat>, nodes: set<nat>, x: nat, f: nat)
    requires x < |freq| == |lens| && x !in nodes
    ensures Costs(freq[x := f], lens, nodes) == Costs(freq, lens, nodes)
  {
    hide Cost;
  }

  lemma MergeBounds(g: Grove, heap: seq<nat>, freq: seq<nat>, w: nat, n: nat, m: nat, c: int)
    requires Weighed(g, heap, freq, w) && TwoLeast(freq, g.nodes, n, m)
    requires g.elems + g.made < |freq| && g.elems + g.made !in g.nodes && g.elems + g.made !in g.leaves
    requires AtLeast(freq[g.elems + g.made := freq[n] + freq[m]], g.nodes - {n, m} + {g.elems + g.made}, c)
    ensures AtLeast(freq[g.elems + g.made := freq[n] + freq[m]], g.leaves, c + w + freq[n] + freq[m])
  {
    hide AtLeast, Leveled, TwoLeast;
    assert n < |freq| && m < |freq| by { Ranged(freq, g.nodes, n, m); }
    var x, f := g.elems + g.made, freq[n] + freq[m];
    MergeBound(freq, g.nodes, n, m, x, c);
    BoundFrame(freq, g.leaves, x, f, c + freq[n] + freq[m] + w);
  }

  lemma Ranged(freq: seq<nat>, nodes: set<nat>, n: nat, m: nat)
    requires TwoLeast(freq, nodes, n, m)
    ensures n < |freq| && m < |freq| && n in nodes && m in nodes && n != m && forall y :: y in nodes ==> y < |freq|
  {
  }

  lemma MergeDepths(g: Grove, heap: seq<nat>, n: nat, m: nat, deep: seq<nat>, top: nat)
    requires |heap| == HEAP_SIZE && n < |g.place| && m < |g.place| && Top(g) >= 2 && n != m
    requires var h := heap[Top(g) - 1 := n][Top(g) - 2 := m];
      Depths(Merged(g, n, m), h, deep, top)
    ensures Depths(g, heap, deep, top) && g.elems + g.made < |deep|
    ensures deep[n] == deep[m] == deep[g.elems + g.made] + 1 <= top
  {
    var h, g', t := heap[Top(g) - 1 := n][Top(g) - 2 := m], Merged(g, n, m), Top(g);
    assert Below(g', h, deep, top, t - 1) && Below(g', h, deep, top, t - 2);
    forall i: nat | Top(g) <= i < HEAP_SIZE ensures Below(g, heap, deep, top, i) {
      assert Below(g', h, deep, top, i);
    }
  }

  lemma MergeLeveled(g: Grove, freq: seq<nat>, w: nat, n: nat, m: nat, deep: seq<nat>, top: nat)
    requires |freq| == |deep| == |g.place| && Leveled(g, freq, deep, top, w) && TwoLeast(freq, g.nodes, n, m)
    requires var x := g.elems + g.made;
      x < |freq| && x !in g.nodes && x !in g.leaves && Top(g) >= 2 && deep[n] == deep[m] == deep[x] + 1 <= top
    ensures Leveled(Merged(g, n, m), freq[g.elems + g.made := freq[n] + freq[m]], deep, top, w + freq[n] + freq[m])
  {
    hide Sum, Costs, Shares;
    var x, f := g.elems + g.made, freq[n] + freq[m];
    AdoptCosts(freq, deep, deep, g.nodes, n, m, x);
    AdoptShares(deep, deep, g.nodes, n, m, x, top);
    CostsFrame(freq, deep, g.leaves, x, f);
  }

  lemma WeighedMerge(g: Grove, heap: seq<nat>, freq: seq<nat>, w: nat, n: nat, m: nat)
    requires Weighed(g, heap, freq, w) && TwoLeast(freq, g.nodes, n, m) && |heap| == HEAP_SIZE && Top(g) >= 2
    requires g.elems + g.made < |freq| && g.elems + g.made !in g.nodes && g.elems + g.made !in g.leaves
    ensures var x, f := g.elems + g.made, freq[n] + freq[m];
      Weighed(Merged(g, n, m), heap[Top(g) - 1 := n][Top(g) - 2 := m], freq[x := f], w + f)
  {
    hide AtLeast, Leveled, Below, TwoLeast;
    Ranged(freq, g.nodes, n, m);
    var x, f, g' := g.elems + g.made, freq[n] + freq[m], Merged(g, n, m);
    var h, freq' := heap[Top(g) - 1 := n][Top(g) - 2 := m], freq[x := f];
    forall c | AtLeast(freq', g'.nodes, c) ensures AtLeast(freq', g'.leaves, c + (w + f)) {
      MergeBounds(g, heap, freq, w, n, m, c);
    }
    forall deep: seq<nat>, top: nat | Depths(g', h, deep, top) ensures Leveled(g', freq', deep, top, w + f) {
      MergeDepths(g, heap, n, m, deep, top);
      MergeLeveled(g, freq, w, n, m, deep, top);
    }
  }

  // ----- the whole tree -----

  /** No code for the nodes costs less than these lengths, which are those of a code. */
  ghost predicate LeastCost(freq: seq<nat>, lens: seq<nat>, nodes: set<nat>, top: nat) {
    |lens| == |freq| && Codable(lens, nodes, top) && AtLeast(freq, nodes, Sum(Costs(freq, lens, nodes)))
  }

  lemma OnlyRoot(freq: seq<nat>, deep: seq<nat>, root: nat, top: nat)
    requires |freq| == |deep| && root < |deep| && deep[root] == 0
    ensures Sum(Costs(freq, deep, {root})) == 0 && Sum(Shares(deep, {root}, top)) == Pow2(top)
  {
    hide Sum, Pow2, Costs, Shares;
    NoNodes(freq, deep, top);
    SharesChange(deep, deep, {}, {root}, top, root);
    CostsChange(freq, freq, deep, deep, {}, {root}, root);
  }

  lemma NoNodes(freq: seq<nat>, lens: seq<nat>, top: nat)
    requires |freq| == |lens|
    ensures Sum(Costs(freq, lens, {})) == 0 && Sum(Shares(lens, {}, top)) == 0
  {
    hide Sum, Cost, Share;
    SumZero(Costs(freq, lens, {}));
    SumZero(Shares(lens, {}, top));
  }

  lemma NotNegative(freq: seq<nat>, nodes: set<nat>)
    ensures AtLeast(freq, nodes, 0)
  {
    hide Sum, Codable;
    forall lens: seq<nat>, top: nat | |lens| == |freq| && Codable(lens, nodes, top)
      ensures Sum(Costs(freq, lens, nodes)) >= 0
    {
      SumPositive(Costs(freq, lens, nodes));
    }
  }

  /** The depths of a finished tree. */
  lemma FinishedDepths(g: Grove, heap: seq<nat>, deep: seq<nat>, top: nat)
    requires g.made >= 1 && |heap| == HEAP_SIZE && 1 <= Top(g) && g.elems + g.made <= |g.place| == |deep|
    requires Deep(Finished(g, heap), deep, top)
    ensures Depths(g, heap, deep, top) && deep[g.elems + g.made - 1] == 0
  {
    var t := Finished(g, heap);
    forall i: nat | Top(g) <= i < HEAP_SIZE ensures Below(g, heap, deep, top, i) {
      var p := i - (Top(g) - 1);
      DadFirst(t, p);
      assert t.order[p] == heap[i] && Dad(t, p) == Father(g, i);
      assert deep[t.order[p]] == Level(t, p) == Level(t, t.pos[Dad(t, p)]) + 1;
      assert deep[t.order[t.pos[Dad(t, p)]]] == Level(t, t.pos[Dad(t, p)]);
    }
  }

  lemma LeafDepths(g: Grove, heap: seq<nat>, dl: seq<nat>, deep: seq<nat>, top: nat)
    requires Grown(g, heap, dl) && g.nodes == {g.elems + g.made - 1} && g.made >= 1 && Depths(g, heap, deep, top)
    ensures forall k :: k in g.leaves ==> k < |deep| && deep[k] <= top
  {
    forall k | k in g.leaves ensures k < |deep| && deep[k] <= top {
      assert Paired(g, heap, k);
      assert Below(g, heap, deep, top, g.place[k]);
    }
  }

  /** The depths in the finished tree are a code of least cost for its leaves. */
  lemma FinishedLeast(g: Grove, heap: seq<nat>, dl: seq<nat>, freq: seq<nat>, w: nat, deep: seq<nat>, top: nat)
    requires Grown(g, heap, dl) && g.nodes == {g.elems + g.made - 1} && g.made >= 1 && 1 <= Top(g)
    requires Weighed(g, heap, freq, w) && |deep| == |freq| && Deep(Finished(g, heap), deep, top)
    ensures LeastCost(freq, deep, g.leaves, top) && Sum(Costs(freq, deep, g.leaves)) == w
  {
    hide AtLeast, Deep, Depths, Sum, Shares, Costs, Pow2;
    assert g.elems + g.made <= |g.place|;
    FinishedDepths(g, heap, deep, top);
    LeafDepths(g, heap, dl, deep, top);
    OnlyRoot(freq, deep, g.elems + g.made - 1, top);
    NotNegative(freq, g.nodes);
    assert Leveled(g, freq, deep, top, w);
    assert AtLeast(freq, g.leaves, 0 + w);
  }
}
