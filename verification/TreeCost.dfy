/** Why joining two least frequent nodes, as build_tree() of zlib/trees.c does, gives a code of least cost: lower bounds
    on the cost of any code for a set of nodes with frequencies. */
module TreeCost {
  import opened Bits
  import opened Huffman
  import opened Sums
  import opened TreeHeap

  /** f occurrences of l bits each. */
  ghost function Cost(f: nat, l: nat): int { f * l }

  /** A code of l bits in units of 2^-top. */
  ghost function Share(l: nat, top: nat): int { if l <= top then Pow2(top - l) else 0 }

  /** What each node of the set costs with these lengths. */
  ghost function Costs(freq: seq<nat>, lens: seq<nat>, nodes: set<nat>): (r: seq<int>)
    requires |lens| == |freq|
    ensures |r| == |freq|
  {
    seq(|freq|, k requires 0 <= k < |freq| => if k in nodes then Cost(freq[k], lens[k]) else 0)
  }

  /** What part of the code space each node takes, in units of 2^-top. */
  ghost function Shares(lens: seq<nat>, nodes: set<nat>, top: nat): (r: seq<int>)
    ensures |r| == |lens|
  {
    seq(|lens|, k requires 0 <= k < |lens| => if k in nodes then Share(lens[k], top) else 0)
  }

  /** The lengths, at most top, are those of some prefix code for the nodes. */
  ghost predicate Codable(lens: seq<nat>, nodes: set<nat>, top: nat) {
    (forall k :: k in nodes ==> k < |lens| && lens[k] <= top) && Sum(Shares(lens, nodes, top)) <= Pow2(top)
  }

  /** No code for the nodes costs less than c. */
  ghost predicate AtLeast(freq: seq<nat>, nodes: set<nat>, c: int) {
    forall lens: seq<nat>, top: nat :: |lens| == |freq| && Codable(lens, nodes, top) ==>
      Sum(Costs(freq, lens, nodes)) >= c
  }

  /** n and m are two least frequent nodes. */
  ghost predicate TwoLeast(freq: seq<nat>, nodes: set<nat>, n: nat, m: nat) {
    && n in nodes && m in nodes && n != m && (forall y :: y in nodes ==> y < |freq|)
    && (forall y :: y in nodes ==> freq[n] <= freq[y]) && (forall y :: y in nodes - {n} ==> freq[m] <= freq[y])
  }

  // ----- one node at a time -----

  /** Adding, dropping or changing one node changes the total by what it took and takes. */
  lemma SharesChange(lens: seq<nat>, lens': seq<nat>, nodes: set<nat>, nodes': set<nat>, top: nat, x: nat)
    requires x < |lens| == |lens'| && nodes' - {x} == nodes - {x}
    requires forall k :: 0 <= k < |lens| && k != x && k in nodes ==> lens'[k] == lens[k]
    ensures Sum(Shares(lens', nodes', top)) ==
            Sum(Shares(lens, nodes, top)) - (if x in nodes then Share(lens[x], top) else 0)
            + (if x in nodes' then Share(lens'[x], top) else 0)
  {
    hide Sum, Share;
    var a, b := Shares(lens, nodes, top), Shares(lens', nodes', top);
    forall k | 0 <= k < |lens| && k != x ensures a[k] == b[k] { assert k in nodes - {x} <==> k in nodes' - {x}; }
    SumUpdate(a, x, b[x]);
    assert a[x := b[x]] == b;
  }

  lemma CostsChange(freq: seq<nat>, freq': seq<nat>, lens: seq<nat>, lens': seq<nat>, nodes: set<nat>,
                    nodes': set<nat>, x: nat)
    requires x < |lens| == |lens'| == |freq| == |freq'| && nodes' - {x} == nodes - {x}
    requires forall k :: 0 <= k < |lens| && k != x && k in nodes ==> lens'[k] == lens[k] && freq'[k] == freq[k]
    ensures Sum(Costs(freq', lens', nodes')) ==
            Sum(Costs(freq, lens, nodes)) - (if x in nodes then Cost(freq[x], lens[x]) else 0)
            + (if x in nodes' then Cost(freq'[x], lens'[x]) else 0)
  {
    hide Sum, Cost;
    var a, b := Costs(freq, lens, nodes), Costs(freq', lens', nodes');
    forall k | 0 <= k < |lens| && k != x ensures a[k] == b[k] { assert k in nodes - {x} <==> k in nodes' - {x}; }
    SumUpdate(a, x, b[x]);
    assert a[x := b[x]] == b;
  }

  /** Giving node x of the set l bits. */
  lemma Resize(freq: seq<nat>, lens: seq<nat>, nodes: set<nat>, top: nat, x: nat, l: nat)
    requires x < |lens| == |freq| && x in nodes
    ensures Sum(Shares(lens[x := l], nodes, top)) == Sum(Shares(lens, nodes, top)) - Share(lens[x], top) + Share(l, top)
    ensures Sum(Costs(freq, lens[x := l], nodes)) ==
            Sum(Costs(freq, lens, nodes)) - Cost(freq[x], lens[x]) + Cost(freq[x], l)
  {
    hide Sum, Share, Cost, Shares, Costs;
    SharesChange(lens, lens[x := l], nodes, nodes, top, x);
    CostsChange(freq, freq, lens, lens[x := l], nodes, nodes, x);
  }

  // ----- exchanging lengths -----

  ghost function Swapped(lens: seq<nat>, a: nat, b: nat): (r: seq<nat>)
    requires a < |lens| && b < |lens|
    ensures |r| == |lens| && r[a] == lens[b] && r[b] == lens[a]
    ensures forall k :: 0 <= k < |lens| && k != a && k != b ==> r[k] == lens[k]
  {
    lens[a := lens[b]][b := lens[a]]
  }

  lemma SwapTotals(freq: seq<nat>, lens: seq<nat>, nodes: set<nat>, top: nat, a: nat, b: nat)
    requires |lens| == |freq| && Codable(lens, nodes, top) && a in nodes && b in nodes
    ensures Codable(Swapped(lens, a, b), nodes, top)
    ensures Sum(Costs(freq, Swapped(lens, a, b), nodes)) ==
            Sum(Costs(freq, lens, nodes)) + Cost(freq[a], lens[b]) + Cost(freq[b], lens[a])
            - Cost(freq[a], lens[a]) - Cost(freq[b], lens[b])
  {
    hide Sum, Share, Cost, Costs, Shares;
    var mid := lens[a := lens[b]];
    Resize(freq, lens, nodes, top, a, lens[b]);
    Resize(freq, mid, nodes, top, b, lens[a]);
  }

  lemma Crossed(f: nat, g: nat, l: nat, m: nat)
    ensures f <= g && l <= m ==> Cost(f, m) + Cost(g, l) <= Cost(f, l) + Cost(g, m)
    ensures f < g && l < m ==> Cost(f, m) + Cost(g, l) < Cost(f, l) + Cost(g, m)
  {
    assert (g - f) * (m - l) == g * m - g * l - f * m + f * l;
    if f <= g && l <= m { assert (g - f) * (m - l) >= 0; }
    if f < g && l < m { assert (g - f) * (m - l) > 0; }
  }

  /** In a code of least cost a rarer node never has the shorter code. */
  lemma RarerLonger(freq: seq<nat>, lens: seq<nat>, nodes: set<nat>, top: nat, a: nat, b: nat)
    requires |lens| == |freq| && Codable(lens, nodes, top) && AtLeast(freq, nodes, Sum(Costs(freq, lens, nodes)))
    requires a in nodes && b in nodes && freq[a] < freq[b]
    ensures lens[a] >= lens[b]
  {
    hide Sum, Pow2, Costs, Shares, Cost;
    SwapTotals(freq, lens, nodes, top, a, b);
    Crossed(freq[a], freq[b], lens[a], lens[b]);
  }

  /** A node with the longest code. */
  lemma Longest(lens: seq<nat>, nodes: set<nat>) returns (a: nat)
    requires nodes != {} && forall k :: k in nodes ==> k < |lens|
    ensures a in nodes && forall k :: k in nodes ==> lens[k] <= lens[a]
    decreases nodes
  {
    var x :| x in nodes;
    a := x;
    if nodes != {x} {
      var y := Longest(lens, nodes - {x});
      if lens[y] > lens[x] { a := y; }
    }
  }

  // ----- brothers -----

  ghost predicate Multiple(p: int, x: int) { exists j: int :: x == p * j }

  /** Multiples of p add up to a multiple of p. */
  lemma {:induction false} SumMultiple(s: seq<int>, p: int)
    requires forall i :: 0 <= i < |s| ==> Multiple(p, s[i])
    ensures Multiple(p, Sum(s))
    decreases |s|
  {
    if s == [] {
      assert 0 == p * 0;
    } else {
      var n := |s| - 1;
      SumMultiple(s[..n], p);
      MultipleAdd(p, Sum(s[..n]), s[n]);
    }
  }

  lemma MultipleAdd(p: int, x: int, y: int)
    requires Multiple(p, x) && Multiple(p, y)
    ensures Multiple(p, x + y)
  {
    var i, j :| x == p * i && y == p * j;
    assert x + y == p * (i + j);
  }

  lemma NoneMultiple(p: int)
    ensures Multiple(p, 0)
  {
    assert 0 == p * 0;
  }

  lemma PowSplit(a: nat, b: nat)
    ensures Pow2(a + b) == Pow2(a) * Pow2(b)
  {
    hide Pow2, Shl;
    ShlPow(a, b);
    ShlMul(Pow2(a), b);
  }

  lemma ShareMultiple(top: nat, l: nat, k: nat)
    requires k <= l <= top
    ensures Multiple(Pow2(top - l), Pow2(top - k))
  {
    hide Pow2;
    PowSplit(top - l, l - k);
    assert Pow2(top - k) == Pow2(top - l) * Pow2(l - k);
  }

  lemma SharesMultiple(lens: seq<nat>, nodes: set<nat>, top: nat, l: nat)
    requires l <= top && forall k :: k in nodes && k < |lens| ==> lens[k] <= l
    ensures Multiple(Pow2(top - l), Sum(Shares(lens, nodes, top)))
  {
    hide Sum, Pow2, Multiple;
    var s := Shares(lens, nodes, top);
    forall k | 0 <= k < |s| ensures Multiple(Pow2(top - l), s[k]) {
      if k in nodes { ShareMultiple(top, l, lens[k]); } else { NoneMultiple(Pow2(top - l)); }
    }
    SumMultiple(s, Pow2(top - l));
  }

  lemma Apart(p: nat, i: int, j: int)
    requires p * i < p * j
    ensures p * i + p <= p * j
  {
    Grows(p, j, i);
    Grows(p, i + 1, j);
  }

  lemma Grows(p: nat, i: int, j: int)
    ensures i <= j ==> p * i <= p * j
  {
    if i <= j { assert p * (j - i) >= 0; }
  }

  /** Between multiples of p, where something fits, p fits. */
  lemma RoomForOne(p: nat, x: int, w: int, y: int)
    requires p > 0 && y > 0 && x + y <= w && Multiple(p, x) && Multiple(p, w)
    ensures x + p <= w
  {
    var i, j :| x == p * i && w == p * j;
    Apart(p, i, j);
  }

  /** If all other codes have at most l bits, a longer one can be shortened to l. */
  lemma Shorten(freq: seq<nat>, lens: seq<nat>, nodes: set<nat>, top: nat, n: nat, l: nat)
    requires Codable(lens, nodes, top) && n in nodes && l <= lens[n] && |freq| == |lens|
    requires forall k :: k in nodes && k != n ==> lens[k] <= l
    ensures Codable(lens[n := l], nodes, top)
    ensures Sum(Costs(freq, lens[n := l], nodes)) <= Sum(Costs(freq, lens, nodes))
  {
    hide Sum, Pow2, Costs, Shares, Multiple, Cost;
    var rest := Sum(Shares(lens, nodes, top)) - Pow2(top - lens[n]);
    Resize(freq, lens, nodes, top, n, l);
    SharesMultiple(lens[n := l], nodes, top, l);
    RestMultiple(Pow2(top - l), rest);
    ShareMultiple(top, l, 0);
    RoomForOne(Pow2(top - l), rest, Pow2(top), Pow2(top - lens[n]));
    Crossed(0, freq[n], l, lens[n]);
    NoCost(l);
    NoCost(lens[n]);
  }

  lemma NoCost(l: nat)
    ensures Cost(0, l) == 0
  {
  }

  lemma RestMultiple(p: int, x: int)
    requires Multiple(p, x + p)
    ensures Multiple(p, x)
  {
    var i :| x + p == p * i;
    assert x == p * (i - 1);
  }

  // ----- a merge -----

  /** Two codes of no bits do not fit. */
  lemma NotEmpty(lens: seq<nat>, nodes: set<nat>, top: nat, n: nat, m: nat)
    requires Codable(lens, nodes, top) && n in nodes && m in nodes && n != m && lens[n] == lens[m]
    ensures lens[n] >= 1
  {
    hide Sum, Pow2;
    var a := Shares(lens, nodes, top);
    SumUpdate(a, n, 0);
    SumUpdate(a[n := 0], m, 0);
    SumPositive(a[n := 0][m := 0]);
  }

  /** Brothers of l bits can be replaced by a father of l - 1 bits. */
  ghost predicate Adopted(lens: seq<nat>, lens': seq<nat>, nodes: set<nat>, n: nat, m: nat, x: nat) {
    && n in nodes && m in nodes && n != m && x !in nodes && x < |lens| && (forall k :: k in nodes ==> k < |lens|)
    && |lens'| == |lens| && (forall k :: k in nodes - {n, m} ==> lens'[k] == lens[k])
    && lens[n] == lens[m] == lens'[x] + 1
  }

  lemma AdoptShares(lens: seq<nat>, lens': seq<nat>, nodes: set<nat>, n: nat, m: nat, x: nat, top: nat)
    requires Adopted(lens, lens', nodes, n, m, x) && lens[n] <= top
    ensures Sum(Shares(lens', nodes - {n, m} + {x}, top)) == Sum(Shares(lens, nodes, top))
  {
    hide Sum, Share, Shares;
    var one, two := nodes - {n}, nodes - {n, m};
    assert two == two - {m} == one - {m} && two == two + {x} - {x} == two - {x} && one == one - {n};
    SharesChange(lens, lens, nodes, one, top, n);
    SharesChange(lens, lens, one, two, top, m);
    SharesChange(lens, lens', two, two + {x}, top, x);
    Halves(lens[n], top);
  }

  lemma AdoptCosts(freq: seq<nat>, lens: seq<nat>, lens': seq<nat>, nodes: set<nat>, n: nat, m: nat, x: nat)
    requires Adopted(lens, lens', nodes, n, m, x) && |freq| == |lens|
    ensures var f := freq[n] + freq[m];
      Sum(Costs(freq[x := f], lens', nodes - {n, m} + {x})) == Sum(Costs(freq, lens, nodes)) - f
  {
    hide Sum, Cost, Costs;
    var one, two, f := nodes - {n}, nodes - {n, m}, freq[n] + freq[m];
    assert two == two - {m} == one - {m} && two == two + {x} - {x} == two - {x} && one == one - {n};
    CostsChange(freq, freq, lens, lens, nodes, one, n);
    CostsChange(freq, freq, lens, lens, one, two, m);
    CostsChange(freq, freq[x := f], lens, lens', two, two + {x}, x);
    Shared(freq[n], freq[m], lens[n]);
  }

  lemma Halves(l: nat, top: nat)
    requires 1 <= l <= top
    ensures Share(l - 1, top) == 2 * Share(l, top)
  {
  }

  lemma Shared(a: nat, b: nat, l: nat)
    requires l >= 1
    ensures Cost(a + b, l - 1) == Cost(a, l) + Cost(b, l) - (a + b)
  {
    assert (a + b) * (l - 1) == (a + b) * l - (a + b);
  }

  // ----- how deep a code of least cost must be -----

  /** With a subtree of the given height below each node, some path has at least e bits. */
  ghost predicate Tall(lens: seq<nat>, high: seq<nat>, nodes: set<nat>, e: nat) {
    exists k :: k in nodes && k < |lens| && k < |high| && lens[k] + high[k] >= e
  }

  /** No code for the nodes costs less than c, and one that costs c has a path of at least e bits. */
  ghost predicate Bounded(freq: seq<nat>, high: seq<nat>, nodes: set<nat>, c: int, e: nat) {
    forall lens: seq<nat>, top: nat :: |lens| == |freq| && Codable(lens, nodes, top) ==>
      Sum(Costs(freq, lens, nodes)) >= c && (Sum(Costs(freq, lens, nodes)) == c ==> Tall(lens, high, nodes, e))
  }

  /** a comes before b: it is rarer, or as frequent and not higher. */
  ghost predicate Before(freq: seq<nat>, high: seq<nat>, a: nat, b: nat)
    requires a < |freq| && b < |freq| && a < |high| && b < |high|
  {
    freq[a] < freq[b] || (freq[a] == freq[b] && high[a] <= high[b])
  }

  lemma SwapTall(lens: seq<nat>, high: seq<nat>, nodes: set<nat>, e: nat, a: nat, b: nat)
    requires a in nodes && b in nodes && (forall k :: k in nodes ==> k < |lens| == |high|)
    requires lens[a] == lens[b] || (lens[a] <= lens[b] && high[a] <= high[b])
    requires Tall(Swapped(lens, a, b), high, nodes, e)
    ensures Tall(lens, high, nodes, e)
  {
    var r := Swapped(lens, a, b);
    var k :| k in nodes && k < |r| && k < |high| && r[k] + high[k] >= e;
    if k == a || k == b {
      assert lens[b] + high[b] >= e || lens[a] + high[a] >= e;
    } else {
      assert lens[k] + high[k] >= e;
    }
  }

  lemma SameCrossed(f: nat, g: nat, l: nat, m: nat)
    requires f <= g && l <= m && Cost(f, m) + Cost(g, l) == Cost(f, l) + Cost(g, m)
    ensures f == g || l == m
  {
    hide Cost;
    Crossed(f, g, l, m);
  }

  /** Exchanging costs nothing; if it saves nothing it makes no path longer. */
  lemma Exchange(freq: seq<nat>, high: seq<nat>, lens: seq<nat>, nodes: set<nat>, top: nat, a: nat, b: nat, e: nat)
    requires |lens| == |freq| == |high| && Codable(lens, nodes, top) && a in nodes && b in nodes
    requires Before(freq, high, a, b) && lens[a] <= lens[b]
    ensures Codable(Swapped(lens, a, b), nodes, top)
    ensures var was, now := Sum(Costs(freq, lens, nodes)), Sum(Costs(freq, Swapped(lens, a, b), nodes));
      now < was || (now == was && (Tall(Swapped(lens, a, b), high, nodes, e) ==> Tall(lens, high, nodes, e)))
  {
    hide Sum, Pow2, Costs, Shares, Cost, Tall;
    SwapTotals(freq, lens, nodes, top, a, b);
    Crossed(freq[a], freq[b], lens[a], lens[b]);
    var r := Swapped(lens, a, b);
    if Sum(Costs(freq, r, nodes)) == Sum(Costs(freq, lens, nodes)) {
      SameCrossed(freq[a], freq[b], lens[a], lens[b]);
      if Tall(r, high, nodes, e) { SwapTall(lens, high, nodes, e, a, b); }
    }
  }

  /** n and m are the first two of the nodes. */
  ghost predicate FirstTwo(freq: seq<nat>, high: seq<nat>, nodes: set<nat>, n: nat, m: nat) {
    Foremost(freq, high, nodes, n) && Foremost(freq, high, nodes - {n}, m)
  }

  lemma FirstAreLeast(freq: seq<nat>, high: seq<nat>, nodes: set<nat>, n: nat, m: nat)
    requires FirstTwo(freq, high, nodes, n, m)
    ensures TwoLeast(freq, nodes, n, m)
  {
  }

  /** The first two nodes may as well have the longest codes. */
  lemma Arrange(freq: seq<nat>, high: seq<nat>, lens: seq<nat>, nodes: set<nat>, top: nat, n: nat, m: nat, e: nat)
    returns (r: seq<nat>)
    requires |lens| == |freq| == |high| && Codable(lens, nodes, top) && FirstTwo(freq, high, nodes, n, m)
    ensures |r| == |freq| && Codable(r, nodes, top)
    ensures var was, now := Sum(Costs(freq, lens, nodes)), Sum(Costs(freq, r, nodes));
      now < was || (now == was && (Tall(r, high, nodes, e) ==> Tall(lens, high, nodes, e)))
    ensures r[m] <= r[n] && forall k :: k in nodes && k != n ==> r[k] <= r[m]
  {
    hide Sum, Pow2, Costs, Shares, Cost, Tall;
    var a := Longest(lens, nodes);
    Exchange(freq, high, lens, nodes, top, n, a, e);
    var one := Swapped(lens, n, a);
    assert m in nodes - {n};
    var b := Longest(one, nodes - {n});
    Exchange(freq, high, one, nodes, top, m, b, e);
    r := Swapped(one, m, b);
  }

  lemma ShortenTall(lens: seq<nat>, high: seq<nat>, nodes: set<nat>, n: nat, l: nat, e: nat)
    requires n < |lens| && l <= lens[n] && Tall(lens[n := l], high, nodes, e)
    ensures Tall(lens, high, nodes, e)
  {
    var k :| k in nodes && k < |lens| && k < |high| && lens[n := l][k] + high[k] >= e;
    assert lens[k] + high[k] >= e;
  }

  /** The height of a father. */
  ghost function Above(a: nat, b: nat): nat { (if a >= b then a else b) + 1 }

  lemma AdoptTall(lens: seq<nat>, lens': seq<nat>, high: seq<nat>, nodes: set<nat>, n: nat, m: nat, x: nat, e: nat)
    requires Adopted(lens, lens', nodes, n, m, x) && |high| == |lens|
    requires Tall(lens', high[x := Above(high[n], high[m])], nodes - {n, m} + {x}, e)
    ensures Tall(lens, high, nodes, e)
  {
    var high', nodes' := high[x := Above(high[n], high[m])], nodes - {n, m} + {x};
    var k :| k in nodes' && k < |lens'| && k < |high'| && lens'[k] + high'[k] >= e;
    if k == x {
      assert lens[n] + high[n] >= e || lens[m] + high[m] >= e;
    } else {
      assert k in nodes - {n, m};
      assert lens[k] + high[k] >= e;
    }
  }

  /** The bounds over a merge, the heights included. */
  lemma MergeTall(freq: seq<nat>, high: seq<nat>, nodes: set<nat>, n: nat, m: nat, x: nat, c: int, e: nat)
    requires |high| == |freq| && FirstTwo(freq, high, nodes, n, m) && x !in nodes && x < |freq|
    requires Bounded(freq[x := freq[n] + freq[m]], high[x := Above(high[n], high[m])], nodes - {n, m} + {x}, c, e)
    ensures Bounded(freq, high, nodes, c + freq[n] + freq[m], e)
  {
    hide Sum, Pow2, Costs, Shares, Cost, Tall, Above;
    FirstAreLeast(freq, high, nodes, n, m);
    hide Foremost;
    forall lens: seq<nat>, top: nat | |lens| == |freq| && Codable(lens, nodes, top)
      ensures var now := Sum(Costs(freq, lens, nodes));
        now >= c + freq[n] + freq[m] && (now == c + freq[n] + freq[m] ==> Tall(lens, high, nodes, e))
    {
      var r := Arrange(freq, high, lens, nodes, top, n, m, e);
      Shorten(freq, r, nodes, top, n, r[m]);
      var l := r[n := r[m]];
      NotEmpty(l, nodes, top, n, m);
      var l' := l[x := l[n] - 1];
      AdoptShares(l, l', nodes, n, m, x, top);
      AdoptCosts(freq, l, l', nodes, n, m, x);
      assert Codable(l', nodes - {n, m} + {x}, top);
      if Sum(Costs(freq, lens, nodes)) == c + freq[n] + freq[m] {
        AdoptTall(l, l', high, nodes, n, m, x, e);
        ShortenTall(r, high, nodes, n, r[m], e);
      }
    }
  }

  /** After joining two least frequent nodes a bound for the rest is a bound for all, less what the father weighs. */
  lemma MergeBound(freq: seq<nat>, nodes: set<nat>, n: nat, m: nat, x: nat, c: int)
    requires TwoLeast(freq, nodes, n, m) && x !in nodes && x < |freq|
    requires AtLeast(freq[x := freq[n] + freq[m]], nodes - {n, m} + {x}, c)
    ensures AtLeast(freq, nodes, c + freq[n] + freq[m])
  {
    hide Sum, Costs, Codable;
    var flat := seq(|freq|, _ => 0);
    assert FirstTwo(freq, flat, nodes, n, m);
    AnyHeight(freq[x := freq[n] + freq[m]], flat[x := Above(flat[n], flat[m])], nodes - {n, m} + {x}, c, x);
    MergeTall(freq, flat, nodes, n, m, x, c, 0);
  }

  lemma AnyHeight(freq: seq<nat>, high: seq<nat>, nodes: set<nat>, c: int, x: nat)
    requires AtLeast(freq, nodes, c) && x in nodes && x < |freq| == |high|
    ensures Bounded(freq, high, nodes, c, 0)
  {
    hide Sum, Costs, Codable;
    forall lens: seq<nat>, top: nat | |lens| == |freq| && Codable(lens, nodes, top) ensures Tall(lens, high, nodes, 0) {
      assert lens[x] + high[x] >= 0;
    }
  }

  // ----- the Kraft sum, symbol by symbol -----

  lemma {:induction false} CountPrefix(lens: seq<nat>, n: nat, k: nat, l: nat)
    requires k <= n <= |lens|
    ensures Count(lens[..n], k, l) == Count(lens, k, l)
    decreases k
  {
    if k > 0 { CountPrefix(lens, n, k - 1, l); }
  }

  lemma {:induction false} BelowLast(lens: seq<nat>, l: nat)
    requires lens != [] && l <= MAXBITS + 1
    ensures var x := lens[|lens| - 1];
      Below(lens, l) == Below(lens[..|lens| - 1], l) + if 1 <= x < l then Pow2(MAXBITS - x) else 0
    decreases l
  {
    hide Shl, Pow2, Count;
    if l > 1 {
      var n, k := |lens| - 1, l - 1;
      BelowLast(lens, k);
      CountLast(lens, k);
      ShlAdd(BlCount(lens[..n], k), if lens[n] == k then 1 else 0, MAXBITS - k);
      ShlOne(MAXBITS - k);
    }
  }

  lemma CountLast(lens: seq<nat>, l: nat)
    requires lens != []
    ensures Count(lens, |lens|, l) ==
            Count(lens[..|lens| - 1], |lens| - 1, l) + if lens[|lens| - 1] == l then 1 else 0
  {
    CountPrefix(lens, |lens| - 1, |lens| - 1, l);
  }

  /** Symbols take no more of the code space than the Kraft sum says. */
  lemma {:induction false} SharesKraft(lens: seq<nat>, nodes: set<nat>)
    requires forall k :: k in nodes && k < |lens| ==> lens[k] >= 1
    ensures Sum(Shares(lens, nodes, MAXBITS)) <= Kraft(lens)
    decreases |lens|
  {
    hide Pow2, Below;
    if lens == [] {
      assert Shares(lens, nodes, MAXBITS) == [];
    } else {
      var n := |lens| - 1;
      SharesKraft(lens[..n], nodes);
      BelowLast(lens, MAXBITS + 1);
      assert Shares(lens, nodes, MAXBITS)[..n] == Shares(lens[..n], nodes, MAXBITS);
    }
  }

  // ----- the cost of all symbols -----

  /** The symbols with a frequency. */
  ghost function Used(freq: seq<nat>, n: nat): set<nat>
    requires n <= |freq|
  {
    set s | 0 <= s < n && freq[s] > 0
  }

  /** The lengths of some prefix code for all symbols in use, none of them empty. */
  ghost predicate CodeFor(lens: seq<nat>, freq: seq<nat>, top: nat) {
    && |lens| == |freq| && (forall n :: 0 <= n < |freq| && freq[n] > 0 ==> lens[n] >= 1)
    && Codable(lens, Used(freq, |freq|), top)
  }

  /** No prefix code whatever, of any lengths, costs less. */
  ghost predicate Cheapest(freq: seq<nat>, lens: seq<nat>) {
    && |lens| == |freq|
    && forall other: seq<nat>, top: nat :: CodeFor(other, freq, top) ==> Bill(freq, lens) <= Bill(freq, other)
  }

  /** A rarer symbol never has a shorter code. */
  ghost predicate RarerNoShorter(freq: seq<nat>, lens: seq<nat>) {
    && |lens| == |freq|
    && forall a, b :: 0 <= a < |freq| && 0 <= b < |freq| && 0 < freq[a] < freq[b] ==> lens[a] >= lens[b]
  }

  lemma {:induction false} SumTail(s: seq<int>, k: nat)
    requires k <= |s| && forall i :: k <= i < |s| ==> s[i] == 0
    ensures Sum(s) == Sum(s[..k])
    decreases |s|
  {
    if k == |s| {
      assert s[..k] == s;
    } else {
      SumTail(s[..|s| - 1], k);
      assert s[..|s| - 1][..k] == s[..k];
    }
  }

  lemma {:induction false} BillIsSum(freq: seq<nat>, lens: seq<nat>, nodes: set<nat>, k: nat)
    requires |freq| == |lens| && k <= |freq| && forall n :: 0 <= n < k && n !in nodes ==> freq[n] == 0
    ensures Sum(Costs(freq, lens, nodes)[..k]) == Bill(freq[..k], lens[..k])
    decreases k
  {
    if k > 0 {
      var s := Costs(freq, lens, nodes);
      BillIsSum(freq, lens, nodes, k - 1);
      assert s[..k][..k - 1] == s[..k - 1];
      assert freq[..k][..k - 1] == freq[..k - 1] && lens[..k][..k - 1] == lens[..k - 1];
      LastCost(s[..k], freq[..k], lens[..k]);
    }
  }

  lemma LastCost(s: seq<int>, freq: seq<nat>, lens: seq<nat>)
    requires |s| == |freq| == |lens| > 0
    ensures var n := |s| - 1;
      Sum(s) == Sum(s[..n]) + s[n] && Bill(freq, lens) == Bill(freq[..n], lens[..n]) + Cost(freq[n], lens[n])
  {
  }

  /** The cost of the used symbols is that of all. */
  lemma BillIsCosts(freq: seq<nat>, lens: seq<nat>, n: nat)
    requires |freq| == |lens| && n <= |freq|
    ensures Sum(Costs(freq, lens, Used(freq, n))) == Bill(freq[..n], lens[..n])
  {
    hide Sum, Bill, Cost;
    SumTail(Costs(freq, lens, Used(freq, n)), n);
    BillIsSum(freq, lens, Used(freq, n), n);
  }

  lemma {:induction false} BillMono(freq: seq<nat>, a: seq<nat>, b: seq<nat>)
    requires |freq| == |a| == |b| && forall n :: 0 <= n < |freq| && freq[n] > 0 ==> a[n] <= b[n]
    ensures Bill(freq, a) <= Bill(freq, b)
    decreases |freq|
  {
    if freq != [] {
      var n := |freq| - 1;
      BillMono(freq[..n], a[..n], b[..n]);
      if freq[n] > 0 { assert freq[n] * (b[n] - a[n]) >= 0; }
    }
  }

  /** One bit for each symbol is the least there is. */
  lemma OneBitEach(freq: seq<nat>, lens: seq<nat>)
    requires |freq| == |lens| && forall n :: 0 <= n < |lens| ==> lens[n] <= 1
    requires forall n :: 0 <= n < |freq| && freq[n] > 0 ==> lens[n] >= 1
    ensures Cheapest(freq, lens) && RarerNoShorter(freq, lens)
  {
    hide Bill, Codable;
    forall other: seq<nat>, top: nat | CodeFor(other, freq, top) ensures Bill(freq, lens) <= Bill(freq, other) {
      BillMono(freq, lens, other);
    }
  }

  lemma CodableMore(freq: seq<nat>, lens: seq<nat>, n: nat, top: nat, pad: seq<nat>)
    requires n <= |freq| && |lens| == n && |lens + pad| == |freq| && CodeFor(lens, freq[..n], top)
    ensures Codable(lens + pad, Used(freq, n), top)
  {
    hide Sum, Pow2, Share;
    assert Used(freq[..n], n) == Used(freq, n);
    var s := Shares(lens + pad, Used(freq, n), top);
    SumTail(s, n);
    assert s[..n] == Shares(lens, Used(freq, n), top);
  }

  lemma CodableLess(freq: seq<nat>, lens: seq<nat>, n: nat, top: nat)
    requires n <= |freq| == |lens| && Codable(lens, Used(freq, n), top)
    ensures Codable(lens[..n], Used(freq[..n], n), top)
  {
    hide Sum, Pow2, Share;
    assert Used(freq[..n], n) == Used(freq, n);
    var s := Shares(lens, Used(freq, n), top);
    SumTail(s, n);
    assert s[..n] == Shares(lens[..n], Used(freq, n), top);
  }

  /** Lengths of least cost for the first n symbols. */
  lemma LeastIsCheapest(freq: seq<nat>, lens: seq<nat>, n: nat)
    requires |freq| == |lens| && n <= |freq| && AtLeast(freq, Used(freq, n), Sum(Costs(freq, lens, Used(freq, n))))
    ensures Cheapest(freq[..n], lens[..n])
  {
    hide Sum, Bill, Costs, Codable, Used;
    var f, pad := freq[..n], seq(|freq| - n, _ => 0);
    BillIsCosts(freq, lens, n);
    forall other: seq<nat>, top: nat | CodeFor(other, f, top) ensures Bill(f, lens[..n]) <= Bill(f, other) {
      CodableMore(freq, other, n, top, pad);
      BillIsCosts(freq, other + pad, n);
      assert (other + pad)[..n] == other;
    }
  }

  lemma LeastIsRanked(freq: seq<nat>, lens: seq<nat>, n: nat, top: nat)
    requires |freq| == |lens| && n <= |freq| && Codable(lens, Used(freq, n), top)
    requires AtLeast(freq, Used(freq, n), Sum(Costs(freq, lens, Used(freq, n))))
    ensures RarerNoShorter(freq[..n], lens[..n])
  {
    hide Sum, Costs, Codable, AtLeast;
    var f, l := freq[..n], lens[..n];
    forall a, b | 0 <= a < n && 0 <= b < n && 0 < f[a] < f[b] ensures l[a] >= l[b] {
      RarerLonger(freq, lens, Used(freq, n), top, a, b);
    }
  }

  // ----- within a limit -----

  /** The lengths of a prefix code for all symbols in use, none above the limit. */
  ghost predicate KeepsTo(lens: seq<nat>, freq: seq<nat>, limit: nat) {
    && (exists top: nat :: CodeFor(lens, freq, top))
    && (forall n :: 0 <= n < |freq| && freq[n] > 0 ==> lens[n] <= limit)
  }

  /** A code of least cost keeps to the limit. */
  ghost predicate Attainable(freq: seq<nat>, limit: nat) {
    exists lens: seq<nat> :: KeepsTo(lens, freq, limit) && Cheapest(freq, lens)
  }

  /** Complete lengths keep to their limit. */
  lemma KraftKeeps(freq: seq<nat>, lens: seq<nat>, n: nat, limit: nat)
    requires |lens| == |freq| && n <= |freq| && Kraft(lens[..n]) <= Pow2(MAXBITS) && limit <= MAXBITS
    requires forall k :: 0 <= k < |freq| && freq[k] > 0 ==> k < n && 1 <= lens[k] <= limit
    ensures KeepsTo(lens, freq, limit)
  {
    hide Sum, Pow2, Kraft, Share;
    var nodes := Used(freq, |freq|);
    SharesKraft(lens[..n], nodes);
    var s := Shares(lens, nodes, MAXBITS);
    SumTail(s, n);
    assert s[..n] == Shares(lens[..n], nodes, MAXBITS);
    assert CodeFor(lens, freq, MAXBITS);
  }
}
