/** Frequencies for which build_tree() of zlib/trees.c cannot give the code length alphabet a code of least cost: none
    keeps to the seven bits that a DEFLATE header can hold. */
module TreeWitness {
  import opened Bits
  import opened Sums
  import opened TreeCost
  import opened TreeWeight
  import opened TreeHeight

  /** Fibonacci numbers for nine of the 19 code length symbols, and the nodes that joining the first two each time
      makes. */
  const GROWING: seq<nat> :=
    [1, 1, 2, 3, 5, 8, 13, 21, 34, 0, 0, 0, 0, 0, 0, 0, 0, 0, 0] + [2, 4, 7, 12, 20, 33, 54, 88]

  const HEIGHTS: seq<nat> := [0, 0, 0, 0, 0, 0, 0, 0, 0, 0, 0, 0, 0, 0, 0, 0, 0, 0, 0] + [1, 2, 3, 4, 5, 6, 7, 8]

  /** How far below the root they are. */
  const LEVELS: seq<nat> := [8, 8, 7, 6, 5, 4, 3, 2, 1, 0, 0, 0, 0, 0, 0, 0, 0, 0, 0] + [7, 6, 5, 4, 3, 2, 1, 0]

  /** A code costs c, none costs less, and one that costs no more has eight bits somewhere. */
  ghost predicate Tight(freq: seq<nat>, high: seq<nat>, deep: seq<nat>, nodes: set<nat>, c: int) {
    && |freq| == |high| == |deep| && Bounded(freq, high, nodes, c, 8)
    && Sum(Costs(freq, deep, nodes)) == c && Sum(Shares(deep, nodes, 8)) == Pow2(8)
  }

  /** n and m with the father x. */
  ghost predicate Brothers(freq: seq<nat>, high: seq<nat>, deep: seq<nat>, nodes: set<nat>, n: nat, m: nat, x: nat) {
    && |freq| == |high| == |deep| && FirstTwo(freq, high, nodes, n, m) && x !in nodes && x < |freq|
    && freq[x] == freq[n] + freq[m] && high[x] == Above(high[n], high[m]) && deep[n] == deep[m] == deep[x] + 1 <= 8
  }

  lemma JoinTight(freq: seq<nat>, high: seq<nat>, deep: seq<nat>, nodes: set<nat>, n: nat, m: nat, x: nat, c: int)
    requires Brothers(freq, high, deep, nodes, n, m, x) && Tight(freq, high, deep, nodes - {n, m} + {x}, c)
    ensures Tight(freq, high, deep, nodes, c + freq[x])
  {
    hide Bounded, Sum, Costs, Shares, Pow2, Above;
    assert freq[x := freq[n] + freq[m]] == freq;
    assert high[x := Above(high[n], high[m])] == high;
    MergeTall(freq, high, nodes, n, m, x, c, 8);
    AdoptCosts(freq, deep, deep, nodes, n, m, x);
    AdoptShares(deep, deep, nodes, n, m, x, 8);
  }

  ghost predicate TightFor(nodes: set<nat>, c: int) { Tight(GROWING, HEIGHTS, LEVELS, nodes, c) }

  lemma Join(nodes: set<nat>, rest: set<nat>, n: nat, m: nat, x: nat, c: int)
    requires rest == nodes - {n, m} + {x} && TightFor(rest, c) && Brothers(GROWING, HEIGHTS, LEVELS, nodes, n, m, x)
    ensures TightFor(nodes, c + GROWING[x])
  {
    hide Tight, Brothers;
    JoinTight(GROWING, HEIGHTS, LEVELS, nodes, n, m, x, c);
  }

  lemma LastJoins()
    ensures TightFor({24, 7, 8}, 142)
  {
    hide TightFor;
    RootTight();
    Join({25, 8}, {26}, 8, 25, 26, 0);
    Join({24, 7, 8}, {25, 8}, 7, 24, 25, 88);
  }

  lemma RootTight()
    ensures TightFor({26}, 0)
  {
    hide Bounded, Sum, Costs, Shares, Pow2;
    RootBounded(GROWING, HEIGHTS, 26);
    OnlyRoot(GROWING, LEVELS, 26, 8);
  }

  lemma LaterJoins()
    ensures TightFor({22, 5, 6, 7, 8}, 195)
  {
    hide TightFor;
    LastJoins();
    Join({23, 6, 7, 8}, {24, 7, 8}, 6, 23, 24, 142);
    Join({22, 5, 6, 7, 8}, {23, 6, 7, 8}, 5, 22, 23, 175);
  }

  lemma MiddleJoins()
    ensures TightFor({20, 3, 4, 5, 6, 7, 8}, 214)
  {
    hide TightFor;
    LaterJoins();
    Join({21, 4, 5, 6, 7, 8}, {22, 5, 6, 7, 8}, 4, 21, 22, 195);
    Join({20, 3, 4, 5, 6, 7, 8}, {21, 4, 5, 6, 7, 8}, 3, 20, 21, 207);
  }

  lemma EarlyJoin()
    ensures TightFor({19, 2, 3, 4, 5, 6, 7, 8}, 218)
  {
    hide TightFor;
    MiddleJoins();
    Join({19, 2, 3, 4, 5, 6, 7, 8}, {20, 3, 4, 5, 6, 7, 8}, 2, 19, 20, 214);
  }

  lemma FirstJoins()
    ensures TightFor({0, 1, 2, 3, 4, 5, 6, 7, 8}, 220)
  {
    hide TightFor;
    EarlyJoin();
    Join({0, 1, 2, 3, 4, 5, 6, 7, 8}, {19, 2, 3, 4, 5, 6, 7, 8}, 0, 1, 19, 218);
  }

  lemma {:induction false} SumAtMost(s: seq<int>, b: int)
    requires forall i :: 0 <= i < |s| ==> s[i] <= b
    ensures Sum(s) <= |s| * b
    decreases |s|
  {
    if s != [] { SumAtMost(s[..|s| - 1], b); }
  }

  lemma UsedNine()
    ensures Used(GROWING, 19) == {0, 1, 2, 3, 4, 5, 6, 7, 8}
  {
  }

  /** The levels are a code for the nine symbols. */
  lemma LevelsCode()
    ensures CodeFor(LEVELS[..19], GROWING[..19], 8) && Bill(GROWING[..19], LEVELS[..19]) == 220
  {
    hide Bounded, Sum, Costs, Shares, Bill, Pow2;
    FirstJoins();
    UsedNine();
    assert Codable(LEVELS, Used(GROWING, 19), 8);
    CodableLess(GROWING, LEVELS, 19, 8);
    BillIsCosts(GROWING, LEVELS, 19);
  }

  /** A cheapest code has eight bits for one of them. */
  lemma EightSomewhere(lens: seq<nat>, top: nat) returns (k: nat)
    requires CodeFor(lens, GROWING[..19], top) && Cheapest(GROWING[..19], lens)
    ensures k < 9 && |lens| == 19 && lens[k] >= 8
  {
    hide Bounded, Sum, Costs, Shares, Bill, Codable, Pow2;
    LevelsCode();
    FirstJoins();
    UsedNine();
    var pad := seq(8, _ => 0);
    CodableMore(GROWING, lens, 19, top, pad);
    BillIsCosts(GROWING, lens + pad, 19);
    assert (lens + pad)[..19] == lens;
    CostsTall(GROWING, HEIGHTS, Used(GROWING, 19), 220, 8, lens + pad, top);
    k :| k in Used(GROWING, 19) && k < 27 && (lens + pad)[k] + HEIGHTS[k] >= 8;
  }

  lemma NotInSeven(lens: seq<nat>)
    ensures !(KeepsTo(lens, GROWING[..19], 7) && Cheapest(GROWING[..19], lens))
  {
    hide Cheapest, CodeFor;
    var f := GROWING[..19];
    if top: nat :| CodeFor(lens, f, top) && Cheapest(f, lens) {
      var k := EightSomewhere(lens, top);
      assert f[k] > 0;
    }
  }

  /** For these frequencies of code length symbols no cheapest code keeps to seven bits. */
  lemma NoneInSeven()
    ensures !Attainable(GROWING[..19], 7) && Sum(GROWING[..19]) <= 65535
  {
    hide Sum, KeepsTo, Cheapest;
    SumAtMost(GROWING[..19], 34);
    forall lens: seq<nat> ensures !(KeepsTo(lens, GROWING[..19], 7) && Cheapest(GROWING[..19], lens)) {
      NotInSeven(lens);
    }
  }
}
