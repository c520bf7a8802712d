/** How much room the second-level tables of zlib/inftrees.c take. The bounds ENOUGH_LENS and ENOUGH_DISTS of
    zlib/inftrees.h were found by exhaustive search; here they follow from a count along the sorted codes. */
module TableSpace {
  import opened Bits
  import opened Huffman
  import opened Ranks
  import opened DecodeTable

  /** Of the indices of length lens[s] behind the root entry of s, those not yet taken when s is entered. */
  ghost function Rem(lens: seq<nat>, root: nat, s: nat): (r: nat)
    requires IsSymbol(lens, s) && root < lens[s]
    ensures r >= 1
  {
    Pow2(lens[s] - root) - Low(Canon(lens, s), lens[s] - root)
  }

  /** Never falls from one symbol to the next behind the same root entry. */
  ghost function Value(lens: seq<nat>, root: nat, s: nat): int
    requires IsSymbol(lens, s) && root < lens[s]
  {
    Rank(lens, s) + Rem(lens, root, s) - (lens[s] - root)
  }

  /** Adding one to c, with its low b bits and the rest apart, then d zeros. */
  lemma AddOne(c: nat, b: nat, d: nat)
    ensures var c', r := Shl(c + 1, d), Pow2(b) - Low(c, b);
      if r == 1 then Shr(c', b + d) == Shr(c, b) + 1 && Low(c', b + d) == 0
      else Shr(c', b + d) == Shr(c, b) && Low(c', b + d) == Shl(Low(c, b) + 1, d)
  {
    hide Shl, Shr, Low, Pow2;
    var q, l := Shr(c, b), Low(c, b);
    Split(c, b);
    if l + 1 == Pow2(b) {
      ShlAdd(q, 1, b);
      ShlOne(b);
      assert c + 1 == Shl(q + 1, b);
      ShlShl(q + 1, b, d);
      SplitUnique(Shl(c + 1, d), b + d, q + 1, 0);
    } else {
      ShlAdd(l + 1, Shl(q, b), d);
      ShlShl(q, b, d);
      ShlLess(l + 1, Pow2(b), d);
      ShlPow(b, d);
      SplitUnique(Shl(c + 1, d), b + d, q, Shl(l + 1, d));
    }
  }

  /** Doubling d times adds at least d. */
  lemma {:induction false} Doubled(x: nat, d: nat)
    requires x >= 1
    ensures Shl(x, d) >= x + d
  {
    if d > 0 { Doubled(x, d - 1); }
  }

  /** What is left of b bits, d bits further on. */
  lemma RestShl(l: nat, b: nat, d: nat)
    requires l + 1 < Pow2(b)
    ensures Pow2(b + d) - Shl(l + 1, d) >= Pow2(b) - l - 1 + d
  {
    hide Shl, Pow2;
    var x := Pow2(b) - l - 1;
    ShlAdd(x, l + 1, d);
    ShlPow(b, d);
    Doubled(x, d);
  }

  /** From one symbol to the next: behind the same root entry the value does not fall; the last symbol there leaves
      nothing, and the next root entry starts afresh. */
  lemma CellNext(lens: seq<nat>, root: nat, s: nat, t: nat)
    requires IsSymbol(lens, s) && IsSymbol(lens, t) && Rank(lens, t) == Rank(lens, s) + 1 && root < lens[s]
    ensures lens[s] <= lens[t]
    ensures Cell(lens, root, t) == Cell(lens, root, s) ==> Value(lens, root, t) >= Value(lens, root, s)
    ensures Cell(lens, root, t) != Cell(lens, root, s) ==>
      && Rem(lens, root, s) == 1 && Rem(lens, root, t) == Pow2(lens[t] - root)
      && Cell(lens, root, t) == Cell(lens, root, s) + 1
  {
    hide Shl, Shr, Low, Pow2, Canon, Rank, Cell;
    CanonNext(lens, s, t);
    CellIsTop(lens, root, s);
    CellIsTop(lens, root, t);
    var c, b, d := Canon(lens, s), lens[s] - root, lens[t] - lens[s];
    assert b + d == lens[t] - root;
    AddOne(c, b, d);
    if Low(c, b) + 1 < Pow2(b) { RestShl(Low(c, b), b, d); }
  }

  /** The first long code starts a root entry. */
  lemma CellFirst(lens: seq<nat>, root: nat, s: nat, t: nat)
    requires IsSymbol(lens, s) && IsSymbol(lens, t) && Rank(lens, t) == Rank(lens, s) + 1 && lens[s] <= root < lens[t]
    ensures Rem(lens, root, t) == Pow2(lens[t] - root) && Rank(lens, t) == Offset(lens, root + 1)
  {
    hide Shl, Shr, Low, Pow2, Canon;
    CanonNext(lens, s, t);
    var c, a, b := Canon(lens, s) + 1, root - lens[s], lens[t] - root;
    ShlShl(c, a, b);
    assert a + b == lens[t] - lens[s];
    SplitUnique(Shl(c, a + b), b, Shl(c, a), 0);
    RankBound(lens, s);
    RankBound(lens, t);
    OffsetMono(lens, lens[s] + 1, root + 1);
    OffsetMono(lens, root + 1, lens[t]);
  }

  /** The last symbol behind the root entry of s. */
  lemma {:induction false} LastInCell(lens: seq<nat>, root: nat, s: nat) returns (t: nat)
    requires IsSymbol(lens, s) && root < lens[s] && Kraft(lens) == Pow2(MAXBITS)
    ensures IsSymbol(lens, t) && lens[s] <= lens[t] && Cell(lens, root, t) == Cell(lens, root, s)
    ensures Rem(lens, root, t) == 1 && Value(lens, root, t) >= Value(lens, root, s) && Rank(lens, s) <= Rank(lens, t)
    ensures forall u: nat :: IsSymbol(lens, u) && root < lens[u] && Cell(lens, root, u) == Cell(lens, root, s) ==>
      Rank(lens, u) <= Rank(lens, t)
    decreases Symbols(lens) - Rank(lens, s)
  {
    hide Rank, Rem, Cell, Kraft, Symbols, Pow2;
    var k := Rank(lens, s);
    RankBound(lens, s);
    if k + 1 == Symbols(lens) {
      t := s;
      LastLeavesNone(lens, root, s);
      forall u: nat | IsSymbol(lens, u) ensures Rank(lens, u) <= k { RankBound(lens, u); }
    } else {
      var n := AtRank(lens, k + 1);
      CellNext(lens, root, s, n);
      if Cell(lens, root, n) == Cell(lens, root, s) {
        t := LastInCell(lens, root, n);
      } else {
        t := s;
        forall u: nat | IsSymbol(lens, u) && root < lens[u] && Rank(lens, u) > k
          ensures Cell(lens, root, u) != Cell(lens, root, s)
        {
          CellMono(lens, root, n, u);
        }
      }
    }
  }

  lemma CellMono(lens: seq<nat>, root: nat, s: nat, u: nat)
    requires IsSymbol(lens, s) && IsSymbol(lens, u) && root < lens[s] && root < lens[u]
    requires Rank(lens, s) <= Rank(lens, u)
    ensures Cell(lens, root, s) <= Cell(lens, root, u) && lens[s] <= lens[u]
  {
    hide Rank, Pos, Shr;
    RankOrder(lens, s, u);
    if s != u {
      PosOrder(lens, s, u);
      ShrMono(Pos(lens, s), Pos(lens, u), MAXBITS - root);
    }
  }

  lemma LastLeavesNone(lens: seq<nat>, root: nat, s: nat)
    requires IsSymbol(lens, s) && root < lens[s] && Kraft(lens) == Pow2(MAXBITS) && Rank(lens, s) + 1 == Symbols(lens)
    ensures Rem(lens, root, s) == 1
  {
    hide Rank, Symbols, Pos, Canon, Kraft, Shl, Shr, Low, Pow2;
    var c, l, b := Canon(lens, s), lens[s], lens[s] - root;
    PosLast(lens, s);
    PosIsCanon(lens, s);
    ShlAdd(c, 1, MAXBITS - l);
    ShlOne(MAXBITS - l);
    ShlPow(l, MAXBITS - l);
    ShlCancel(c + 1, Pow2(l), MAXBITS - l);
    ShlPow(root, b);
    Split(c, b);
    if Low(c, b) + 1 < Pow2(b) {
      if Shr(c, b) < Pow2(root) {
        ShlLess(Shr(c, b), Pow2(root), b);
      } else {
        ShlMono(Pow2(root), Shr(c, b), b);
      }
    }
  }

  /** Some code behind the root entry of s needs all curr index bits. */
  ghost predicate Needed(lens: seq<nat>, root: nat, s: nat, curr: nat)
    requires IsSymbol(lens, s) && root < lens[s]
  {
    exists u: nat ::
      IsSymbol(lens, u) && lens[u] == root + curr && root < lens[u] && Cell(lens, root, u) == Cell(lens, root, s)
  }

  /** No code behind it needs more. */
  ghost predicate Wide(lens: seq<nat>, root: nat, s: nat, curr: nat)
    requires IsSymbol(lens, s) && root < lens[s]
  {
    forall u: nat :: IsSymbol(lens, u) && root < lens[u] && Cell(lens, root, u) == Cell(lens, root, s) ==>
      lens[u] <= root + curr
  }

  /** The space used when s is entered: every second-level table so far has cost hardly more than its symbols. */
  ghost predicate Thrifty(lens: seq<nat>, root: nat, s: nat, curr: nat, used: nat)
    requires IsSymbol(lens, s)
  {
    if lens[s] <= root then used == Pow2(root)
    else
      && used % 2 == 0 && Needed(lens, root, s, curr) && Wide(lens, root, s, curr)
      && used + Offset(lens, root + 1) + 1 <= Pow2(root) + Value(lens, root, s) + Pow2(curr)
  }

  /** The next symbol behind the same root entry. */
  lemma ThriftySame(lens: seq<nat>, root: nat, s: nat, t: nat, curr: nat, used: nat)
    requires IsSymbol(lens, s) && IsSymbol(lens, t) && Rank(lens, t) == Rank(lens, s) + 1
    requires root < lens[s] && root < lens[t] && Thrifty(lens, root, s, curr, used)
    requires Cell(lens, root, s) == Cell(lens, root, t)
    ensures Thrifty(lens, root, t, curr, used)
  {
    hide Rank, Value, Cell, Offset, Pow2;
    CellNext(lens, root, s, t);
  }

  lemma {:induction false} Growth(a: nat, b: nat)
    requires a <= b
    ensures Pow2(a) - a <= Pow2(b) - b
    decreases b
  {
    if a < b { Growth(a, b - 1); }
  }

  /** The last symbol behind a root entry has the longest code there. */
  lemma LastIsLongest(lens: seq<nat>, root: nat, s: nat, curr: nat)
    requires IsSymbol(lens, s) && root < lens[s] && Needed(lens, root, s, curr) && Wide(lens, root, s, curr)
    requires forall u: nat :: IsSymbol(lens, u) && root < lens[u] && Cell(lens, root, u) == Cell(lens, root, s) ==>
      Rank(lens, u) <= Rank(lens, s)
    ensures lens[s] == root + curr
  {
    hide Rank, Cell;
    var u: nat :| IsSymbol(lens, u) && lens[u] == root + curr && root < lens[u]
      && Cell(lens, root, u) == Cell(lens, root, s);
    CellMono(lens, root, u, s);
  }

  /** A new second-level table. */
  lemma ThriftyNew(lens: seq<nat>, root: nat, s: nat, t: nat, curr: nat, used: nat, curr': nat)
    requires IsSymbol(lens, s) && IsSymbol(lens, t) && Rank(lens, t) == Rank(lens, s) + 1 && 1 <= root < lens[t]
    requires Thrifty(lens, root, s, curr, used) && 1 <= curr'
    requires root < lens[s] ==> Cell(lens, root, s) != Cell(lens, root, t)
    requires Needed(lens, root, t, curr') && Wide(lens, root, t, curr')
    ensures Thrifty(lens, root, t, curr', used + Pow2(curr'))
  {
    hide Rank, Cell, Offset, Needed, Wide;
    if lens[s] <= root {
      CellFirst(lens, root, s, t);
      Growth(1, lens[t] - root);
    } else {
      CellNext(lens, root, s, t);
      OnlyBefore(lens, root, s, t);
      LastIsLongest(lens, root, s, curr);
      Growth(curr, lens[t] - root);
    }
  }

  lemma OnlyBefore(lens: seq<nat>, root: nat, s: nat, t: nat)
    requires IsSymbol(lens, s) && IsSymbol(lens, t) && Rank(lens, t) == Rank(lens, s) + 1
    requires root < lens[s] && root < lens[t] && Cell(lens, root, s) != Cell(lens, root, t)
    ensures forall u: nat :: IsSymbol(lens, u) && root < lens[u] && Cell(lens, root, u) == Cell(lens, root, s) ==>
      Rank(lens, u) <= Rank(lens, s)
  {
    hide Rank, Cell;
    CellNext(lens, root, s, t);
    forall u: nat | IsSymbol(lens, u) && root < lens[u] && Rank(lens, u) > Rank(lens, s)
      ensures Cell(lens, root, u) != Cell(lens, root, s)
    {
      CellMono(lens, root, t, u);
    }
  }

  /** The space is bounded by the symbols, the short ones among them, and the last table. */
  lemma SpaceBound(lens: seq<nat>, root: nat, s: nat, curr: nat, used: nat)
    requires IsSymbol(lens, s) && root < lens[s] && Kraft(lens) == Pow2(MAXBITS) && Thrifty(lens, root, s, curr, used)
    ensures root + curr <= MAXBITS
    ensures used + Offset(lens, root + 1) + 1 + curr <= Pow2(root) + Symbols(lens) + Pow2(curr)
  {
    hide Rank, Cell, Offset, Kraft, Pow2, Rem;
    var t := LastInCell(lens, root, s);
    assert Needed(lens, root, t, curr) && Wide(lens, root, t, curr);
    LastIsLongest(lens, root, t, curr);
    RankBound(lens, t);
  }

  // ----- how many symbols are short -----

  /** Each symbol takes at most half of what is left, as long as another follows. */
  lemma {:induction false} LeftAfter(lens: seq<nat>, s: nat)
    requires IsSymbol(lens, s) && Kraft(lens) == Pow2(MAXBITS) && Rank(lens, s) <= MAXBITS
    ensures Pos(lens, s) + Pow2(MAXBITS - Rank(lens, s)) <= Pow2(MAXBITS)
    decreases Rank(lens, s)
  {
    hide Rank, Kraft, Pos, Canon, Pow2, Rev;
    if Rank(lens, s) == 0 {
      FirstAtZero(lens, s);
    } else {
      RankBound(lens, s);
      var p := AtRank(lens, Rank(lens, s) - 1);
      LeftAfter(lens, p);
      PosNext(lens, p, s);
      CodeNext(lens, p, s);
      HalfLeft(lens, p);
      PowHalves(MAXBITS - Rank(lens, s));
    }
  }

  lemma PowHalves(n: nat)
    ensures Pow2(n + 1) == 2 * Pow2(n)
  {
  }

  lemma FirstAtZero(lens: seq<nat>, s: nat)
    requires IsSymbol(lens, s) && Rank(lens, s) == 0
    ensures Pos(lens, s) == 0
  {
    NoCodesBetween(lens, 1, lens[s]);
    ShlOne(MAXBITS - lens[s]);
  }

  lemma HalfLeft(lens: seq<nat>, p: nat)
    requires IsSymbol(lens, p) && Canon(lens, p) + 1 < Pow2(lens[p])
    ensures 2 * (Pos(lens, p) + Weight(lens, p)) <= Pow2(MAXBITS) + Pos(lens, p)
  {
    hide Canon, Pos, Shl, Pow2;
    var c, l := Canon(lens, p), lens[p];
    var e := MAXBITS - l;
    PosIsCanon(lens, p);
    ShlAdd(c, 2, e);
    ShlMono(c + 2, Pow2(l), e);
    ShlPow(l, e);
    ShlAdd(1, 1, e);
    ShlOne(e);
  }

  /** Codes longer than r bits take at least so many symbols to fill what is left. */
  lemma {:induction false} ManyLong(lens: seq<nat>, r: nat, s: nat)
    requires IsSymbol(lens, s) && r < lens[s] && Kraft(lens) == Pow2(MAXBITS)
    ensures Rank(lens, s) < Symbols(lens)
    ensures Pow2(MAXBITS) <= Pos(lens, s) + (Symbols(lens) - Rank(lens, s)) * Pow2(MAXBITS - 1 - r)
    decreases Symbols(lens) - Rank(lens, s)
  {
    hide Rank, Kraft, Pos, Symbols, Pow2;
    RankBound(lens, s);
    Pow2Mono(MAXBITS - lens[s], MAXBITS - 1 - r);
    var w, k := Pow2(MAXBITS - 1 - r), Symbols(lens) - Rank(lens, s);
    if k == 1 {
      PosLast(lens, s);
    } else {
      var t := AtRank(lens, Rank(lens, s) + 1);
      PosNext(lens, s, t);
      ManyLong(lens, r, t);
      assert k * w == (k - 1) * w + w;
    }
  }

  /** With a long code and few symbols, several codes must be short. */
  lemma ManyShort(lens: seq<nat>, root: nat, s: nat)
    requires IsSymbol(lens, s) && root < lens[s] && Kraft(lens) == Pow2(MAXBITS)
    ensures root == 9 && Symbols(lens) <= 286 ==> Offset(lens, root + 1) >= 2
    ensures root == 6 && Symbols(lens) <= 30 ==> Offset(lens, root + 1) >= 3
  {
    hide Rank, Kraft, Pos, Symbols, Pow2;
    RankBound(lens, s);
    var k := Offset(lens, root + 1);
    OffsetMono(lens, root + 1, lens[s]);
    var t := AtRank(lens, k);
    AtOffset(lens, root, t);
    SmallPowers();
    if k <= 2 {
      LeftAfter(lens, t);
      ManyLong(lens, root, t);
    }
  }

  lemma AtOffset(lens: seq<nat>, root: nat, t: nat)
    requires IsSymbol(lens, t) && Rank(lens, t) == Offset(lens, root + 1)
    ensures root < lens[t]
  {
    RankBound(lens, t);
    if lens[t] <= root { OffsetMono(lens, lens[t] + 1, root + 1); }
  }

  /** With at most 286 symbols and 9 root bits, or 30 and 6, some code fits the root table. */
  lemma SomeShort(lens: seq<nat>, bits: nat)
    requires Kraft(lens) == Pow2(MAXBITS) && Symbols(lens) > 0
    requires (bits == 9 && Symbols(lens) <= 286) || (bits == 6 && Symbols(lens) <= 30)
    ensures exists s: nat :: IsSymbol(lens, s) && lens[s] <= bits
  {
    hide Kraft, Rank, Symbols;
    var s := AtRank(lens, 0);
    if lens[s] > bits {
      ManyShort(lens, bits, s);
      RankBound(lens, s);
      OffsetMono(lens, bits + 1, lens[s]);
    }
  }

  /** ENOUGH_LENS and ENOUGH_DISTS are enough. */
  lemma EnoughRoom(lens: seq<nat>, root: nat, s: nat, curr: nat, used: nat)
    requires IsSymbol(lens, s) && root < lens[s] && Kraft(lens) == Pow2(MAXBITS) && Thrifty(lens, root, s, curr, used)
    ensures root == 9 && Symbols(lens) <= 286 ==> used <= 852
    ensures root == 6 && Symbols(lens) <= 30 ==> used <= 592
  {
    hide Rank, Kraft, Offset, Symbols, Pow2, Needed, Wide, Value;
    SpaceBound(lens, root, s, curr, used);
    ManyShort(lens, root, s);
    SmallPowers();
    Growth(curr, MAXBITS - root);
  }

  // ----- root entries as cells -----

  lemma SameLink(lens: seq<nat>, root: nat, s: nat, u: nat)
    requires IsSymbol(lens, s) && IsSymbol(lens, u) && root < lens[s] && root < lens[u] && Kraft(lens) <= Pow2(MAXBITS)
    ensures Link(lens, root, s) == Link(lens, root, u) <==> Cell(lens, root, s) == Cell(lens, root, u)
  {
    hide Link, Cell, Kraft, Pow2, Rev;
    LinkIsCell(lens, root, s);
    LinkIsCell(lens, root, u);
    if Link(lens, root, s) == Link(lens, root, u) {
      RevInjective(Cell(lens, root, s), Cell(lens, root, u), root);
    }
  }

  /** A root entry that starts with s holds the positions from its own on. */
  lemma CellSpan(lens: seq<nat>, root: nat, s: nat, v: nat)
    requires IsSymbol(lens, s) && root < lens[s] && Kraft(lens) <= Pow2(MAXBITS)
    requires Rem(lens, root, s) == Pow2(lens[s] - root)
    requires Pos(lens, s) <= v < Pos(lens, s) + Pow2(MAXBITS - root)
    ensures Shr(v, MAXBITS - root) == Cell(lens, root, s) && v < Pow2(MAXBITS)
  {
    hide Canon, Pos, Cell, Kraft, Pow2, Shl, Shr, Low, Link;
    var c, b, e := Canon(lens, s), lens[s] - root, MAXBITS - root;
    CellIsTop(lens, root, s);
    Split(c, b);
    PosIsCanon(lens, s);
    ShlShl(Shr(c, b), b, MAXBITS - lens[s]);
    assert b + (MAXBITS - lens[s]) == e;
    SplitUnique(v, e, Shr(c, b), v - Pos(lens, s));
    LinkIsCell(lens, root, s);
    ShlLess(Shr(c, b), Pow2(root), e);
    ShlPow(root, e);
  }

  /** If the codes shorter than l do not reach the end of a root entry that starts with s, a code of at least l bits is
      behind it. */
  lemma LongerBehind(lens: seq<nat>, root: nat, s: nat, l: nat) returns (u: nat)
    requires IsSymbol(lens, s) && root < lens[s] < l <= MAXBITS && Kraft(lens) == Pow2(MAXBITS)
    requires Rem(lens, root, s) == Pow2(lens[s] - root) && Below(lens, l) < Pos(lens, s) + Pow2(MAXBITS - root)
    ensures IsSymbol(lens, u) && l <= lens[u] && Cell(lens, root, u) == Cell(lens, root, s)
  {
    hide Pos, Rem, Kraft, Pow2, Below, Shr;
    var v := Below(lens, l);
    PosEnd(lens, s);
    BelowMono(lens, lens[s] + 1, l);
    CellSpan(lens, root, s, v);
    u := SymbolAt(lens, v);
    if lens[u] < l {
      PosEnd(lens, u);
      BelowMono(lens, lens[u] + 1, l);
    } else {
      BelowMono(lens, l, lens[u]);
      PosStart(lens, u);
    }
  }

  lemma PosStart(lens: seq<nat>, u: nat)
    requires IsSymbol(lens, u)
    ensures Below(lens, lens[u]) <= Pos(lens, u)
  {
  }

  /** A symbol behind another root entry than the one before it starts its own. */
  lemma FreshCell(lens: seq<nat>, root: nat, s: nat, t: nat)
    requires IsSymbol(lens, s) && IsSymbol(lens, t) && Rank(lens, t) == Rank(lens, s) + 1 && root < lens[t]
    requires root < lens[s] ==> Cell(lens, root, s) != Cell(lens, root, t)
    ensures Rem(lens, root, t) == Pow2(lens[t] - root)
  {
    hide Rank, Rem, Cell, Pow2;
    if lens[s] <= root { CellFirst(lens, root, s, t); } else { CellNext(lens, root, s, t); }
  }
}
