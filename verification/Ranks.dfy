/** The order in which inflate_table() visits symbols: by length, then by value.
    Rank is a symbol's place in that order; consecutive ranks have adjacent intervals. */
module Ranks {
  import opened Bits
  import opened Huffman

  /** How many symbols have a length in 1 .. l-1. */
  function Offset(lens: seq<nat>, l: nat): nat {
    if l <= 1 then 0 else Offset(lens, l - 1) + BlCount(lens, l - 1)
  }

  function Rank(lens: seq<nat>, s: nat): nat
    requires IsSymbol(lens, s)
  {
    Offset(lens, lens[s]) + Count(lens, s, lens[s])
  }

  function Symbols(lens: seq<nat>): nat { Offset(lens, MAXBITS + 1) }

  /** work[] after the counting sort: every symbol sits at its rank. */
  ghost predicate Sorted(lens: seq<nat>, work: seq<nat>) {
    && Symbols(lens) <= |work|
    && forall s :: IsSymbol(lens, s) ==> Rank(lens, s) < |work| && work[Rank(lens, s)] == s
  }

  lemma {:induction false} OffsetMono(lens: seq<nat>, a: nat, b: nat)
    requires a <= b
    ensures Offset(lens, a) <= Offset(lens, b)
    decreases b
  {
    if a < b { OffsetMono(lens, a, b - 1); }
  }

  lemma RankBound(lens: seq<nat>, s: nat)
    requires IsSymbol(lens, s)
    ensures Offset(lens, lens[s]) <= Rank(lens, s) < Offset(lens, lens[s] + 1) <= Symbols(lens)
  {
    CountMono(lens, s + 1, |lens|, lens[s]);
    OffsetMono(lens, lens[s] + 1, MAXBITS + 1);
  }

  lemma RankOrder(lens: seq<nat>, s: nat, t: nat)
    requires IsSymbol(lens, s) && IsSymbol(lens, t)
    ensures Rank(lens, s) < Rank(lens, t) <==> Before(lens, s, t)
    ensures Rank(lens, s) == Rank(lens, t) <==> s == t
  {
    RankBound(lens, s);
    RankBound(lens, t);
    if lens[s] < lens[t] {
      OffsetMono(lens, lens[s] + 1, lens[t]);
    } else if lens[t] < lens[s] {
      OffsetMono(lens, lens[t] + 1, lens[s]);
    } else if s < t {
      CountMono(lens, s + 1, t, lens[s]);
    } else if t < s {
      CountMono(lens, t + 1, s, lens[s]);
    }
  }

  lemma {:induction false} LengthOfRank(lens: seq<nat>, k: nat, l: nat) returns (j: nat)
    requires k < Offset(lens, l)
    ensures 1 <= j < l && Offset(lens, j) <= k < Offset(lens, j + 1)
  {
    if Offset(lens, l - 1) <= k { j := l - 1; } else { j := LengthOfRank(lens, k, l - 1); }
  }

  lemma AtRank(lens: seq<nat>, k: nat) returns (s: nat)
    requires k < Symbols(lens)
    ensures IsSymbol(lens, s) && Rank(lens, s) == k
  {
    var l := LengthOfRank(lens, k, MAXBITS + 1);
    s := Nth(lens, |lens|, l, k - Offset(lens, l));
  }

  lemma {:induction false} NoCodesBetween(lens: seq<nat>, a: nat, b: nat)
    requires 1 <= a <= b <= MAXBITS + 1 && Offset(lens, a) == Offset(lens, b)
    ensures Below(lens, a) == Below(lens, b)
    decreases b
  {
    if a < b {
      OffsetMono(lens, a, b - 1);
      NoCodesBetween(lens, a, b - 1);
      ShlOne(MAXBITS - (b - 1));
    }
  }

  /** The interval of the next symbol starts where this one ends. */
  lemma PosNext(lens: seq<nat>, s: nat, t: nat)
    requires IsSymbol(lens, s) && IsSymbol(lens, t) && Rank(lens, t) == Rank(lens, s) + 1
    ensures lens[s] <= lens[t] && Pos(lens, t) == Pos(lens, s) + Weight(lens, s)
  {
    RankOrder(lens, s, t);
    RankBound(lens, s);
    RankBound(lens, t);
    var l := lens[s];
    ShlAdd(Count(lens, s, l), 1, MAXBITS - l);
    ShlOne(MAXBITS - l);
    if l < lens[t] {
      OffsetMono(lens, l + 1, lens[t]);
      NoCodesBetween(lens, l + 1, lens[t]);
      ShlOne(MAXBITS - lens[t]);
    }
  }

  /** The last symbol's interval ends at the Kraft sum. */
  lemma PosLast(lens: seq<nat>, s: nat)
    requires IsSymbol(lens, s) && Rank(lens, s) + 1 == Symbols(lens)
    ensures Pos(lens, s) + Weight(lens, s) == Kraft(lens)
  {
    RankBound(lens, s);
    var l := lens[s];
    ShlAdd(Count(lens, s, l), 1, MAXBITS - l);
    ShlOne(MAXBITS - l);
    NoCodesBetween(lens, l + 1, MAXBITS + 1);
  }

  lemma {:induction false} ShlCancel(a: nat, b: nat, n: nat)
    requires Shl(a, n) == Shl(b, n)
    ensures a == b
    decreases n
  {
    if n > 0 { ShlCancel(a, b, n - 1); }
  }

  /** Appending zero bits to a code leaves the reversed number unchanged. */
  lemma RevShl(c: nat, d: nat, l: nat)
    ensures Rev(Shl(c, d), d + l) == Rev(c, l)
  {
    ShlOne(d);
    SplitUnique(Shl(c, d), d, c, 0);
    RevSplit(Shl(c, d), d, l);
    RevOfLow(Shl(c, d), d, d);
    RevZero(d);
    ShlOne(l);
  }

  lemma {:induction false} RevZero(n: nat)
    ensures Rev(0, n) == 0
  {
    if n > 0 { RevZero(n - 1); }
  }

  lemma CanonNext(lens: seq<nat>, s: nat, t: nat)
    requires IsSymbol(lens, s) && IsSymbol(lens, t) && Rank(lens, t) == Rank(lens, s) + 1
    ensures lens[s] <= lens[t] && Canon(lens, t) == Shl(Canon(lens, s) + 1, lens[t] - lens[s])
  {
    hide Shl, Canon, Rank;
    PosNext(lens, s, t);
    PosIsCanon(lens, s);
    PosIsCanon(lens, t);
    var c, l, d, e := Canon(lens, s) + 1, lens[s], lens[t] - lens[s], MAXBITS - lens[t];
    ShlAdd(Canon(lens, s), 1, MAXBITS - l);
    ShlOne(MAXBITS - l);
    ShlShl(c, d, e);
    ShlCancel(Canon(lens, t), Shl(c, d), e);
  }

  /** Code words in visiting order: the next one is this one plus one, read backwards. */
  lemma CodeNext(lens: seq<nat>, s: nat, t: nat)
    requires IsSymbol(lens, s) && IsSymbol(lens, t) && Rank(lens, t) == Rank(lens, s) + 1
    requires Kraft(lens) <= Pow2(MAXBITS)
    ensures Code(lens, t) == Rev(Canon(lens, s) + 1, lens[s])
    ensures Canon(lens, s) + 1 < Pow2(lens[s])
  {
    hide Rev, Shl, Pow2, Canon, Rank, Kraft;
    CanonNext(lens, s, t);
    var c, l, d := Canon(lens, s) + 1, lens[s], lens[t] - lens[s];
    RevShl(c, d, l);
    CanonFits(lens, t);
    if c >= Pow2(l) {
      ShlMono(Pow2(l), c, d);
      ShlPow(l, d);
    }
  }
}
