/** Sums behind the Huffman tree construction of zlib/trees.c: totals of a vector, the Kraft sum of a
    table of length counts, and the bit cost of coding symbols with given lengths. */
module Sums {
  import opened Bits
  import opened Huffman

  ghost function Sum(s: seq<int>): int {
    if s == [] then 0 else Sum(s[..|s| - 1]) + s[|s| - 1]
  }

  lemma {:induction false} SumUpdate(s: seq<int>, i: nat, v: int)
    requires i < |s|
    ensures Sum(s[i := v]) == Sum(s) - s[i] + v
    decreases |s|
  {
    var n := |s| - 1;
    if i == n {
      assert s[i := v][..n] == s[..n];
    } else {
      assert s[i := v][..n] == s[..n][i := v];
      SumUpdate(s[..n], i, v);
    }
  }

  lemma {:induction false} SumZero(s: seq<int>)
    requires forall i :: 0 <= i < |s| ==> s[i] == 0
    ensures Sum(s) == 0
    decreases |s|
  {
    if s != [] { SumZero(s[..|s| - 1]); }
  }

  lemma {:induction false} SumPositive(s: seq<int>)
    requires forall i :: 0 <= i < |s| ==> s[i] >= 0
    ensures Sum(s) >= 0
    decreases |s|
  {
    if s != [] { SumPositive(s[..|s| - 1]); }
  }

  /** Sum of bl[i] * 2^(l - i) for i <= l: the Kraft sum in units of 2^-l. */
  ghost function Widths(bl: seq<nat>, l: nat): nat
    requires l < |bl|
  {
    if l == 0 then bl[0] else 2 * Widths(bl, l - 1) + bl[l]
  }

  lemma {:induction false} WidthsAdd(bl: seq<nat>, i: nat, l: nat)
    requires l < |bl| && i < |bl|
    ensures Widths(bl[i := bl[i] + 1], l) == Widths(bl, l) + if i <= l then Pow2(l - i) else 0
    decreases l
  {
    if l > 0 { WidthsAdd(bl, i, l - 1); }
  }

  /** Sum of bl[1 .. l]. */
  ghost function Total(bl: seq<nat>, l: nat): nat
    requires l < |bl|
  {
    if l == 0 then 0 else Total(bl, l - 1) + bl[l]
  }

  lemma {:induction false} TotalAdd(bl: seq<nat>, i: nat, l: nat)
    requires l < |bl| && 1 <= i < |bl|
    ensures Total(bl[i := bl[i] + 1], l) == Total(bl, l) + if i <= l then 1 else 0
    decreases l
  {
    if l > 0 { TotalAdd(bl, i, l - 1); }
  }

  /** If nothing is shorter than l then the Kraft sum counts the codes. */
  lemma {:induction false} WidthsEmpty(bl: seq<nat>, l: nat)
    requires l < |bl| && forall i :: 0 <= i <= l ==> bl[i] == 0
    ensures Widths(bl, l) == 0 && Total(bl, l) == 0
    decreases l
  {
    if l > 0 { WidthsEmpty(bl, l - 1); }
  }

  ghost predicate CountsOf(bl: seq<nat>, lens: seq<nat>) {
    |bl| == MAXBITS + 1 && forall l :: 0 <= l <= MAXBITS ==> bl[l] == BlCount(lens, l)
  }

  /** The Kraft sum of the lengths from their counts. */
  lemma {:induction false} BelowWidths(bl: seq<nat>, lens: seq<nat>, l: nat)
    requires CountsOf(bl, lens) && l <= MAXBITS
    ensures Below(lens, l + 1) == Shl(Widths(bl, l), MAXBITS - l)
    decreases l
  {
    hide Count, Shl;
    if l == 0 {
      ShlOne(MAXBITS);
    } else {
      BelowWidths(bl, lens, l - 1);
      var w := Widths(bl, l - 1);
      ShlShl(w, 1, MAXBITS - l);
      assert Shl(w, 1) == 2 * w by { ShlMul(w, 1); assert Pow2(1) == 2; }
      ShlAdd(2 * w, bl[l], MAXBITS - l);
    }
  }

  lemma {:induction false} CountUpdate(lens: seq<nat>, n: nat, i: nat, b: nat, l: nat)
    requires n <= |lens| && i < |lens|
    ensures Count(lens[i := b], n, l) ==
            Count(lens, n, l) + if i < n then (if b == l then 1 else 0) - (if lens[i] == l then 1 else 0) else 0
    decreases n
  {
    if n > 0 { CountUpdate(lens, n - 1, i, b, l); }
  }

  /** Giving a length to a symbol that had none. */
  lemma CountsAdd(bl: seq<nat>, lens: seq<nat>, i: nat, b: nat)
    requires CountsOf(bl, lens) && i < |lens| && lens[i] == 0 && 1 <= b <= MAXBITS
    ensures CountsOf(bl[b := bl[b] + 1], lens[i := b])
  {
    hide Count;
    var bl', lens' := bl[b := bl[b] + 1], lens[i := b];
    forall l | 1 <= l <= MAXBITS ensures bl'[l] == BlCount(lens', l) {
      CountUpdate(lens, |lens|, i, b, l);
    }
  }

  /** The Kraft sum when no length is above l. */
  lemma KraftWidths(bl: seq<nat>, lens: seq<nat>, l: nat)
    requires CountsOf(bl, lens) && l <= MAXBITS && forall i :: l < i <= MAXBITS ==> bl[i] == 0
    ensures Kraft(lens) == Shl(Widths(bl, l), MAXBITS - l)
  {
    hide Below, Widths, Shl;
    BelowWidths(bl, lens, l);
    BelowFlat(bl, lens, l + 1, MAXBITS + 1);
  }

  lemma {:induction false} BelowFlat(bl: seq<nat>, lens: seq<nat>, a: nat, b: nat)
    requires CountsOf(bl, lens) && 1 <= a <= b <= MAXBITS + 1 && forall i :: a <= i < b ==> bl[i] == 0
    ensures Below(lens, b) == Below(lens, a)
    decreases b
  {
    if a < b {
      ShlOne(MAXBITS - (b - 1));
      BelowFlat(bl, lens, a, b - 1);
    }
  }

  /** No more codes than symbols. */
  lemma TotalBound(bl: seq<nat>, lens: seq<nat>, l: nat)
    requires CountsOf(bl, lens) && l <= MAXBITS
    ensures Total(bl, l) == UpTo(lens, |lens|, l) <= |lens|
  {
    TotalIsUpTo(bl, lens, l);
    UpToBound(lens, |lens|, l);
  }

  /** How many of the first n symbols have a length from 1 to l. */
  ghost function UpTo(lens: seq<nat>, n: nat, l: nat): nat
    requires n <= |lens|
  {
    if l == 0 then 0 else UpTo(lens, n, l - 1) + Count(lens, n, l)
  }

  lemma {:induction false} TotalIsUpTo(bl: seq<nat>, lens: seq<nat>, l: nat)
    requires CountsOf(bl, lens) && l <= MAXBITS
    ensures Total(bl, l) == UpTo(lens, |lens|, l)
    decreases l
  {
    if l > 0 { TotalIsUpTo(bl, lens, l - 1); }
  }

  lemma {:induction false} UpToBound(lens: seq<nat>, n: nat, l: nat)
    requires n <= |lens|
    ensures UpTo(lens, n, l) <= n
    decreases n
  {
    if n == 0 {
      UpToNone(lens, l);
    } else {
      UpToBound(lens, n - 1, l);
      UpToNext(lens, n - 1, l);
    }
  }

  lemma {:induction false} UpToNone(lens: seq<nat>, l: nat)
    ensures UpTo(lens, 0, l) == 0
    decreases l
  {
    if l > 0 { UpToNone(lens, l - 1); }
  }

  lemma {:induction false} UpToNext(lens: seq<nat>, n: nat, l: nat)
    requires n < |lens|
    ensures UpTo(lens, n + 1, l) == UpTo(lens, n, l) + if 1 <= lens[n] <= l then 1 else 0
    decreases l
  {
    if l > 0 { UpToNext(lens, n, l - 1); }
  }

  // ----- bit costs -----

  /** The sum of freq[i] * per[i]. */
  ghost function Bill(freq: seq<nat>, per: seq<nat>): int
    requires |freq| == |per|
  {
    if freq == [] then 0 else Bill(freq[..|freq| - 1], per[..|per| - 1]) + freq[|freq| - 1] * per[|per| - 1]
  }

  lemma {:induction false} BillUpdate(freq: seq<nat>, per: seq<nat>, i: nat, v: nat)
    requires |freq| == |per| && i < |per|
    ensures Bill(freq, per[i := v]) == Bill(freq, per) + freq[i] * v - freq[i] * per[i]
    decreases |freq|
  {
    var n := |freq| - 1;
    if i == n {
      assert per[i := v][..n] == per[..n];
    } else {
      assert per[i := v][..n] == per[..n][i := v];
      BillUpdate(freq[..n], per[..n], i, v);
    }
  }

  lemma {:induction false} BillFree(freq: seq<nat>, per: seq<nat>)
    requires |freq| == |per| && forall i :: 0 <= i < |per| ==> per[i] == 0
    ensures Bill(freq, per) == 0
    decreases |freq|
  {
    if freq != [] { BillFree(freq[..|freq| - 1], per[..|per| - 1]); }
  }

  /** One more occurrence of symbol i. */
  lemma {:induction false} BillMore(freq: seq<nat>, per: seq<nat>, i: nat)
    requires |freq| == |per| && i < |per|
    ensures Bill(freq[i := freq[i] + 1], per) == Bill(freq, per) + per[i]
    decreases |freq|
  {
    var n := |freq| - 1;
    if i == n {
      assert freq[i := freq[i] + 1][..n] == freq[..n];
    } else {
      assert freq[i := freq[i] + 1][..n] == freq[..n][i := freq[i] + 1];
      BillMore(freq[..n], per[..n], i);
    }
  }
}
