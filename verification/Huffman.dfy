/** Canonical Huffman codes of a vector of code lengths (section 3.2.2 of RFC 1951).
    A code of length l is also an interval of width 2^(15-l) inside [0, 2^15): Pos is where the
    interval of a symbol starts, and the canonical code is the top l bits of Pos. */
module Huffman {
  import opened Bits

  const MAXBITS: nat := 15

  ghost predicate ValidLengths(lens: seq<nat>) {
    forall i :: 0 <= i < |lens| ==> lens[i] <= MAXBITS
  }

  predicate IsSymbol(lens: seq<nat>, s: nat) {
    s < |lens| && 1 <= lens[s] <= MAXBITS
  }

  /** How many of the first n symbols have length l. */
  function Count(lens: seq<nat>, n: nat, l: nat): (c: nat)
    requires n <= |lens|
    ensures c <= n
  {
    if n == 0 then 0 else Count(lens, n - 1, l) + (if lens[n - 1] == l then 1 else 0)
  }

  /** bl_count of the RFC: a zero length means that the symbol has no code. */
  function BlCount(lens: seq<nat>, l: nat): nat {
    if l == 0 then 0 else Count(lens, |lens|, l)
  }

  /** next_code of the RFC before any symbol has been numbered. */
  function FirstCode(lens: seq<nat>, l: nat): nat {
    if l == 0 then 0 else 2 * (FirstCode(lens, l - 1) + BlCount(lens, l - 1))
  }

  /** The canonical code of symbol s, most significant bit first. */
  function Canon(lens: seq<nat>, s: nat): nat
    requires s < |lens|
  {
    FirstCode(lens, lens[s]) + Count(lens, s, lens[s])
  }

  /** The code word as DEFLATE stores it: the canonical code with its bits reversed. */
  function Code(lens: seq<nat>, s: nat): (c: nat)
    requires s < |lens|
    ensures c < Pow2(lens[s])
  {
    Rev(Canon(lens, s), lens[s])
  }

  /** Total interval width of all codes shorter than l. */
  function Below(lens: seq<nat>, l: nat): nat
    requires l <= MAXBITS + 1
  {
    if l <= 1 then 0 else Below(lens, l - 1) + Shl(BlCount(lens, l - 1), MAXBITS - (l - 1))
  }

  /** The Kraft sum in units of 2^-15. */
  function Kraft(lens: seq<nat>): nat { Below(lens, MAXBITS + 1) }

  function Weight(lens: seq<nat>, s: nat): (w: nat)
    requires IsSymbol(lens, s)
    ensures w > 0
  {
    Pow2(MAXBITS - lens[s])
  }

  function Pos(lens: seq<nat>, s: nat): nat
    requires IsSymbol(lens, s)
  {
    Below(lens, lens[s]) + Shl(Count(lens, s, lens[s]), MAXBITS - lens[s])
  }

  ghost predicate Before(lens: seq<nat>, s: nat, t: nat)
    requires IsSymbol(lens, s) && IsSymbol(lens, t)
  {
    lens[s] < lens[t] || (lens[s] == lens[t] && s < t)
  }

  lemma {:induction false} CountMono(lens: seq<nat>, m: nat, n: nat, l: nat)
    requires m <= n <= |lens|
    ensures Count(lens, m, l) <= Count(lens, n, l)
    decreases n
  {
    if m < n { CountMono(lens, m, n - 1, l); }
  }

  lemma {:induction false} BelowFirstCode(lens: seq<nat>, l: nat)
    requires l <= MAXBITS
    ensures Below(lens, l) == Shl(FirstCode(lens, l), MAXBITS - l)
  {
    if l <= 1 {
      ShlOne(MAXBITS - l);
    } else {
      BelowFirstCode(lens, l - 1);
      var c, n := FirstCode(lens, l - 1), BlCount(lens, l - 1);
      ShlAdd(c, n, MAXBITS - (l - 1));
      ShlShl(c + n, 1, MAXBITS - l);
      assert Shl(c + n, 1) == 2 * (c + n);
    }
  }

  lemma PosIsCanon(lens: seq<nat>, s: nat)
    requires IsSymbol(lens, s)
    ensures Pos(lens, s) == Shl(Canon(lens, s), MAXBITS - lens[s])
  {
    BelowFirstCode(lens, lens[s]);
    ShlAdd(FirstCode(lens, lens[s]), Count(lens, s, lens[s]), MAXBITS - lens[s]);
  }

  lemma {:induction false} BelowMono(lens: seq<nat>, a: nat, b: nat)
    requires a <= b <= MAXBITS + 1
    ensures Below(lens, a) <= Below(lens, b)
    decreases b
  {
    if a < b { BelowMono(lens, a, b - 1); }
  }

  /** The interval of a symbol ends before the codes of the next length start. */
  lemma PosEnd(lens: seq<nat>, s: nat)
    requires IsSymbol(lens, s)
    ensures Pos(lens, s) + Weight(lens, s) <= Below(lens, lens[s] + 1) <= Kraft(lens)
  {
    var l := lens[s];
    CountMono(lens, s + 1, |lens|, l);
    ShlLess(Count(lens, s, l), BlCount(lens, l), MAXBITS - l);
    BelowMono(lens, l + 1, MAXBITS + 1);
  }

  /** Symbols sorted by length and then by value have consecutive, disjoint intervals. */
  lemma PosOrder(lens: seq<nat>, s: nat, t: nat)
    requires IsSymbol(lens, s) && IsSymbol(lens, t) && Before(lens, s, t)
    ensures Pos(lens, s) + Weight(lens, s) <= Pos(lens, t)
  {
    if lens[s] == lens[t] {
      var l := lens[s];
      CountMono(lens, s + 1, t, l);
      ShlLess(Count(lens, s, l), Count(lens, t, l), MAXBITS - l);
    } else {
      PosEnd(lens, s);
      BelowMono(lens, lens[s] + 1, lens[t]);
    }
  }

  /** Every canonical code fits its length when the lengths are not over-subscribed. */
  lemma CanonFits(lens: seq<nat>, s: nat)
    requires IsSymbol(lens, s) && Kraft(lens) <= Pow2(MAXBITS)
    ensures Canon(lens, s) < Pow2(lens[s])
  {
    PosIsCanon(lens, s);
    PosEnd(lens, s);
    var l := lens[s];
    if Canon(lens, s) >= Pow2(l) {
      ShlMono(Pow2(l), Canon(lens, s), MAXBITS - l);
      ShlPow(l, MAXBITS - l);
    }
  }

  /** If the top bits of t's code are s's code then t's interval starts inside that of s. */
  lemma PrefixInside(lens: seq<nat>, s: nat, t: nat)
    requires IsSymbol(lens, s) && IsSymbol(lens, t) && lens[s] <= lens[t]
    requires Shr(Canon(lens, t), lens[t] - lens[s]) == Canon(lens, s)
    ensures Pos(lens, s) <= Pos(lens, t) < Pos(lens, s) + Weight(lens, s)
  {
    hide Low, Shr, Shl, Canon, Pos;
    var d, e := lens[t] - lens[s], MAXBITS - lens[t];
    var low := Low(Canon(lens, t), d);
    PosIsCanon(lens, s);
    PosIsCanon(lens, t);
    Split(Canon(lens, t), d);
    ShlAdd(low, Shl(Canon(lens, s), d), e);
    ShlShl(Canon(lens, s), d, e);
    ShlLess(low, Pow2(d), e);
    ShlPow(d, e);
  }

  /** No code word is a prefix of another one. */
  lemma PrefixFree(lens: seq<nat>, s: nat, t: nat)
    requires IsSymbol(lens, s) && IsSymbol(lens, t) && s != t && lens[s] <= lens[t]
    requires Kraft(lens) <= Pow2(MAXBITS)
    ensures Low(Code(lens, t), lens[s]) != Code(lens, s)
  {
    hide Rev, Shr, Low, Pow2, Canon, Kraft, Pos;
    var d := lens[t] - lens[s];
    if Low(Code(lens, t), lens[s]) == Code(lens, s) {
      RevLow(Canon(lens, t), lens[t], lens[s]);
      CanonFits(lens, s);
      CanonFits(lens, t);
      ShrLess(Canon(lens, t), d, lens[t]);
      RevInjective(Shr(Canon(lens, t), d), Canon(lens, s), lens[s]);
      PrefixInside(lens, s, t);
      if Before(lens, s, t) { PosOrder(lens, s, t); } else { PosOrder(lens, t, s); }
    }
  }

  // ----- every word of a complete code is decodable -----

  /** The c-th symbol of length l. */
  lemma {:induction false} Nth(lens: seq<nat>, n: nat, l: nat, c: nat) returns (s: nat)
    requires n <= |lens| && c < Count(lens, n, l)
    ensures s < n && lens[s] == l && Count(lens, s, l) == c
  {
    if lens[n - 1] == l && Count(lens, n - 1, l) == c {
      s := n - 1;
    } else {
      s := Nth(lens, n - 1, l, c);
    }
  }

  lemma {:induction false} LengthAt(lens: seq<nat>, v: nat, l: nat) returns (k: nat)
    requires l <= MAXBITS + 1 && v < Below(lens, l)
    ensures 1 <= k < l && Below(lens, k) <= v < Below(lens, k + 1)
  {
    if Below(lens, l - 1) <= v { k := l - 1; } else { k := LengthAt(lens, v, l - 1); }
  }

  /** Each point below the Kraft sum lies in the interval of a symbol. */
  lemma SymbolAt(lens: seq<nat>, v: nat) returns (s: nat)
    requires v < Kraft(lens)
    ensures IsSymbol(lens, s) && Pos(lens, s) <= v < Pos(lens, s) + Weight(lens, s)
  {
    var l := LengthAt(lens, v, MAXBITS + 1);
    var e := MAXBITS - l;
    var c := Shr(v - Below(lens, l), e);
    Split(v - Below(lens, l), e);
    if c >= BlCount(lens, l) { ShlMono(BlCount(lens, l), c, e); }
    s := Nth(lens, |lens|, l, c);
    ShlAdd(c, 1, e);
    ShlOne(e);
  }

  /** A word whose reversal lies in the interval of s starts with the code word of s. */
  lemma InsideIsPrefix(lens: seq<nat>, s: nat, w: nat)
    requires IsSymbol(lens, s)
    requires Pos(lens, s) <= Rev(w, MAXBITS) < Pos(lens, s) + Weight(lens, s)
    ensures Low(w, lens[s]) == Code(lens, s)
  {
    var l := lens[s];
    var v := Rev(w, MAXBITS);
    PosIsCanon(lens, s);
    SplitUnique(v, MAXBITS - l, Canon(lens, s), v - Pos(lens, s));
    RevLow(v, MAXBITS, l);
    RevRev(w, MAXBITS);
    LowLow(w, l, MAXBITS);
  }

  /** With a complete set of lengths every word starts with some code word. */
  lemma CompleteDecodes(lens: seq<nat>, w: nat) returns (s: nat)
    requires Kraft(lens) == Pow2(MAXBITS)
    ensures IsSymbol(lens, s) && Low(w, lens[s]) == Code(lens, s)
  {
    s := SymbolAt(lens, Rev(w, MAXBITS));
    InsideIsPrefix(lens, s, w);
  }
}
