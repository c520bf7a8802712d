/** Shifts, masks, bit strings and bit reversal: the arithmetic shared by the DEFLATE modules.
    A bit string is a `seq<bool>` in stream order, so the least significant bit of a byte or of
    an accumulator comes first (section 3.1.1 of RFC 1951).  Shifts and masks are defined bit by
    bit, which keeps every proof linear; ShiftMeaning says what they are as arithmetic. */
module Bits {
  type byte = b: int | 0 <= b < 256

  function Pow2(n: nat): (p: int)
    ensures p > 0
  {
    if n == 0 then 1 else 2 * Pow2(n - 1)
  }

  /** `v << n` without a word size. */
  function Shl(v: nat, n: nat): (r: nat)
    ensures r >= v
  {
    if n == 0 then v else 2 * Shl(v, n - 1)
  }

  /** `v >> n` */
  function Shr(v: nat, n: nat): (r: nat)
    ensures r <= v
  {
    if n == 0 then v else Shr(v / 2, n - 1)
  }

  /** `v & ((1 << n) - 1)` */
  function Low(v: nat, n: nat): (r: nat)
    ensures r < Pow2(n) && r <= v
  {
    if n == 0 then 0 else v % 2 + 2 * Low(v / 2, n - 1)
  }

  lemma {:induction false} Split(v: nat, n: nat)
    ensures v == Low(v, n) + Shl(Shr(v, n), n)
    decreases n
  {
    if n > 0 { Split(v / 2, n - 1); }
  }

  lemma {:induction false} SplitUnique(v: nat, n: nat, q: nat, r: nat)
    requires r < Pow2(n) && v == r + Shl(q, n)
    ensures Shr(v, n) == q && Low(v, n) == r
    decreases n
  {
    if n > 0 {
      assert v % 2 == r % 2 && v / 2 == r / 2 + Shl(q, n - 1);
      SplitUnique(v / 2, n - 1, q, r / 2);
    }
  }

  lemma {:induction false} ShlMul(v: nat, n: nat)
    ensures Shl(v, n) == v * Pow2(n)
    decreases n
  {
    if n > 0 {
      ShlMul(v, n - 1);
      assert 2 * (v * Pow2(n - 1)) == v * (2 * Pow2(n - 1));
    }
  }

  /** Shr and Low are division and remainder by a power of two. */
  lemma ShiftMeaning(v: nat, n: nat)
    ensures Shl(v, n) == v * Pow2(n)
    ensures v == Shr(v, n) * Pow2(n) + Low(v, n) && 0 <= Low(v, n) < Pow2(n)
  {
    Split(v, n);
    ShlMul(v, n);
    ShlMul(Shr(v, n), n);
  }

  lemma {:induction false} ShlOne(n: nat)
    ensures Shl(1, n) == Pow2(n) && Shl(0, n) == 0
  {
    if n > 0 { ShlOne(n - 1); }
  }

  lemma {:induction false} ShlAdd(a: nat, b: nat, n: nat)
    ensures Shl(a + b, n) == Shl(a, n) + Shl(b, n)
    decreases n
  {
    if n > 0 { ShlAdd(a, b, n - 1); }
  }

  lemma {:induction false} ShlShl(v: nat, a: nat, b: nat)
    ensures Shl(Shl(v, a), b) == Shl(v, a + b)
    decreases b
  {
    if b > 0 { ShlShl(v, a, b - 1); }
  }

  lemma ShlPow(a: nat, b: nat)
    ensures Shl(Pow2(a), b) == Pow2(a + b)
  {
    ShlOne(a);
    ShlShl(1, a, b);
    ShlOne(a + b);
  }

  /** Multiples of a power of two are at least that far apart. */
  lemma ShlLess(a: nat, b: nat, n: nat)
    requires a < b
    ensures Shl(a, n) + Pow2(n) <= Shl(b, n)
  {
    ShlAdd(a, b - a, n);
    ShlAdd(1, b - a - 1, n);
    ShlOne(n);
  }

  lemma ShlMono(a: nat, b: nat, n: nat)
    requires a <= b
    ensures Shl(a, n) <= Shl(b, n)
  {
    ShlAdd(a, b - a, n);
  }

  lemma Pow2Mono(a: nat, b: nat)
    requires a <= b
    ensures Pow2(a) <= Pow2(b)
  {
    ShlPow(a, b - a);
  }

  lemma {:induction false} ShrShr(v: nat, a: nat, b: nat)
    ensures Shr(Shr(v, a), b) == Shr(v, a + b)
    decreases a
  {
    if a > 0 { ShrShr(v / 2, a - 1, b); }
  }

  lemma {:induction false} LowLow(v: nat, a: nat, n: nat)
    requires a <= n
    ensures Low(Low(v, n), a) == Low(v, a)
    decreases a
  {
    if a > 0 { LowLow(v / 2, a - 1, n - 1); }
  }

  lemma {:induction false} LowSplit(v: nat, a: nat, b: nat)
    ensures Low(v, a + b) == Low(v, a) + Shl(Low(Shr(v, a), b), a)
    decreases a
  {
    if a > 0 {
      assert a + b - 1 == a - 1 + b;
      LowSplit(v / 2, a - 1, b);
    }
  }

  lemma LowSmall(v: nat, n: nat)
    requires v < Pow2(n)
    ensures Low(v, n) == v && Shr(v, n) == 0
  {
    ShlOne(n);
    SplitUnique(v, n, 0, v);
  }

  lemma ShrLess(v: nat, a: nat, n: nat)
    requires a <= n && v < Pow2(n)
    ensures Shr(v, a) < Pow2(n - a)
  {
    Split(v, a);
    ShlPow(n - a, a);
    if Shr(v, a) >= Pow2(n - a) { ShlMono(Pow2(n - a), Shr(v, a), a); }
  }

  lemma ShrMono(u: nat, v: nat, n: nat)
    requires u <= v
    ensures Shr(u, n) <= Shr(v, n)
  {
    Split(u, n);
    Split(v, n);
    if Shr(v, n) < Shr(u, n) { ShlLess(Shr(v, n), Shr(u, n), n); }
  }

  // ----- bit strings -----

  /** The low n bits of v, least significant first. */
  function ToBits(v: nat, n: nat): (s: seq<bool>)
    ensures |s| == n
  {
    if n == 0 then [] else [v % 2 == 1] + ToBits(v / 2, n - 1)
  }

  function FromBits(s: seq<bool>): (v: nat)
    ensures v < Pow2(|s|)
  {
    if s == [] then 0 else (if s[0] then 1 else 0) + 2 * FromBits(s[1..])
  }

  function BytesToBits(bs: seq<byte>): (s: seq<bool>)
    ensures |s| == 8 * |bs|
  {
    if bs == [] then [] else ToBits(bs[0], 8) + BytesToBits(bs[1..])
  }

  lemma {:induction false} FromToBits(v: nat, n: nat)
    ensures FromBits(ToBits(v, n)) == Low(v, n)
    decreases n
  {
    if n > 0 {
      FromToBits(v / 2, n - 1);
      assert ToBits(v, n)[1..] == ToBits(v / 2, n - 1);
    }
  }

  lemma {:induction false} ToFromBits(s: seq<bool>)
    ensures ToBits(FromBits(s), |s|) == s
  {
    if s != [] { ToFromBits(s[1..]); }
  }

  /** Bits of a number split at any point: the low a bits, then those of the rest. */
  lemma {:induction false} ToBitsSplit(v: nat, a: nat, b: nat)
    ensures ToBits(v, a + b) == ToBits(v, a) + ToBits(Shr(v, a), b)
    decreases a
  {
    if a == 0 {
      assert ToBits(v, 0) + ToBits(v, b) == ToBits(v, b);
    } else {
      assert a + b - 1 == a - 1 + b;
      ToBitsSplit(v / 2, a - 1, b);
      assert [v % 2 == 1] + (ToBits(v / 2, a - 1) + ToBits(Shr(v, a), b))
          == ([v % 2 == 1] + ToBits(v / 2, a - 1)) + ToBits(Shr(v, a), b);
    }
  }

  lemma {:induction false} ToBitsLow(v: nat, n: nat, a: nat)
    requires n <= a
    ensures ToBits(Low(v, a), n) == ToBits(v, n)
    decreases n
  {
    if n > 0 { ToBitsLow(v / 2, n - 1, a - 1); }
  }

  /** Placing b above the n bits of a (the accumulator's `hold += b << n`) appends b's bits. */
  lemma ToBitsJoin(a: nat, n: nat, b: nat, k: nat)
    requires a < Pow2(n)
    ensures ToBits(a + Shl(b, n), n + k) == ToBits(a, n) + ToBits(b, k)
    ensures b < Pow2(k) ==> a + Shl(b, n) < Pow2(n + k)
  {
    var v := a + Shl(b, n);
    SplitUnique(v, n, b, a);
    ToBitsSplit(v, n, k);
    ToBitsLow(v, n, n);
    if b < Pow2(k) {
      ShlLess(b, Pow2(k), n);
      ShlPow(k, n);
    }
  }

  lemma {:induction false} BytesToBitsConcat(a: seq<byte>, b: seq<byte>)
    ensures BytesToBits(a + b) == BytesToBits(a) + BytesToBits(b)
  {
    if a == [] {
      assert a + b == b;
    } else {
      assert (a + b)[1..] == a[1..] + b;
      BytesToBitsConcat(a[1..], b);
    }
  }

  // ----- bit reversal -----

  /** The number whose n bits are the low n bits of v in the opposite order. */
  function Rev(v: nat, n: nat): (r: nat)
    ensures r < Pow2(n)
  {
    if n == 0 then 0 else (if v % 2 == 1 then Pow2(n - 1) else 0) + Rev(v / 2, n - 1)
  }

  /** Reversing a + b bits swaps the two parts and reverses each. */
  lemma {:induction false} RevSplit(v: nat, a: nat, b: nat)
    ensures Rev(v, a + b) == Shl(Rev(v, a), b) + Rev(Shr(v, a), b)
    decreases a
  {
    if a == 0 {
      ShlOne(b);
    } else {
      assert a + b - 1 == a - 1 + b;
      RevSplit(v / 2, a - 1, b);
      var top := if v % 2 == 1 then Pow2(a - 1) else 0;
      ShlAdd(top, Rev(v / 2, a - 1), b);
      ShlPow(a - 1, b);
      ShlOne(b);
    }
  }

  /** The low b bits of a reversed n-bit number are the reversal of its top b bits. */
  lemma RevLow(v: nat, n: nat, b: nat)
    requires b <= n
    ensures Low(Rev(v, n), b) == Rev(Shr(v, n - b), b)
    ensures Shr(Rev(v, n), b) == Rev(v, n - b)
  {
    RevSplit(v, n - b, b);
    SplitUnique(Rev(v, n), b, Rev(v, n - b), Rev(Shr(v, n - b), b));
  }

  lemma {:induction false} RevOfLow(v: nat, n: nat, a: nat)
    requires n <= a
    ensures Rev(Low(v, a), n) == Rev(v, n)
    decreases n
  {
    if n > 0 { RevOfLow(v / 2, n - 1, a - 1); }
  }

  lemma OneBit(b: nat, x: nat)
    requires b < 2
    ensures Rev(b, 1) == b && Shl(x, 1) == 2 * x
  {
  }

  /** Reversing puts the lowest bit on top. */
  lemma RevTop(v: nat, n: nat)
    ensures Shr(Rev(v, n + 1), n) == v % 2 && Low(Rev(v, n + 1), n) == Rev(v / 2, n)
  {
    ShlOne(n);
    SplitUnique(Rev(v, n + 1), n, v % 2, Rev(v / 2, n));
  }

  lemma RevRevStep(v: nat, n: nat)
    ensures Rev(Rev(v, n + 1), n + 1) == v % 2 + 2 * Rev(Rev(v / 2, n), n)
  {
    hide *;
    var r := Rev(v, n + 1);
    RevTop(v, n);
    RevSplit(r, n, 1);
    RevOfLow(r, n, n);
    OneBit(v % 2, Rev(r, n));
  }

  lemma {:induction false} RevRev(v: nat, n: nat)
    ensures Rev(Rev(v, n), n) == Low(v, n)
    decreases n
  {
    if n > 0 {
      RevRevStep(v, n - 1);
      RevRev(v / 2, n - 1);
    }
  }

  lemma RevInjective(u: nat, v: nat, n: nat)
    requires u < Pow2(n) && v < Pow2(n) && Rev(u, n) == Rev(v, n)
    ensures u == v
  {
    RevRev(u, n);
    RevRev(v, n);
    LowSmall(u, n);
    LowSmall(v, n);
  }

  lemma SmallPowers()
    ensures Pow2(0) == 1 && Pow2(1) == 2 && Pow2(2) == 4 && Pow2(3) == 8 && Pow2(4) == 16 && Pow2(5) == 32
    ensures Pow2(6) == 64 && Pow2(7) == 128 && Pow2(8) == 256 && Pow2(9) == 512 && Pow2(10) == 1024
    ensures Pow2(11) == 2048 && Pow2(12) == 4096 && Pow2(13) == 8192 && Pow2(14) == 16384 && Pow2(15) == 32768
  {
  }
}
