/** The rolling hash of zlib/deflate.c: UPDATE_HASH over three consecutive bytes.
    After three updates only the last three bytes count, and with the first two equal, equal hash
    values force the third byte to be equal. */
module Hash {
  import opened Bits

  /** The low n bits of the exclusive or of a and b. */
  function Xor(a: nat, b: nat, n: nat): (r: nat)
    ensures r < Pow2(n)
  {
    if n == 0 then 0 else (if a % 2 != b % 2 then 1 else 0) + 2 * Xor(a / 2, b / 2, n - 1)
  }

  lemma {:induction false} XorInjective(a: nat, b: nat, b': nat, n: nat)
    requires Xor(a, b, n) == Xor(a, b', n)
    ensures Low(b, n) == Low(b', n)
    decreases n
  {
    if n > 0 { XorInjective(a / 2, b / 2, b' / 2, n - 1); }
  }

  lemma {:induction false} XorLow(a: nat, a': nat, b: nat, n: nat, m: nat)
    requires m <= n && Low(a, m) == Low(a', m)
    ensures Low(Xor(a, b, n), m) == Low(Xor(a', b, n), m)
    decreases m
  {
    hide Xor;
    if m > 0 {
      XorLow(a / 2, a' / 2, b / 2, n - 1, m - 1);
      XorParts(a, b, n);
      XorParts(a', b, n);
    }
  }

  lemma XorParts(a: nat, b: nat, n: nat)
    requires n > 0
    ensures Xor(a, b, n) / 2 == Xor(a / 2, b / 2, n - 1) && Xor(a, b, n) % 2 == if a % 2 != b % 2 then 1 else 0
  {
  }

  lemma {:induction false} XorZero(b: nat, n: nat)
    ensures Xor(0, b, n) == Low(b, n)
    decreases n
  {
    if n > 0 { XorZero(b / 2, n - 1); }
  }

  lemma {:induction false} LowShl(v: nat, v': nat, s: nat, m: nat)
    requires m <= s || Low(v, m - s) == Low(v', m - s)
    ensures Low(Shl(v, s), m) == Low(Shl(v', s), m)
    decreases m
  {
    if m > 0 && s > 0 {
      assert Shl(v, s) / 2 == Shl(v, s - 1) && Shl(v', s) / 2 == Shl(v', s - 1);
      LowShl(v, v', s - 1, m - 1);
    }
  }

  /** hash_bits is memLevel + 7 and hash_shift is (hash_bits + 2) / 3, so three shifts cover it. */
  ghost predicate HashSize(bits: nat) { 8 <= bits <= 16 }

  function Shift(bits: nat): nat { (bits + 2) / 3 }

  /** UPDATE_HASH: ((h << hash_shift) ^ c) & hash_mask */
  function Update(bits: nat, h: nat, c: byte): (r: nat)
    ensures r < Pow2(bits)
  {
    Xor(Shl(h, Shift(bits)), c, bits)
  }

  function Hash3(bits: nat, a: byte, b: byte, c: byte): (r: nat)
    ensures r < Pow2(bits)
  {
    Update(bits, Update(bits, a, b), c)
  }

  lemma UpdateLow(bits: nat, h: nat, h': nat, c: byte, m: nat)
    requires m <= bits && (m <= Shift(bits) || Low(h, m - Shift(bits)) == Low(h', m - Shift(bits)))
    ensures Low(Update(bits, h, c), m) == Low(Update(bits, h', c), m)
  {
    hide Low, Shl, Xor, Pow2;
    LowShl(h, h', Shift(bits), m);
    XorLow(Shl(h, Shift(bits)), Shl(h', Shift(bits)), c, bits, m);
  }

  /** Rolling: h stands for the two bytes a and b when the next update gives their hash. */
  ghost predicate Rolled(bits: nat, h: nat, a: byte, b: byte) {
    forall c: byte :: Update(bits, h, c) == Hash3(bits, a, b, c)
  }

  /** The oldest byte no longer takes part: after hashing a, b, c the value stands for b and c. */
  lemma RollOn(bits: nat, h: nat, b: byte, c: byte)
    requires HashSize(bits)
    ensures Rolled(bits, Update(bits, Update(bits, h, b), c), b, c)
  {
    hide Update, Low, Pow2;
    forall d: byte
      ensures Update(bits, Update(bits, Update(bits, h, b), c), d) == Hash3(bits, b, c, d)
    {
      RollStep(bits, h, b, c, d);
    }
  }

  lemma RollStep(bits: nat, h: nat, b: byte, c: byte, d: byte)
    requires HashSize(bits)
    ensures Update(bits, Update(bits, Update(bits, h, b), c), d) == Update(bits, Update(bits, b, c), d)
  {
    hide Low, Pow2, Update, Xor;
    var s := Shift(bits);
    // b on its own is the update of an empty hash
    FirstUpdate(bits, b);
    UpdateLow(bits, h, 0, b, bits - 2 * s);
    UpdateLow(bits, Update(bits, h, b), Update(bits, 0, b), c, bits - s);
    UpdateLow(bits, Update(bits, Update(bits, h, b), c), Update(bits, Update(bits, 0, b), c), d, bits);
    LowSmall(Update(bits, Update(bits, Update(bits, h, b), c), d), bits);
    LowSmall(Update(bits, Update(bits, Update(bits, 0, b), c), d), bits);
  }

  lemma FirstUpdate(bits: nat, b: byte)
    requires HashSize(bits)
    ensures Update(bits, 0, b) == b
  {
    hide Low, Xor, Shl;
    ShlOne(Shift(bits));
    XorZero(b, bits);
    ByteFits(b, bits);
    LowSmall(b, bits);
  }

  lemma ByteFits(b: byte, bits: nat)
    requires bits >= 8
    ensures b < Pow2(bits)
  {
    Pow2Mono(8, bits);
    assert Pow2(8) == 256;
  }

  /** Starting afresh: the first byte, then an update with the second. */
  lemma RollStart(bits: nat, a: byte, b: byte)
    ensures Rolled(bits, Update(bits, a, b), a, b)
  {
  }

  /** One insertion: the update gives the hash of three bytes and then stands for the last two. */
  lemma RollNext(bits: nat, h: nat, a: byte, b: byte, c: byte)
    requires HashSize(bits) && Rolled(bits, h, a, b)
    ensures Update(bits, h, c) == Hash3(bits, a, b, c)
    ensures Rolled(bits, Update(bits, h, c), b, c)
  {
    hide Update, Low, Pow2;
    RollOn(bits, a, b, c);
  }

  /** It is not necessary to compare the third byte. */
  lemma ThirdByte(bits: nat, a: byte, b: byte, c: byte, c': byte)
    requires HashSize(bits) && Hash3(bits, a, b, c) == Hash3(bits, a, b, c')
    ensures c == c'
  {
    hide Low, Xor, Shl, Pow2;
    XorInjective(Shl(Update(bits, a, b), Shift(bits)), c, c', bits);
    ByteFits(c, bits);
    ByteFits(c', bits);
    LowSmall(c, bits);
    LowSmall(c', bits);
  }

  // ----- bit by bit -----

  ghost predicate Bit(v: nat, k: nat) {
    if k == 0 then v % 2 == 1 else Bit(v / 2, k - 1)
  }

  lemma {:induction false} XorBit(a: nat, b: nat, n: nat, k: nat)
    requires k < n
    ensures Bit(Xor(a, b, n), k) == (Bit(a, k) != Bit(b, k))
    decreases n
  {
    hide Xor;
    XorParts(a, b, n);
    if k > 0 { XorBit(a / 2, b / 2, n - 1, k - 1); }
  }

  lemma {:induction false} ShlBit(v: nat, s: nat, k: nat)
    ensures Bit(Shl(v, s), k) == (k >= s && Bit(v, k - s))
    decreases s
  {
    if s > 0 {
      assert Shl(v, s) / 2 == Shl(v, s - 1) && Shl(v, s) % 2 == 0;
      if k > 0 { ShlBit(v, s - 1, k - 1); }
    }
  }

  lemma UpdateBit(bits: nat, h: nat, c: byte, k: nat)
    requires k < bits
    ensures Bit(Update(bits, h, c), k) == ((k >= Shift(bits) && Bit(h, k - Shift(bits))) != Bit(c, k))
  {
    hide Xor, Shl, Bit;
    XorBit(Shl(h, Shift(bits)), c, bits, k);
    ShlBit(h, Shift(bits), k);
  }

  /** A bit of the hash is the exclusive or of the third byte's, the second's a third of the width below and the first's
      two thirds below. */
  lemma HashBit(bits: nat, a: byte, b: byte, c: byte, k: nat)
    requires k < bits
    ensures var s := (bits + 2) / 3;
      var one, two := k >= 2 * s && Bit(a, k - 2 * s), k >= s && Bit(b, k - s);
      Bit(Hash3(bits, a, b, c), k) == (one != (two != Bit(c, k)))
  {
    hide Update, Bit;
    UpdateBit(bits, Update(bits, a, b), c, k);
    if k >= Shift(bits) { UpdateBit(bits, a, b, k - Shift(bits)); }
  }
}
