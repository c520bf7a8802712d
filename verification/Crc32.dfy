/** zlib/crc32.c: polynomials over GF(2) modulo the CRC polynomial, reflected in 32-bit words, with the
    lowest power in the most significant bit. */
module Crc32 {
  import opened Bits

  type word = bv32

  /** p(x) without x^32, and the polynomials 1 and x. */
  const POLY: word := 0xedb88320
  const ONE: word := 0x80000000
  const X1: word := 0x40000000

  /** Addition of polynomials. */
  function Xor(a: word, b: word): word { a ^ b }

  function Half(b: word): word { b >> 1 }

  /** The coefficient at mask m. */
  predicate Has(a: word, m: word) { a & m != 0 }

  function Carry(b: word): word { if Has(b, 1) then POLY else 0 }

  /** Multiplication by x modulo p. */
  function Times1(b: word): word { Xor(Half(b), Carry(b)) }

  /** Multiplication by x^n. */
  function Times(b: word, n: nat): word
    decreases n
  {
    if n == 0 then b else Times(Times1(b), n - 1)
  }

  function Term(a: word, m: word, b: word): word { if Has(a, m) then b else 0 }

  /** The product of b with the terms of a from the coefficient at mask m on, b being worth that power. */
  function Product(a: word, b: word, m: word): word
    decreases m
  {
    if m == 0 then 0 else Xor(Term(a, m, b), Product(a, Times1(b), Half(m)))
  }

  /** a(x) b(x) mod p(x) */
  function Mul(a: word, b: word): word { Product(a, b, ONE) }

  // ----- words -----

  lemma XorSwap(a: word, b: word, c: word, d: word)
    ensures Xor(Xor(a, b), Xor(c, d)) == Xor(Xor(a, c), Xor(b, d))
  {
    hide Xor;
    XorFacts(a, b, Xor(c, d));
    XorFacts(b, c, d);
    XorFacts(c, b, d);
    XorFacts(a, c, Xor(b, d));
  }

  lemma XorFacts(a: word, b: word, c: word)
    ensures Xor(a, 0) == a && Xor(0, a) == a && Xor(a, a) == 0 && Xor(a, b) == Xor(b, a)
    ensures Xor(Xor(a, b), c) == Xor(a, Xor(b, c))
  {
  }

  lemma HalfXor(a: word, b: word)
    ensures Half(Xor(a, b)) == Xor(Half(a), Half(b)) && Half(0) == 0
  {
  }

  /** A mask of one bit. */
  ghost predicate Mask(m: word) { m != 0 && m & (m - 1) == 0 }

  lemma AndXor(a: word, b: word, m: word)
    ensures (a ^ b) & m == (a & m) ^ (b & m)
  {
  }

  lemma AndMask(a: word, m: word)
    requires m & (m - 1) == 0
    ensures a & m == 0 || a & m == m
  {
  }

  lemma HasXor(a: word, b: word, m: word)
    requires Mask(m)
    ensures Has(Xor(a, b), m) <==> Has(a, m) != Has(b, m)
    ensures !Has(0, m)
  {
    AndXor(a, b, m);
    AndMask(a, m);
    AndMask(b, m);
  }

  lemma HalfMask(m: word)
    requires Mask(m)
    ensures Half(m) == 0 || Mask(Half(m))
    ensures Has(m, 1) <==> m == 1
    ensures m == 1 <==> Half(m) == 0
  {
  }

  // ----- linearity -----

  lemma CarryXor(a: word, b: word)
    ensures Carry(Xor(a, b)) == Xor(Carry(a), Carry(b)) && Carry(0) == 0
  {
    hide Xor, Has;
    assert Mask(1);
    HasXor(a, b, 1);
    XorFacts(POLY, 0, 0);
    XorFacts(0, 0, 0);
  }

  lemma Times1Linear(a: word, b: word)
    ensures Times1(Xor(a, b)) == Xor(Times1(a), Times1(b)) && Times1(0) == 0
  {
    hide Xor, Half, Carry;
    HalfXor(a, b);
    CarryXor(a, b);
    XorSwap(Half(a), Half(b), Carry(a), Carry(b));
    XorFacts(0, 0, 0);
  }

  lemma {:induction false} TimesLinear(a: word, b: word, n: nat)
    ensures Times(Xor(a, b), n) == Xor(Times(a, n), Times(b, n)) && Times(0, n) == 0
    decreases n
  {
    hide Times1, Xor;
    if n > 0 {
      Times1Linear(a, b);
      TimesLinear(Times1(a), Times1(b), n - 1);
    }
  }

  lemma {:induction false} TimesAdd(b: word, m: nat, n: nat)
    ensures Times(Times(b, m), n) == Times(b, m + n)
    decreases m
  {
    hide Times1;
    if m > 0 { TimesAdd(Times1(b), m - 1, n); }
  }

  lemma TermXor(a: word, m: word, b: word, c: word)
    ensures Term(a, m, Xor(b, c)) == Xor(Term(a, m, b), Term(a, m, c))
    ensures Term(a, m, 0) == 0 && Times1(Term(a, m, b)) == Term(a, m, Times1(b))
  {
    hide Has, Xor, Times1;
    XorFacts(0, 0, 0);
    Times1Linear(0, 0);
  }

  lemma {:induction false} ProductLinear(a: word, b: word, c: word, m: word)
    ensures Product(a, Xor(b, c), m) == Xor(Product(a, b, m), Product(a, c, m))
    decreases m
  {
    hide Times1, Xor, Term;
    if m == 0 {
      XorFacts(0, 0, 0);
    } else {
      Times1Linear(b, c);
      ProductLinear(a, Times1(b), Times1(c), Half(m));
      TermXor(a, m, b, c);
      XorSwap(Term(a, m, b), Term(a, m, c), Product(a, Times1(b), Half(m)), Product(a, Times1(c), Half(m)));
    }
  }

  lemma {:induction false} ProductTimes1(a: word, b: word, m: word)
    ensures Product(a, Times1(b), m) == Times1(Product(a, b, m))
    decreases m
  {
    hide Times1, Xor, Term;
    if m == 0 {
      Times1Linear(0, 0);
    } else {
      ProductTimes1(a, Times1(b), Half(m));
      TermXor(a, m, b, 0);
      Times1Linear(Term(a, m, b), Product(a, Times1(b), Half(m)));
    }
  }

  lemma {:induction false} ProductLeft(a: word, c: word, b: word, m: word)
    requires m == 0 || Mask(m)
    ensures Product(Xor(a, c), b, m) == Xor(Product(a, b, m), Product(c, b, m))
    decreases m
  {
    hide Times1, Xor, Has;
    if m == 0 {
      XorFacts(0, 0, 0);
    } else {
      HasXor(a, c, m);
      HalfMask(m);
      ProductLeft(a, c, Times1(b), Half(m));
      XorFacts(b, 0, 0);
      XorFacts(0, 0, 0);
      assert Term(Xor(a, c), m, b) == Xor(Term(a, m, b), Term(c, m, b));
      XorSwap(Term(a, m, b), Term(c, m, b), Product(a, Times1(b), Half(m)), Product(c, Times1(b), Half(m)));
    }
  }

  lemma {:induction false} ProductZero(a: word, m: word)
    ensures Product(a, 0, m) == 0 && Product(0, a, m) == 0
    decreases m
  {
    hide Times1, Xor;
    if m != 0 {
      Times1Linear(0, 0);
      XorFacts(0, 0, 0);
      NoBits(m);
      ProductZero(a, Half(m));
      ProductZero(Times1(a), Half(m));
    }
  }

  lemma NoBits(m: word)
    ensures !Has(0, m)
  {
  }

  // ----- 1 is neutral -----

  /** The bits of b up to mask m. */
  function UpTo(b: word, m: word): word { b & (m | (m - 1)) }

  lemma HalfOr(m: word)
    requires Mask(m) && m != 1
    ensures Half(m) | (Half(m) - 1) == m - 1
  {
  }

  lemma AndOr(b: word, m: word)
    requires m & (m - 1) == 0
    ensures (b & m) ^ (b & (m - 1)) == b & (m | (m - 1))
  {
  }

  lemma TermMask(b: word, m: word)
    requires Mask(m)
    ensures Term(b, m, m) == b & m
  {
    AndMask(b, m);
  }

  lemma UpToHalf(b: word, m: word)
    requires Mask(m) && m != 1
    ensures UpTo(b, Half(m)) == b & (m - 1)
  {
    HalfOr(m);
  }

  lemma UpToStep(b: word, m: word)
    requires Mask(m) && m != 1
    ensures Xor(Term(b, m, m), UpTo(b, Half(m))) == UpTo(b, m)
  {
    hide Term, UpTo, Half;
    TermMask(b, m);
    UpToHalf(b, m);
    XorUpTo(b, m);
  }

  lemma XorUpTo(b: word, m: word)
    requires Mask(m)
    ensures Xor(b & m, b & (m - 1)) == UpTo(b, m)
  {
    AndOr(b, m);
  }

  lemma Times1Mask(m: word)
    requires Mask(m) && m != 1
    ensures Times1(m) == Half(m)
  {
    hide Xor, Half;
    XorFacts(Half(m), 0, 0);
    HalfMask(m);
  }

  lemma UpToOne(b: word)
    ensures Product(b, 1, 1) == UpTo(b, 1) && Mask(1) && UpTo(b, ONE) == b && Mask(ONE)
  {
    assert Half(1) == 0;
    assert Product(b, Times1(1), 0) == 0;
  }

  lemma {:induction false} ProductMask(b: word, m: word)
    requires Mask(m)
    ensures Product(b, m, m) == UpTo(b, m)
    decreases m
  {
    hide Xor, Times1, Term, UpTo, Half, Mask;
    UpToOne(b);
    HalfMask(m);
    if m != 1 {
      MaskLess(m);
      Times1Mask(m);
      ProductMask(b, Half(m));
      UpToStep(b, m);
    }
  }

  lemma MulOne(b: word)
    ensures Mul(b, ONE) == b
  {
    hide Product, UpTo;
    UpToOne(b);
    ProductMask(b, ONE);
  }

  // ----- products of products -----

  lemma {:induction false} MulProduct(c: word, b: word, d: word, m: word)
    ensures Mul(c, Product(b, d, m)) == Product(b, Mul(c, d), m)
    decreases m
  {
    hide Times1, Xor, Term;
    if m == 0 {
      ProductZero(c, ONE);
    } else {
      var rest := Product(b, Times1(d), Half(m));
      ProductLinear(c, Term(b, m, d), rest, ONE);
      MulProduct(c, b, Times1(d), Half(m));
      ProductTimes1(c, d, ONE);
      MulTerm(c, b, m, d);
    }
  }

  lemma MulTerm(c: word, b: word, m: word, d: word)
    ensures Mul(c, Term(b, m, d)) == Term(b, m, Mul(c, d)) && Mul(Term(b, m, d), c) == Term(b, m, Mul(d, c))
  {
    hide Product, Has;
    ProductZero(c, ONE);
  }

  lemma {:induction false} TimesProduct(b: word, d: word, m: word, n: nat)
    ensures Times(Product(b, d, m), n) == Product(b, Times(d, n), m)
    decreases n
  {
    hide Times1, Product;
    if n > 0 {
      ProductTimes1(b, d, m);
      TimesProduct(b, Times1(d), m, n - 1);
    }
  }

  /** How many halvings take mask m to 1. */
  function Steps(m: word): nat
    decreases m
  {
    if m <= 1 then 0 else 1 + Steps(Half(m))
  }

  lemma {:induction false} TimesMask(m: word)
    requires Mask(m)
    ensures Times(m, Steps(m)) == 1
    decreases m
  {
    hide Xor, Times1, Mask;
    if m == 1 {
      assert Steps(1) == 0;
    } else {
      HalfMask(m);
      MaskLess(m);
      Times1Mask(m);
      TimesMask(Half(m));
    }
  }

  lemma MaskLess(m: word)
    requires Mask(m)
    ensures m >= 1 && Half(m) < m
  {
  }

  lemma StepsOne()
    ensures Steps(ONE) == 31 && Mask(ONE)
  {
    assert Steps(0x80) == 7;
    assert Steps(0x8000) == 15;
    assert Steps(0x800000) == 23;
  }

  /** x^32 is POLY. */
  lemma PolyIs()
    ensures Times(ONE, 32) == POLY
  {
    hide Times, Steps;
    StepsOne();
    TimesMask(ONE);
    TimesAdd(ONE, 31, 1);
    TimesOnce(1);
    assert Times1(1) == POLY;
  }

  lemma TimesOnce(b: word)
    ensures Times(b, 1) == Times1(b)
  {
    hide Times1;
    assert Times(Times1(b), 0) == Times1(b);
  }

  lemma MulPoly(b: word)
    ensures Mul(POLY, b) == Times(b, 32)
  {
    hide Product, Times, Mul;
    MulOne(b);
    MulOne(POLY);
    MulIs(b, ONE);
    MulProduct(POLY, b, ONE, ONE);
    TimesProduct(b, ONE, ONE, 32);
    PolyIs();
  }

  lemma MulIs(a: word, b: word)
    ensures Mul(a, b) == Product(a, b, ONE)
  {
  }

  // ----- multiplying by x on the left -----

  lemma HasHalf(a: word, m: word)
    requires Mask(m)
    ensures m != 1 ==> (Has(Half(a), Half(m)) <==> Has(a, m))
    ensures !Has(Half(a), ONE)
  {
  }

  lemma ProductStep(a: word, b: word, m: word)
    ensures Product(a, b, 0) == 0
    ensures m != 0 ==> Product(a, b, m) == Xor(Term(a, m, b), Product(a, Times1(b), Half(m)))
  {
    hide Xor, Times1, Term, Half;
  }

  lemma StepsStep(c: word, m: word)
    requires m >= 1
    ensures m > 1 ==> Times(c, Steps(m)) == Times(Times1(c), Steps(Half(m)))
    ensures m == 1 ==> Times(c, Steps(m)) == c
  {
    hide Times1, Half;
  }

  /** Shifting a by one place drops the term of its last coefficient. */
  lemma {:induction false} ProductHalf(a: word, c: word, m: word)
    requires Mask(m)
    ensures Product(a, c, m) == Xor(Product(Half(a), c, Half(m)), Term(a, 1, Times(c, Steps(m))))
    decreases m
  {
    hide Xor, Times1, Has, Half, Mask, Product, Steps, Times;
    MaskLess(m);
    HalfMask(m);
    HasHalf(a, m);
    StepsStep(c, m);
    ProductStep(a, c, m);
    ProductStep(a, Times1(c), Half(m));
    ProductStep(Half(a), c, Half(m));
    if m == 1 {
      XorFacts(Term(a, 1, c), 0, 0);
    } else {
      ProductHalf(a, Times1(c), Half(m));
      var t, p, q := Term(a, m, c), Product(Half(a), Times1(c), Half(Half(m))), Term(a, 1, Times(c, Steps(m)));
      assert Product(a, c, m) == Xor(t, Xor(p, q));
      XorFacts(t, p, q);
    }
  }

  lemma MulHalf(a: word, b: word)
    ensures Mul(Half(a), b) == Xor(Times1(Mul(a, b)), Term(a, 1, Times(b, 32)))
  {
    hide Xor, Times1, Product, Times, Has, Half, Steps, Mask;
    StepsOne();
    HasHalf(a, ONE);
    ProductHalf(a, b, ONE);
    var h := Product(Half(a), b, Half(ONE));
    var q := Term(a, 1, Times(b, 31));
    MulFirst(Half(a), b);
    ProductTimes1(Half(a), b, Half(ONE));
    XorFacts(0, 0, 0);
    XorFacts(Times1(h), 0, 0);
    assert Mul(Half(a), b) == Times1(h);
    Cancel(Mul(a, b), h, q);
    Times1Linear(Mul(a, b), q);
    TermXor(a, 1, Times(b, 31), 0);
    TimesAdd(b, 31, 1);
    TimesOnce(Times(b, 31));
  }

  lemma MulFirst(a: word, b: word)
    ensures Mul(a, b) == Xor(Term(a, ONE, b), Product(a, Times1(b), Half(ONE)))
  {
    hide Xor, Times1;
  }

  lemma Cancel(x: word, h: word, q: word)
    requires x == Xor(h, q)
    ensures h == Xor(x, q)
  {
    hide Xor;
    XorFacts(h, q, q);
    XorFacts(q, q, q);
  }

  /** (x a) b = x (a b) */
  lemma MulTimes1(a: word, b: word)
    ensures Mul(Times1(a), b) == Times1(Mul(a, b))
  {
    hide Xor, Times1, Product, Times, Has, Half, Mul;
    StepsOne();
    var t := Term(a, 1, Times(b, 32));
    Times1Is(a);
    MulXor(Half(a), Carry(a), b);
    MulHalf(a, b);
    MulTerm(b, a, 1, POLY);
    MulPoly(b);
    assert Mul(Carry(a), b) == t;
    XorFacts(Times1(Mul(a, b)), t, t);
    XorFacts(t, t, t);
  }

  lemma Times1Is(a: word)
    ensures Times1(a) == Xor(Half(a), Carry(a)) && Carry(a) == Term(a, 1, POLY)
  {
  }

  lemma MulXor(a: word, c: word, b: word)
    ensures Mul(Xor(a, c), b) == Xor(Mul(a, b), Mul(c, b))
  {
    hide Xor, Product;
    ProductLeft(a, c, b, ONE);
  }

  // ----- powers of x -----

  /** x^n mod p */
  function Power(n: nat): word { Times(ONE, n) }

  /** Multiplying by x^n is n multiplications by x. */
  lemma {:induction false} MulPower(n: nat, b: word)
    ensures Mul(Power(n), b) == Times(b, n)
    decreases n
  {
    hide Times1, Product, Mul;
    if n == 0 {
      OneMul(b);
    } else {
      TimesAdd(ONE, n - 1, 1);
      TimesOnce(Power(n - 1));
      MulTimes1(Power(n - 1), b);
      MulPower(n - 1, b);
      TimesAdd(b, n - 1, 1);
      TimesOnce(Times(b, n - 1));
    }
  }

  lemma OneMul(b: word)
    ensures Mul(ONE, b) == b
  {
    hide Xor, Times1, Product, Half;
    MulFirst(ONE, b);
    TopOnly(Times1(b), Half(ONE));
    XorFacts(b, 0, 0);
  }

  /** Below its top bit ONE has no coefficient. */
  lemma {:induction false} TopOnly(b: word, m: word)
    requires m <= Half(ONE)
    ensures Product(ONE, b, m) == 0
    decreases m
  {
    hide Xor, Times1;
    if m != 0 {
      XorFacts(0, 0, 0);
      TopOnly(Times1(b), Half(m));
    }
  }

  lemma PowerAdd(m: nat, n: nat)
    ensures Mul(Power(m), Power(n)) == Power(m + n)
  {
    hide Mul, Times;
    MulPower(m, Power(n));
    TimesAdd(ONE, n, m);
  }

  // ----- x^(2^32) = x -----

  /** One multiplication by x as the code writes it. */
  function Step(b: word): word { if b & 1 != 0 then (b >> 1) ^ POLY else b >> 1 }

  function Step8(b: word): word { Step(Step(Step(Step(Step(Step(Step(Step(b)))))))) }

  function Half8(m: word): word { m >> 8 }

  /** One term added to the rest. */
  function Add(a: word, m: word, b: word, rest: word): word { if a & m != 0 then b ^ rest else rest }

  lemma AddIs(a: word, m: word, b: word, rest: word)
    ensures Add(a, m, b, rest) == Xor(Term(a, m, b), rest)
  {
    hide Xor;
    if Has(a, m) {
      XorIs(b, rest);
    } else {
      XorFacts(rest, 0, 0);
    }
  }

  lemma XorIs(a: word, b: word)
    ensures Xor(a, b) == a ^ b
  {
  }

  /** Eight terms of the product and the rest. */
  function Chunk(a: word, b: word, m: word, rest: word): word {
    var b1, m1 := Step(b), Half(m);
    var b2, m2 := Step(b1), Half(m1);
    var b3, m3 := Step(b2), Half(m2);
    var b4, m4 := Step(b3), Half(m3);
    var b5, m5 := Step(b4), Half(m4);
    var b6, m6 := Step(b5), Half(m5);
    var b7, m7 := Step(b6), Half(m6);
    Add(a, m, b, Add(a, m1, b1, Add(a, m2, b2, Add(a, m3, b3,
      Add(a, m4, b4, Add(a, m5, b5, Add(a, m6, b6, Add(a, m7, b7, rest))))))))
  }

  /** The product, eight terms at a time. */
  function Mul32(a: word, b: word): word {
    var b1 := Step8(b);
    var b2 := Step8(b1);
    var b3 := Step8(b2);
    Chunk(a, b, 0x80000000, Chunk(a, b1, 0x800000, Chunk(a, b2, 0x8000, Chunk(a, b3, 0x80, 0))))
  }

  /** A square from its eight-term parts. */
  lemma SquareBy(a: word, b1: word, b2: word, b3: word, r3: word, r2: word, r1: word, r0: word)
    requires Step8(a) == b1 && Step8(b1) == b2 && Step8(b2) == b3 && Chunk(a, b3, 0x80, 0) == r3
    requires Chunk(a, b2, 0x8000, r3) == r2 && Chunk(a, b1, 0x800000, r2) == r1 && Chunk(a, a, 0x80000000, r1) == r0
    ensures Mul(a, a) == r0
  {
    hide Step8, Chunk, Mul;
    Mul32Is(a, a);
  }

  lemma Squares0()
    ensures Mul(0x40000000, 0x40000000) == 0x20000000
    ensures Mul(0x20000000, 0x20000000) == 0x08000000
    ensures Mul(0x08000000, 0x08000000) == 0x00800000
    ensures Mul(0x00800000, 0x00800000) == 0x00008000
  {
    hide Mul;
    SquareBy(0x40000000, 0x00400000, 0x00004000, 0x00000040, 0x00000000, 0x00000000, 0x00000000, 0x20000000);
    SquareBy(0x20000000, 0x00200000, 0x00002000, 0x00000020, 0x00000000, 0x00000000, 0x00000000, 0x08000000);
    SquareBy(0x08000000, 0x00080000, 0x00000800, 0x00000008, 0x00000000, 0x00000000, 0x00000000, 0x00800000);
    SquareBy(0x00800000, 0x00008000, 0x00000080, 0xedb88320, 0x00000000, 0x00000000, 0x00008000, 0x00008000);
  }

  lemma Squares1()
    ensures Mul(0x00008000, 0x00008000) == 0xedb88320
    ensures Mul(0xedb88320, 0xedb88320) == 0xb1e6b092
    ensures Mul(0xb1e6b092, 0xb1e6b092) == 0xa06a2517
    ensures Mul(0xa06a2517, 0xa06a2517) == 0xed627dae
  {
    hide Mul;
    SquareBy(0x00008000, 0x00000080, 0xedb88320, 0x3b83984b, 0x00000000, 0xedb88320, 0xedb88320, 0xedb88320);
    SquareBy(0xedb88320, 0x3b83984b, 0xe1351b80, 0xed59b63b, 0xa032af3e, 0x43410ae7, 0x6f5d2e57, 0xb1e6b092);
    SquareBy(0xb1e6b092, 0x1eb014d8, 0x8816eaf2, 0x533b85da, 0x6da5b38c, 0x4dd0fc2c, 0x8dcd04b3, 0xa06a2517);
    SquareBy(0xa06a2517, 0x8373efe2, 0x4e87f0bb, 0x5cfdedf4, 0x1bdec6eb, 0xa09c46fe, 0xfe76134c, 0xed627dae);
  }

  lemma Squares2()
    ensures Mul(0xed627dae, 0xed627dae) == 0x88d14467
    ensures Mul(0x88d14467, 0x88d14467) == 0xd7bbfe6a
    ensures Mul(0xd7bbfe6a, 0xd7bbfe6a) == 0xec447f11
    ensures Mul(0xec447f11, 0xec447f11) == 0x8e7ea170
  {
    hide Mul;
    SquareBy(0xed627dae, 0x3183ec92, 0x1e307184, 0xeacb7748, 0x7a2289f1, 0xde8f2d5f, 0x5f576502, 0x88d14467);
    SquareBy(0x88d14467, 0xd35e25bf, 0x5b0df038, 0x2859b56e, 0xe8ebf8a5, 0x5cd1ad88, 0x07e2df77, 0xd7bbfe6a);
    SquareBy(0xd7bbfe6a, 0xadb033b8, 0xc5178b8d, 0x93cce816, 0xa3dc8891, 0x8d76e1d1, 0x0a9d6b06, 0xec447f11);
    SquareBy(0xec447f11, 0x6a5c648d, 0x9363a3f9, 0xc4f2291b, 0x9b1f55b0, 0xdbb2f8ca, 0x431f43e2, 0x8e7ea170);
  }

  lemma Squares3()
    ensures Mul(0x8e7ea170, 0x8e7ea170) == 0x6427800e
    ensures Mul(0x6427800e, 0x6427800e) == 0x4d47bae0
    ensures Mul(0x4d47bae0, 0x4d47bae0) == 0x09fe548f
    ensures Mul(0x09fe548f, 0x09fe548f) == 0x83852d0f
  {
    hide Mul;
    SquareBy(0x8e7ea170, 0x508b0f9d, 0x8eee64f6, 0x5450b94d, 0x78040484, 0x904808f5, 0x92288577, 0x6427800e);
    SquareBy(0x6427800e, 0xe7dc0a87, 0x733bca89, 0x9417004e, 0xd7bcbfdd, 0xa4877554, 0xd8c154f8, 0x4d47bae0);
    SquareBy(0x4d47bae0, 0xa047a5c2, 0x75cae439, 0x5f7042ec, 0x67147321, 0x1d44233f, 0xb21d8243, 0x09fe548f);
    SquareBy(0x09fe548f, 0x7d0e60e5, 0xd01d1897, 0x6ebb1bff, 0x8a9701d9, 0x76129ca2, 0xc4bbfb91, 0x83852d0f);
  }

  lemma Squares4()
    ensures Mul(0x83852d0f, 0x83852d0f) == 0x30362f1a
    ensures Mul(0x30362f1a, 0x30362f1a) == 0x7b5a9cc3
    ensures Mul(0x7b5a9cc3, 0x7b5a9cc3) == 0x31fec169
    ensures Mul(0x31fec169, 0x31fec169) == 0x9fec022a
  {
    hide Mul;
    SquareBy(0x83852d0f, 0x903c98bc, 0xc247c33f, 0xb6a46afe, 0x17b268fb, 0x0e934321, 0x65da5d1f, 0x30362f1a);
    SquareBy(0x30362f1a, 0xfd52cf55, 0x1bfcf7b4, 0xcc178b62, 0xb8a2bdbd, 0xdad57b61, 0xea351056, 0x7b5a9cc3);
    SquareBy(0x7b5a9cc3, 0x0216c996, 0x196e20b8, 0xc5a3559e, 0xd45eb125, 0xb99c8714, 0x0b9a777c, 0x31fec169);
    SquareBy(0x31fec169, 0x345f273d, 0x585c1336, 0xcfe2c98a, 0x78dccb19, 0x481a44e1, 0xb0a0457f, 0x9fec022a);
  }

  lemma Squares5()
    ensures Mul(0x9fec022a, 0x9fec022a) == 0x6c8dedc4
    ensures Mul(0x6c8dedc4, 0x6c8dedc4) == 0x15d6874d
    ensures Mul(0x15d6874d, 0x15d6874d) == 0x5fde7a4e
    ensures Mul(0x5fde7a4e, 0x5fde7a4e) == 0xbad90e37
  {
    hide Mul;
    SquareBy(0x9fec022a, 0xdb2425d4, 0x816532e8, 0xae500f78, 0x6e7a224c, 0xbaa9156f, 0x91b7aa2f, 0x6c8dedc4);
    SquareBy(0x6c8dedc4, 0x9c658b44, 0x712de002, 0xee7f4ccc, 0xd3817194, 0x4e0484c2, 0x70adda34, 0x15d6874d);
    SquareBy(0x15d6874d, 0x0878ebaa, 0x360b321d, 0x633067eb, 0x18ad48f0, 0x10171f0c, 0xd884834b, 0x5fde7a4e);
    SquareBy(0x5fde7a4e, 0x913bb2ed, 0xde2aa577, 0xcebfce3a, 0x902f01c1, 0xd459e260, 0x22de1b37, 0xbad90e37);
  }

  lemma Squares6()
    ensures Mul(0xbad90e37, 0xbad90e37) == 0x2e4e5eef
    ensures Mul(0x2e4e5eef, 0x2e4e5eef) == 0x4eaba214
    ensures Mul(0x4eaba214, 0x4eaba214) == 0xa8a472c0
    ensures Mul(0xa8a472c0, 0xa8a472c0) == 0x429a969e
  {
    hide Mul;
    SquareBy(0xbad90e37, 0xb8077c01, 0x77bf37ea, 0x40a8b451, 0xfc01a082, 0x9ca98f5a, 0x40320943, 0x2e4e5eef);
    SquareBy(0x2e4e5eef, 0x309bb1b7, 0x5535bd9e, 0x17e28bfe, 0xef38487b, 0x11a72a1e, 0xfcc7adc8, 0x4eaba214);
    SquareBy(0x4eaba214, 0x1a947fdf, 0x16765b3a, 0xc61aafe9, 0x5d9a69e8, 0x0d41941a, 0x433559ff, 0xa8a472c0);
    SquareBy(0xa8a472c0, 0x9bcc66c2, 0x75f16ffa, 0x5d1dea6d, 0x9e2b9c7b, 0x837330c2, 0xca9dbfc2, 0x429a969e);
  }

  lemma Squares7()
    ensures Mul(0x429a969e, 0x429a969e) == 0x148d302a
    ensures Mul(0x148d302a, 0x148d302a) == 0xc40ba6d0
    ensures Mul(0xc40ba6d0, 0xc40ba6d0) == 0xc4e22c3c
    ensures Mul(0xc4e22c3c, 0xc4e22c3c) == 0x40000000
  {
    hide Mul;
    SquareBy(0x429a969e, 0x17f524d5, 0xf6aed37f, 0xc04cc27e, 0xe4f76bf6, 0xaf848951, 0x6a14e831, 0x148d302a);
    SquareBy(0x148d302a, 0xdbaf44e6, 0x49b2e809, 0x79950a4c, 0xa5a7b402, 0xf34f3259, 0xdb897930, 0xc40ba6d0);
    SquareBy(0xc40ba6d0, 0x8617d972, 0xbe8d07c9, 0xe206f713, 0x2f4fb000, 0x8bb7c6f9, 0x89748792, 0xc4e22c3c);
    SquareBy(0xc4e22c3c, 0x2fab9eab, 0x412bd1fe, 0x5a44f4ca, 0x3c76fbed, 0xda287f46, 0x40bec93b, 0x40000000);
  }

  lemma StepIs(b: word)
    ensures Step(b) == Times1(b)
  {
    XorFacts(b >> 1, 0, 0);
  }

  lemma Step8Is(b: word)
    ensures Step8(b) == Times(b, 8)
  {
    hide Step, Times1;
    var b1 := Step(b);
    var b2 := Step(b1);
    var b3 := Step(b2);
    var b4 := Step(b3);
    var b5 := Step(b4);
    var b6 := Step(b5);
    var b7 := Step(b6);
    StepIs(b); StepIs(b1); StepIs(b2); StepIs(b3); StepIs(b4); StepIs(b5); StepIs(b6); StepIs(b7);
    assert Times(b7, 1) == Step(b7) by { TimesOnce(b7); }
    assert Times(b5, 3) == Times(b6, 2) == Times(b7, 1);
    assert Times(b3, 5) == Times(b4, 4) == Times(b5, 3);
    assert Times(b1, 7) == Times(b2, 6) == Times(b3, 5);
  }

  lemma Front(a: word, b: word, m: word)
    requires m != 0
    ensures Product(a, b, m) == Add(a, m, b, Product(a, Step(b), Half(m)))
  {
    hide Product, Xor, Step, Term, Half, Times1, Add;
    StepIs(b);
    ProductStep(a, b, m);
    AddIs(a, m, b, Product(a, Step(b), Half(m)));
  }

  lemma ChunkIs(a: word, b: word, m: word)
    requires m >= 0x80
    ensures Product(a, b, m) == Chunk(a, b, m, Product(a, Step8(b), Half8(m)))
  {
    hide Product, Xor, Step, Term, Half, Half8, Times1, Add;
    var b1, m1 := Step(b), Half(m);
    var b2, m2 := Step(b1), Half(m1);
    var b3, m3 := Step(b2), Half(m2);
    var b4, m4 := Step(b3), Half(m3);
    var b5, m5 := Step(b4), Half(m4);
    var b6, m6 := Step(b5), Half(m5);
    var b7, m7 := Step(b6), Half(m6);
    StepIs(b); StepIs(b1); StepIs(b2); StepIs(b3); StepIs(b4); StepIs(b5); StepIs(b6); StepIs(b7);
    Halves(m);
    Front(a, b7, m7);
    Front(a, b6, m6);
    Front(a, b5, m5);
    Front(a, b4, m4);
    Front(a, b3, m3);
    Front(a, b2, m2);
    Front(a, b1, m1);
    Front(a, b, m);
  }

  lemma Halves(m: word)
    requires m >= 0x80
    ensures var m1 := Half(m);
      var m2 := Half(m1);
      var m3 := Half(m2);
      var m4 := Half(m3);
      var m5 := Half(m4);
      var m6 := Half(m5);
      var m7 := Half(m6);
      m != 0 && m1 != 0 && m2 != 0 && m3 != 0 && m4 != 0 && m5 != 0 && m6 != 0 && m7 != 0 && Half(m7) == Half8(m)
  {
  }

  lemma Mul32Is(a: word, b: word)
    ensures Mul32(a, b) == Mul(a, b)
  {
    hide Product, Chunk, Step8;
    var b1 := Step8(b);
    var b2 := Step8(b1);
    var b3 := Step8(b2);
    ChunkIs(a, b, 0x80000000);
    ChunkIs(a, b1, 0x800000);
    ChunkIs(a, b2, 0x8000);
    ChunkIs(a, b3, 0x80);
    ProductStep(a, Step8(b3), 0);
  }

  lemma PowerTwice(k: nat)
    ensures Power(Pow2(k + 1)) == Mul(Power(Pow2(k)), Power(Pow2(k)))
  {
    hide Power, Mul;
    PowerAdd(Pow2(k), Pow2(k));
  }

  lemma PowerOne()
    ensures Power(Pow2(0)) == X1
  {
    hide Times, Times1;
    assert Pow2(0) == 1;
    TimesOnce(ONE);
    assert Step(ONE) == X1;
    StepIs(ONE);
  }

  /** x^(2^32) = x: squaring comes back to x after 32 steps. */
  lemma FullCircle()
    ensures Power(Pow2(32)) == Power(Pow2(0))
  {
    hide Power, Mul, Pow2;
    PowerOne();
    Squares0(); Squares1(); Squares2(); Squares3(); Squares4(); Squares5(); Squares6(); Squares7();
    PowerTwice(0); PowerTwice(1); PowerTwice(2); PowerTwice(3); PowerTwice(4); PowerTwice(5); PowerTwice(6);
    PowerTwice(7);
    PowerTwice(8); PowerTwice(9); PowerTwice(10); PowerTwice(11); PowerTwice(12); PowerTwice(13); PowerTwice(14);
    PowerTwice(15);
    PowerTwice(16); PowerTwice(17); PowerTwice(18); PowerTwice(19); PowerTwice(20); PowerTwice(21); PowerTwice(22);
    PowerTwice(23);
    PowerTwice(24); PowerTwice(25); PowerTwice(26); PowerTwice(27); PowerTwice(28); PowerTwice(29); PowerTwice(30);
    PowerTwice(31);
  }

  lemma {:induction false} PowersRepeat(k: nat)
    ensures Power(Pow2(k + 32)) == Power(Pow2(k))
    decreases k
  {
    hide Power, Mul, Pow2;
    if k == 0 {
      FullCircle();
    } else {
      PowersRepeat(k - 1);
      PowerTwice(k - 1);
      PowerTwice(k + 31);
    }
  }

  /** x2n_table[k & 31] serves every k. */
  lemma {:induction false} PowersWrap(k: nat)
    ensures Power(Pow2(k)) == Power(Pow2(k % 32))
    decreases k
  {
    hide Power, Pow2;
    if k >= 32 {
      PowersRepeat(k - 32);
      PowersWrap(k - 32);
    }
  }

  lemma Times1Zero(b: word)
    ensures Times1(b) == 0 ==> b == 0
  {
    StepIs(b);
    assert Step(b) == 0 ==> b == 0;
  }

  lemma {:induction false} TimesNonzero(b: word, n: nat)
    requires b != 0
    ensures Times(b, n) != 0
    decreases n
  {
    hide Times1;
    if n > 0 {
      Times1Zero(b);
      TimesNonzero(Times1(b), n - 1);
    }
  }

  // ----- multmodp, x2nmodp -----

  /** No coefficients from m on, no product. */
  lemma {:induction false} ProductNone(a: word, b: word, m: word)
    requires m == 0 || (Mask(m) && UpTo(a, m) == 0)
    ensures Product(a, b, m) == 0
    decreases m
  {
    hide Times1, Xor;
    if m != 0 {
      NoneBelow(a, m);
      HalfMask(m);
      MaskLess(m);
      ProductNone(a, Times1(b), Half(m));
      XorFacts(0, 0, 0);
    }
  }

  lemma NoneBelow(a: word, m: word)
    requires Mask(m) && UpTo(a, m) == 0
    ensures !Has(a, m) && (m != 1 ==> UpTo(a, Half(m)) == 0)
  {
  }

  /** The coefficients of a below mask m. */
  function Below(a: word, m: word): word { a & (m - 1) }

  lemma NextMask(a: word, m: word)
    requires Mask(m) && UpTo(a, m) != 0
    ensures !Has(a, m) ==> m != 1 && UpTo(a, Half(m)) != 0
    ensures Below(a, m) != 0 ==> m != 1 && UpTo(a, Half(m)) != 0
    ensures Below(a, m) == 0 ==> m == 1 || UpTo(a, Half(m)) == 0
  {
    hide Half;
    BitsBelow(a, m);
    if m != 1 { UpToHalf(a, m); }
  }

  lemma BitsBelow(a: word, m: word)
    requires a & (m | (m - 1)) != 0
    ensures a & m == 0 ==> a & (m - 1) != 0
    ensures m == 1 ==> a & (m - 1) == 0
  {
  }

  /** One turn of multmodp() moves one term from the product still to come into p. */
  lemma TermMoves(a: word, b: word, m: word, p: word)
    requires Mask(m)
    ensures Xor(p, Product(a, b, m)) == Xor(if Has(a, m) then Xor(p, b) else p, Product(a, Step(b), Half(m)))
  {
    hide Product, Xor, Times1, Half, Mask, Has;
    MaskLess(m);
    ProductStep(a, b, m);
    StepIs(b);
    XorFacts(Product(a, Times1(b), Half(m)), 0, 0);
    XorFacts(p, b, Product(a, Times1(b), Half(m)));
  }

  /** multmodp(): the product modulo p, for a not zero. */
  method MultModP(a: word, b0: word) returns (p: word)
    requires a != 0
    ensures p == Mul(a, b0)
  {
    hide Product, Xor, UpTo, Times1, Half, Mask, Has, Below, Step;
    var m, b := ONE, b0;
    p := 0;
    UpToOne(a);
    XorFacts(Mul(a, b), 0, 0);
    while true
      invariant Mask(m) && UpTo(a, m) != 0 && Xor(p, Product(a, b, m)) == Mul(a, b0)
      decreases m
    {
      NextMask(a, m);
      MaskLess(m);
      HalfMask(m);
      TermMoves(a, b, m, p);
      if Has(a, m) {
        p := Xor(p, b);
        if Below(a, m) == 0 {
          ProductNone(a, Step(b), Half(m));
          XorFacts(p, 0, 0);
          break;
        }
      }
      m := Half(m);
      b := Step(b);
    }
  }

  /** x2n_table[]: x^(2^k) for k below 32. */
  ghost predicate X2nTable(t: seq<word>) {
    |t| == 32 && forall k :: 0 <= k < 32 ==> t[k] == Power(Pow2(k))
  }

  lemma PowerNonzero(n: nat)
    ensures Power(n) != 0
  {
    TimesNonzero(ONE, n);
  }

  /** The second part of make_crc_table(). */
  method MakeX2n() returns (t: array<word>)
    ensures X2nTable(t[..])
  {
    hide Power, Pow2, Mul;
    t := new word[32](_ => 0);
    var p := X1;
    PowerOne();
    t[0] := p;
    for n := 1 to 32
      invariant p == Power(Pow2(n - 1)) && forall k :: 0 <= k < n ==> t[k] == Power(Pow2(k))
    {
      PowerNonzero(Pow2(n - 1));
      PowerTwice(n - 1);
      p := MultModP(p, p);
      t[n] := p;
    }
  }

  lemma ShlHalf(n: nat, k: nat)
    ensures Shl(n, k) == (if n % 2 == 1 then Pow2(k) else 0) + Shl(n / 2, k + 1)
  {
    hide Pow2;
    var h := n / 2;
    ShlAdd(2 * h, n % 2, k);
    ShlOne(k);
    ShlDouble(h, k);
  }

  lemma {:induction false} ShlDouble(n: nat, k: nat)
    ensures Shl(2 * n, k) == Shl(n, k + 1)
    decreases k
  {
    if k > 0 { ShlDouble(n, k - 1); }
  }

  /** x2nmodp(): x^(n * 2^k), by squares from the table; k wraps around at 32. */
  method X2nModP(t: seq<word>, n0: nat, k0: nat) returns (p: word)
    requires X2nTable(t)
    ensures p == Power(Shl(n0, k0))
  {
    hide Power, Pow2, Mul, Shl;
    var n, k := n0, k0;
    p := ONE;
    ghost var e: nat := 0;
    PowerZero();
    while n != 0
      invariant p == Power(e) && e + Shl(n, k) == Shl(n0, k0)
      decreases n
    {
      ShlHalf(n, k);
      if n % 2 == 1 {
        PowersWrap(k);
        PowerNonzero(Pow2(k));
        PowerAdd(Pow2(k), e);
        p := MultModP(t[k % 32], p);
        e := Pow2(k) + e;
      }
      n := n / 2;
      k := k + 1;
    }
    ShlNone(k);
  }

  lemma PowerZero()
    ensures Power(0) == ONE
  {
  }

  lemma ShlNone(k: nat)
    ensures Shl(0, k) == 0
  {
    ShlOne(k);
  }

  // ----- the checksum -----

  type octet = bv8

  /** The register after the bytes: each is added to the low end, then eight multiplications by x. */
  function Register(c: word, data: seq<octet>): word {
    if data == [] then c else Times(Xor(Register(c, data[..|data| - 1]), data[|data| - 1] as word), 8)
  }

  function Invert(c: word): word { Xor(c, 0xffffffff) }

  /** CRC-32 of data behind data whose CRC-32 is crc (section 8 of RFC 1952). */
  function Crc(crc: word, data: seq<octet>): word { Invert(Register(Invert(crc), data)) }

  /** The digits 1 to 9. */
  const CHECK: seq<octet> := [0x31, 0x32, 0x33, 0x34, 0x35, 0x36, 0x37, 0x38, 0x39]

  lemma RegisterPush(c: word, data: seq<octet>, b: octet, r: word)
    requires Step8(Xor(Register(c, data), b as word)) == r
    ensures Register(c, data + [b]) == r
  {
    hide Times, Step8, Xor;
    Step8Is(Xor(Register(c, data), b as word));
    assert (data + [b])[..|data|] == data;
  }

  /** Two known checksums: of one zero byte, and the usual check value. */
  lemma KnownChecksums()
    ensures Crc(0, [0]) == 0xd202ef8d && Crc(0, CHECK) == 0xcbf43926
  {
    hide Register;
    ZeroByte();
    CheckRegister();
  }

  lemma ZeroByte()
    ensures Register(0xffffffff, [0]) == 0x2dfd1072
  {
    hide Register, Step8, Xor;
    RegisterNone(0xffffffff);
    ByteZero();
    var none: seq<octet> := [];
    RegisterPush(0xffffffff, none, 0, 0x2dfd1072);
    assert none + [0] == [0];
  }

  lemma CheckRegister()
    ensures Register(0xffffffff, CHECK) == 0x340bc6d9
  {
    hide Register, Step8, Xor;
    RegisterNone(0xffffffff);
    KnownSteps();
    assert CHECK[..0] == [];
    RegisterPush(0xffffffff, CHECK[..0], CHECK[0], 0x7c231048);
    assert CHECK[..0] + [CHECK[0]] == CHECK[..1];
    RegisterPush(0xffffffff, CHECK[..1], CHECK[1], 0xb0acbb32);
    assert CHECK[..1] + [CHECK[1]] == CHECK[..2];
    RegisterPush(0xffffffff, CHECK[..2], CHECK[2], 0x77b79c2d);
    assert CHECK[..2] + [CHECK[2]] == CHECK[..3];
    RegisterPush(0xffffffff, CHECK[..3], CHECK[3], 0x641c1f5c);
    assert CHECK[..3] + [CHECK[3]] == CHECK[..4];
    RegisterPush(0xffffffff, CHECK[..4], CHECK[4], 0x340ac5e3);
    assert CHECK[..4] + [CHECK[4]] == CHECK[..5];
    RegisterPush(0xffffffff, CHECK[..5], CHECK[5], 0xf68d2c9e);
    assert CHECK[..5] + [CHECK[5]] == CHECK[..6];
    RegisterPush(0xffffffff, CHECK[..6], CHECK[6], 0xaffc9660);
    assert CHECK[..6] + [CHECK[6]] == CHECK[..7];
    RegisterPush(0xffffffff, CHECK[..7], CHECK[7], 0x651f2550);
    assert CHECK[..7] + [CHECK[7]] == CHECK[..8];
    RegisterPush(0xffffffff, CHECK[..8], CHECK[8], 0x340bc6d9);
    assert CHECK[..8] + [CHECK[8]] == CHECK[..9];
    assert CHECK[..9] == CHECK;
  }

  lemma ByteZero()
    ensures Step8(Xor(0xffffffff, 0)) == 0x2dfd1072
  {
  }

  lemma KnownSteps()
    ensures Step8(Xor(0xffffffff, 0x31)) == 0x7c231048
    ensures Step8(Xor(0x7c231048, 0x32)) == 0xb0acbb32
    ensures Step8(Xor(0xb0acbb32, 0x33)) == 0x77b79c2d
    ensures Step8(Xor(0x77b79c2d, 0x34)) == 0x641c1f5c
    ensures Step8(Xor(0x641c1f5c, 0x35)) == 0x340ac5e3
    ensures Step8(Xor(0x340ac5e3, 0x36)) == 0xf68d2c9e
    ensures Step8(Xor(0xf68d2c9e, 0x37)) == 0xaffc9660
    ensures Step8(Xor(0xaffc9660, 0x38)) == 0x651f2550
    ensures Step8(Xor(0x651f2550, 0x39)) == 0x340bc6d9
  {
  }

  /** Bytes can be given in pieces. */
  lemma {:induction false} RegisterConcat(c: word, a: seq<octet>, b: seq<octet>)
    ensures Register(c, a + b) == Register(Register(c, a), b)
    decreases |b|
  {
    hide Times, Xor;
    if b == [] {
      assert a + b == a;
    } else {
      var init := b[..|b| - 1];
      assert (a + b)[..|a + b| - 1] == a + init;
      RegisterConcat(c, a, init);
    }
  }

  /** The register is linear: its start only adds its own multiple. */
  lemma {:induction false} RegisterSplit(c: word, data: seq<octet>)
    ensures Register(c, data) == Xor(Times(c, 8 * |data|), Register(0, data))
    decreases |data|
  {
    hide Times, Xor;
    if data == [] {
      TimesZero(c);
      XorFacts(c, 0, 0);
    } else {
      var n := |data| - 1;
      var init, b := data[..n], data[n] as word;
      var z := Register(0, init);
      RegisterSplit(c, init);
      var t := Times(c, 8 * n);
      XorFacts(t, z, b);
      TimesLinear(t, Xor(z, b), 8);
      TimesAdd(c, 8 * n, 8);
    }
  }

  lemma TimesZero(c: word)
    ensures Times(c, 0) == c
  {
  }

  /** The checksum of a concatenation from the checksums of its parts. */
  lemma CombineLaw(a: seq<octet>, b: seq<octet>)
    ensures Crc(0, a + b) == Xor(Mul(Power(8 * |b|), Crc(0, a)), Crc(0, b))
  {
    hide Times, Xor, Register, Power, Mul;
    var ones: word, n := 0xffffffff, 8 * |b|;
    XorFacts(ones, 0, 0);
    var ra, z := Register(ones, a), Register(0, b);
    RegisterConcat(ones, a, b);
    RegisterSplit(ra, b);
    RegisterSplit(ones, b);
    MulPower(n, Crc(0, a));
    TimesLinear(ra, ones, n);
    var p, q := Times(ra, n), Times(ones, n);
    // Crc(0, a + b) = (p + z) + ones and the right side is (p + q) + ((q + z) + ones)
    XorSwap(p, q, Xor(q, z), ones);
    XorFacts(q, q, z);
    XorFacts(p, q, Xor(q, z));
    XorFacts(z, 0, 0);
    XorFacts(Xor(p, q), Xor(q, z), ones);
    XorFacts(Xor(p, z), ones, ones);
  }

  // ----- computing it -----

  /** crc_table[]: eight multiplications by x of every byte. */
  ghost predicate ByteTable(t: seq<word>) {
    |t| == 256 && forall i: octet :: EntryOk(t, i)
  }

  ghost predicate EntryOk(t: seq<word>, i: octet)
    requires |t| == 256
  {
    t[i as int] == Times(i as word, 8)
  }

  ghost predicate TableBelow(t: seq<word>, i: octet) {
    |t| == 256 && forall k: octet :: k < i ==> EntryOk(t, k)
  }

  lemma Different(k: octet, i: octet)
    requires k != i
    ensures k as int != i as int
  {
  }

  lemma TableNext(t: seq<word>, i: octet, p: word)
    requires TableBelow(t, i) && p == Times(i as word, 8)
    ensures i != 255 ==> TableBelow(t[i as int := p], i + 1)
    ensures i == 255 ==> ByteTable(t[i as int := p])
  {
    hide Times;
    var t' := t[i as int := p];
    forall k: octet | k <= i ensures EntryOk(t', k) {
      if k != i {
        assert k < i && EntryOk(t, k);
        Different(k, i);
      }
    }
    if i == 255 {
      forall k: octet ensures EntryOk(t', k) { assert k <= i; }
    } else {
      forall k: octet | k < i + 1 ensures EntryOk(t', k) { assert k <= i; }
    }
  }

  /** The first part of make_crc_table(). */
  method MakeCrcTable() returns (t: array<word>)
    ensures ByteTable(t[..])
  {
    hide Times, Step, TableBelow, ByteTable;
    t := new word[256](_ => 0);
    var i: octet := 0;
    NoneDone(t[..]);
    while true
      invariant TableBelow(t[..], i)
      decreases 255 - i
    {
      var p := i as word;
      for j := 0 to 8
        invariant Times(p, 8 - j) == Times(i as word, 8) && TableBelow(t[..], i)
      {
        TimesNext(p, 8 - j);
        p := Step(p);
      }
      TimesZero(p);
      TableNext(t[..], i, p);
      ghost var was := t[..];
      t[i as int] := p;
      assert t[..] == was[i as int := p];
      if i == 255 { break; }
      i := i + 1;
    }
  }

  lemma NoneDone(t: seq<word>)
    requires |t| == 256
    ensures TableBelow(t, 0)
  {
  }

  lemma TimesNext(b: word, n: nat)
    requires n >= 1
    ensures Times(b, n) == Times(Step(b), n - 1)
  {
    hide Step, Times1;
    StepIs(b);
  }

  lemma HighByte(c: word)
    ensures Step8(c & 0xffffff00) == c >> 8
  {
  }

  /** Eight multiplications by x with the low byte going through the table. */
  lemma TableStep(c: word)
    ensures Xor(c >> 8, Times(((c & 0xff) as octet) as word, 8)) == Times(c, 8)
  {
    hide Times, Xor;
    var hi, lo := c & 0xffffff00, c & 0xff;
    HighByte(c);
    Step8Is(hi);
    LowByte(c);
    TimesLinear(hi, lo, 8);
  }

  lemma LowByte(c: word)
    ensures ((c & 0xff) as octet) as word == c & 0xff
    ensures Xor(c & 0xffffff00, c & 0xff) == c
  {
  }

  /** One byte: (crc >> 8) ^ crc_table[(crc ^ b) & 0xff] */
  method UpdateByte(t: seq<word>, crc: word, b: octet) returns (r: word)
    requires ByteTable(t)
    ensures r == Times(Xor(crc, b as word), 8)
  {
    hide Times;
    var x := Xor(crc, b as word);
    TableStep(x);
    HighOnly(crc, b);
    assert EntryOk(t, (x & 0xff) as octet);
    r := Xor(crc >> 8, t[((x & 0xff) as octet) as int]);
  }

  lemma HighOnly(crc: word, b: octet)
    ensures Xor(crc, b as word) >> 8 == crc >> 8
  {
  }

  /** The bytewise part of crc32_z(), eight bytes to a turn and then one by one. */
  method Crc32Z(t: seq<word>, crc0: word, buf: seq<octet>) returns (r: word)
    requires ByteTable(t)
    ensures r == Crc(crc0, buf)
  {
    hide Times, Xor, Register, ByteTable;
    var crc, i := Invert(crc0), 0;
    RegisterNone(crc);
    assert buf[..0] == [];
    while |buf| - i >= 8
      invariant 0 <= i <= |buf| && crc == Register(Invert(crc0), buf[..i])
      decreases |buf| - i
    {
      ghost var i0 := i;
      for k := 0 to 8
        invariant i == i0 + k && crc == Register(Invert(crc0), buf[..i])
      {
        RegisterNext(Invert(crc0), buf, i);
        crc := UpdateByte(t, crc, buf[i]);
        i := i + 1;
      }
    }
    while i < |buf|
      invariant 0 <= i <= |buf| && crc == Register(Invert(crc0), buf[..i])
    {
      RegisterNext(Invert(crc0), buf, i);
      crc := UpdateByte(t, crc, buf[i]);
      i := i + 1;
    }
    assert buf[..|buf|] == buf;
    r := Invert(crc);
  }

  lemma RegisterNone(c: word)
    ensures Register(c, []) == c
  {
  }

  lemma RegisterNext(c: word, data: seq<octet>, i: nat)
    requires i < |data|
    ensures Register(c, data[..i + 1]) == Times(Xor(Register(c, data[..i]), data[i] as word), 8)
  {
    hide Times, Xor;
    assert data[..i + 1][..i] == data[..i];
  }

  /** crc32_combine_gen64(): the operator for appending len2 bytes; a negative length has none. */
  method CombineGen(t: seq<word>, len2: int) returns (op: word)
    requires X2nTable(t)
    ensures op == if len2 < 0 then 0 else Power(8 * len2)
    ensures len2 >= 0 ==> op != 0
  {
    hide Power, Shl;
    if len2 < 0 { return 0; }
    op := X2nModP(t, len2, 3);
    EightTimes(len2);
    PowerNonzero(8 * len2);
  }

  lemma EightTimes(n: nat)
    ensures Shl(n, 3) == 8 * n
  {
    assert Shl(n, 1) == 2 * n && Shl(n, 2) == 4 * n;
  }

  /** crc32_combine_op() */
  method CombineOp(crc1: word, crc2: word, op: word) returns (r: word)
    ensures r == if op == 0 then 0 else Xor(Mul(op, crc1), crc2)
  {
    if op == 0 { return 0; }
    var p := MultModP(op, crc1);
    r := Xor(p, crc2);
  }

  /** crc32_combine64(): from the checksums of two byte strings and the length of the second, the checksum
      of their concatenation, for every length. */
  method Combine(t: seq<word>, crc1: word, crc2: word, len2: int, ghost a: seq<octet>, ghost b: seq<octet>)
    returns (r: word)
    requires X2nTable(t)
    ensures len2 < 0 ==> r == 0
    ensures crc1 == Crc(0, a) && crc2 == Crc(0, b) && len2 == |b| ==> r == Crc(0, a + b)
  {
    hide Power, Mul, Xor, Crc;
    var op := CombineGen(t, len2);
    r := CombineOp(crc1, crc2, op);
    CombineLaw(a, b);
  }
}
