/** The Adler-32 checksum of zlib/adler32.c: deferred reduction and combination against the
    byte-at-a-time definition. */
module Adler32 {
  const BASE: nat := 65521
  const NMAX: nat := 5552
  const WORD: nat := 0x1_0000_0000

  type Byte = b: int | 0 <= b < 256

  /** The two component sums. */
  datatype Sums = Sums(a: nat, b: nat)

  /** A checksum word and its halves. */
  function Pack(s: Sums): nat { s.a + 65536 * s.b }

  function Unpack(adler: nat): Sums { Sums(adler % 65536, adler / 65536 % 65536) }

  predicate Reduced(s: Sums) { s.a < BASE && s.b < BASE }

  function M(x: nat): (r: nat)
    ensures r < BASE
  {
    x % BASE
  }

  lemma MSum(x: nat, y: nat)
    ensures M(M(x) + y) == M(x + y) && M(y + M(x)) == M(x + y)
  {
    assert x == M(x) + x / BASE * BASE;
    Multiple(M(x) + y, x / BASE);
  }

  lemma Multiple(x: nat, q: nat)
    ensures (x + q * BASE) % BASE == x % BASE
  {
  }

  function Modulo(s: Sums): Sums { Sums(M(s.a), M(s.b)) }

  // The definition, and the sums without reduction.

  /** Each byte is added to the first sum and the first sum to the second, modulo BASE. */
  function Adler(s: Sums, data: seq<Byte>): Sums {
    if data == [] then s else
    var p := Adler(s, data[..|data| - 1]);
    var a := M(p.a + data[|data| - 1]);
    Sums(a, M(p.b + a))
  }

  function Raw(s: Sums, data: seq<Byte>): Sums {
    if data == [] then s else
    var p := Raw(s, data[..|data| - 1]);
    Sums(p.a + data[|data| - 1], p.b + p.a + data[|data| - 1])
  }

  /** Reduction may be deferred. */
  lemma {:induction false} Deferred(s: Sums, data: seq<Byte>)
    requires Reduced(s)
    ensures Reduced(Adler(s, data)) && Adler(s, data) == Modulo(Raw(s, data))
  {
    if data == [] {
      assert M(s.a) == s.a && M(s.b) == s.b;
    } else {
      hide M;
      var p, x := Raw(s, data[..|data| - 1]), data[|data| - 1];
      Deferred(s, data[..|data| - 1]);
      MSum(p.a, x);
      MSum(p.a + x, M(p.b));
      MSum(p.b, p.a + x);
    }
  }

  lemma {:induction false} RawConcat(s: Sums, x: seq<Byte>, y: seq<Byte>)
    ensures Raw(s, x + y) == Raw(Raw(s, x), y)
    decreases |y|
  {
    if y == [] {
      assert x + y == x;
    } else {
      RawConcat(s, x, y[..|y| - 1]);
      assert (x + y)[..|x + y| - 1] == x + y[..|y| - 1];
    }
  }

  /** The sums of the bytes alone, and where a start leads from there. */
  lemma {:induction false} RawLinear(s: Sums, data: seq<Byte>)
    ensures var r, z := Raw(s, data), Raw(Sums(0, 0), data); r.a == s.a + z.a && r.b == s.b + |data| * s.a + z.b
  {
    if data != [] {
      RawLinear(s, data[..|data| - 1]);
      assert |data| * s.a == (|data| - 1) * s.a + s.a;
    }
  }

  /** Reducing on the way changes nothing. */
  lemma {:induction false} RawModulo(s: Sums, data: seq<Byte>)
    ensures Modulo(Raw(Modulo(s), data)) == Modulo(Raw(s, data))
  {
    hide M;
    if data == [] {
      MSum(s.a, 0);
      MSum(s.b, 0);
    } else {
      var p, r, x := Raw(s, data[..|data| - 1]), Raw(Modulo(s), data[..|data| - 1]), data[|data| - 1];
      RawModulo(s, data[..|data| - 1]);
      MSum(p.a, x);
      MSum(r.a, x);
      MSum(p.a + x, p.b);
      MSum(r.a + x, r.b);
      MSum(p.b, M(p.a + x));
      MSum(r.b, M(p.a + x));
    }
  }

  // The bound on the block length.

  /** The largest second sum after n bytes from a start of 16-bit halves. */
  function Top(n: nat): nat { if n == 0 then 65535 else Top(n - 1) + 65535 + 255 * n }

  lemma {:induction false} TopClosed(n: nat)
    ensures 2 * Top(n) == 131070 * (n + 1) + 255 * (n * (n + 1))
  {
    if n > 0 { TopClosed(n - 1); }
  }

  lemma {:induction false} TopGrows(m: nat, n: nat)
    requires m <= n
    ensures Top(m) <= Top(n)
  {
    if m < n { TopGrows(m, n - 1); }
  }

  lemma TopFits()
    ensures Top(NMAX) < WORD
  {
    TopClosed(NMAX);
  }

  /** The comment on NMAX: it is the largest n for which a block from reduced sums cannot overflow. */
  lemma NmaxLargest(n: nat)
    ensures 255 * (n * (n + 1)) + 2 * ((n + 1) * (BASE - 1)) <= 2 * (WORD - 1) <==> n <= NMAX
  {
    var x := n * (n + 1);
    if n <= NMAX {
      Products(n, NMAX);
    } else {
      Products(NMAX + 1, n);
    }
  }

  lemma Products(m: nat, n: nat)
    requires m <= n
    ensures m * (m + 1) <= n * (n + 1)
  {
    assert m * (m + 1) <= n * (m + 1) <= n * (n + 1);
  }

  /** The sums are small enough after n bytes of a block. */
  predicate After(s: Sums, n: nat) { s.a <= 65535 + 255 * n && s.b <= Top(n) }

  // The unrolled steps, in 32-bit arithmetic.

  function Add(x: nat, y: nat): nat { (x + y) % WORD }

  function Do1(s: Sums, x: Byte): Sums {
    var a := Add(s.a, x);
    Sums(a, Add(s.b, a))
  }

  function Do2(s: Sums, buf: seq<Byte>, i: nat): Sums
    requires i + 2 <= |buf|
  {
    Do1(Do1(s, buf[i]), buf[i + 1])
  }

  function Do4(s: Sums, buf: seq<Byte>, i: nat): Sums
    requires i + 4 <= |buf|
  {
    Do2(Do2(s, buf, i), buf, i + 2)
  }

  function Do8(s: Sums, buf: seq<Byte>, i: nat): Sums
    requires i + 8 <= |buf|
  {
    Do4(Do4(s, buf, i), buf, i + 4)
  }

  function Do16(s: Sums, buf: seq<Byte>, i: nat): Sums
    requires i + 16 <= |buf|
  {
    Do8(Do8(s, buf, i), buf, i + 8)
  }

  /** One byte within a block does not wrap around. */
  lemma Step(s: Sums, buf: seq<Byte>, i: nat, n: nat)
    requires i < |buf| && n < NMAX && After(s, n)
    ensures Do1(s, buf[i]) == Raw(s, buf[i..i + 1]) && After(Do1(s, buf[i]), n + 1)
  {
    hide Add, After, Top;
    StepFits(s, buf[i], n);
    AddFits(s.a, buf[i]);
    AddFits(s.b, s.a + buf[i]);
    assert buf[i..i + 1] == [buf[i]] && [buf[i]][..0] == [];
  }

  lemma StepFits(s: Sums, x: Byte, n: nat)
    requires n < NMAX && After(s, n)
    ensures s.a + x < WORD && s.b + s.a + x < WORD && After(Sums(s.a + x, s.b + s.a + x), n + 1)
  {
    TopFits();
    TopGrows(n + 1, NMAX);
  }

  lemma AddFits(x: nat, y: nat)
    requires x + y < WORD
    ensures Add(x, y) == x + y
  {
  }

  lemma Chain(s: Sums, buf: seq<Byte>, i: nat, j: nat, k: nat)
    requires i <= j <= k <= |buf|
    ensures Raw(Raw(s, buf[i..j]), buf[j..k]) == Raw(s, buf[i..k])
  {
    RawConcat(s, buf[i..j], buf[j..k]);
    assert buf[i..j] + buf[j..k] == buf[i..k];
  }

  lemma Steps2(s: Sums, buf: seq<Byte>, i: nat, n: nat)
    requires i + 2 <= |buf| && n + 2 <= NMAX && After(s, n)
    ensures Do2(s, buf, i) == Raw(s, buf[i..i + 2]) && After(Do2(s, buf, i), n + 2)
  {
    hide Do1, Raw, After;
    Step(s, buf, i, n);
    Step(Do1(s, buf[i]), buf, i + 1, n + 1);
    Chain(s, buf, i, i + 1, i + 2);
  }

  lemma Steps4(s: Sums, buf: seq<Byte>, i: nat, n: nat)
    requires i + 4 <= |buf| && n + 4 <= NMAX && After(s, n)
    ensures Do4(s, buf, i) == Raw(s, buf[i..i + 4]) && After(Do4(s, buf, i), n + 4)
  {
    hide Do2, Raw, After;
    Steps2(s, buf, i, n);
    Steps2(Do2(s, buf, i), buf, i + 2, n + 2);
    Chain(s, buf, i, i + 2, i + 4);
  }

  lemma Steps8(s: Sums, buf: seq<Byte>, i: nat, n: nat)
    requires i + 8 <= |buf| && n + 8 <= NMAX && After(s, n)
    ensures Do8(s, buf, i) == Raw(s, buf[i..i + 8]) && After(Do8(s, buf, i), n + 8)
  {
    hide Do4, Raw, After;
    Steps4(s, buf, i, n);
    Steps4(Do4(s, buf, i), buf, i + 4, n + 4);
    Chain(s, buf, i, i + 4, i + 8);
  }

  /** Sixteen unrolled sums. */
  lemma Steps16(s: Sums, buf: seq<Byte>, i: nat, n: nat)
    requires i + 16 <= |buf| && n + 16 <= NMAX && After(s, n)
    ensures Do16(s, buf, i) == Raw(s, buf[i..i + 16]) && After(Do16(s, buf, i), n + 16)
  {
    hide Do8, Raw, After;
    Steps8(s, buf, i, n);
    Steps8(Do8(s, buf, i), buf, i + 8, n + 8);
    Chain(s, buf, i, i + 8, i + 16);
  }

  // Reduction without division.

  function Chop(x: nat): nat { x % 65536 + (x / 65536 * 16 - x / 65536) }

  function Mod28(x: nat): nat { var y := Chop(x); if y >= BASE then y - BASE else y }

  function Mod(x: nat): nat { Mod28(Chop(x)) }

  function Mod63(x: nat): nat {
    var y := x % WORD + (x / WORD * 256 - x / WORD * 32 + x / WORD);
    var z := Chop(Chop(y));
    if z >= BASE then z - BASE else z
  }

  lemma ChopKeeps(x: nat)
    ensures M(Chop(x)) == M(x)
  {
    var q := x / 65536;
    assert x == Chop(x) + q * BASE;
    Multiple(Chop(x), q);
  }

  /** Reduction without division, for any 32-bit word. */
  lemma ModReduces(x: nat)
    requires x < WORD
    ensures Mod(x) == M(x)
  {
    ChopKeeps(x);
    assert Chop(x) < 0x1000_0000;
    Mod28Reduces(Chop(x));
  }

  lemma Mod28Reduces(x: nat)
    requires x < 0x1000_0000
    ensures Mod28(x) == M(x)
  {
    ChopKeeps(x);
    Below(Chop(x));
  }

  lemma Below(x: nat)
    requires x < 2 * BASE
    ensures M(x) == if x >= BASE then x - BASE else x
  {
  }

  lemma ChopBelow(x: nat, n: nat)
    requires x / 65536 <= n
    ensures Chop(x) <= 65535 + 15 * n
  {
  }

  /** Reduction without division, for any length of 63 bits. */
  lemma Mod63Reduces(x: nat)
    requires x < 0x8000_0000_0000_0000
    ensures Mod63(x) == M(x)
  {
    hide M, Chop;
    var h := x / WORD;
    var y := x % WORD + 225 * h;
    assert h < 0x8000_0000 && y < WORD + 225 * 0x8000_0000;
    ChopBelow(y, 7438336);
    ChopBelow(Chop(y), 1703);
    ChopKeeps(y);
    ChopKeeps(Chop(y));
    Below(Chop(Chop(y)));
    HighWord(h, x % WORD);
  }

  lemma HighWord(h: nat, low: nat)
    ensures M(low + 225 * h) == M(low + h * WORD)
  {
    assert WORD == 65551 * BASE + 225;
    assert low + h * WORD == low + 225 * h + (h * 65551) * BASE;
    Multiple(low + 225 * h, h * 65551);
  }

  // The code.

  /** The data pointer, null or not. */
  datatype Buffer = Null | Buffer(data: seq<Byte>)

  /** The word's sums are those of the data from `s`, modulo BASE. */
  ghost predicate Sound(s: Sums, data: seq<Byte>, adler: nat) {
    adler == Pack(Unpack(adler)) && Modulo(Unpack(adler)) == Modulo(Raw(s, data))
  }

  lemma PackUnpack(s: Sums)
    requires s.a < 65536 && s.b < 65536
    ensures Unpack(Pack(s)) == s && Pack(s) < WORD
  {
  }

  lemma SmallAfter(s: Sums)
    requires s.a < 65536 && s.b < 65536
    ensures After(s, 0)
  {
  }

  /** adler32_z(): sound from any start word; a reduced start gives exactly the definition. */
  method Adler32Z(adler: nat, buf: Buffer) returns (r: nat)
    requires adler < WORD
    ensures buf.Null? ==> r == 1
    ensures buf.Buffer? ==> Sound(Unpack(adler), buf.data, r)
    ensures buf.Buffer? && (|buf.data| == 1 ==> Reduced(Unpack(adler))) ==> Reduced(Unpack(r))
    ensures buf.Buffer? && Reduced(Unpack(adler)) ==> r == Pack(Adler(Unpack(adler), buf.data))
  {
    hide M, Raw, Adler, Pack, Unpack;
    if buf.Null? { return 1; }
    var s, data := Unpack(adler), buf.data;
    UnpackSmall(adler);
    SmallAfter(s);
    ReducedOnly(s, data);
    if |data| == 1 {
      r := OneByte(s, data);
      return;
    }
    if |data| < 16 {
      r := Short(s, data);
      return;
    }
    var i;
    s, i := Blocks(s, data);
    if i < |data| { s := Tail(Unpack(adler), s, data, i); }
    assert data[..|data|] == data;
    PackUnpack(s);
    ReducedModulo(s);
    r := Pack(s);
  }

  lemma UnpackSmall(adler: nat)
    ensures Unpack(adler).a < 65536 && Unpack(adler).b < 65536
  {
  }

  lemma ReducedModulo(s: Sums)
    ensures Modulo(Modulo(s)) == Modulo(s) && Reduced(Modulo(s)) && (Reduced(s) ==> Modulo(s) == s)
  {
  }

  /** Reduced and sound is exact. */
  lemma ReducedOnly(s: Sums, data: seq<Byte>)
    ensures Reduced(s) ==> forall r: nat :: Sound(s, data, r) && Reduced(Unpack(r)) ==> r == Pack(Adler(s, data))
  {
    hide M, Raw, Adler;
    if Reduced(s) {
      Deferred(s, data);
      forall r: nat | Sound(s, data, r) && Reduced(Unpack(r)) ensures r == Pack(Adler(s, data)) {
        ReducedModulo(Unpack(r));
      }
    }
  }

  method OneByte(s: Sums, data: seq<Byte>) returns (r: nat)
    requires |data| == 1 && s.a < 65536 && s.b < 65536
    ensures Sound(s, data, r) && (Reduced(s) ==> Reduced(Unpack(r)))
  {
    var a, b := s.a + data[0], s.b;
    if a >= BASE { a := a - BASE; }
    b := b + a;
    if b >= BASE { b := b - BASE; }
    OneSound(s, data, a, b);
    PackUnpack(Sums(a, b));
    r := Pack(Sums(a, b));
  }

  lemma OneSound(s: Sums, data: seq<Byte>, a: nat, b: nat)
    requires |data| == 1
    requires a == (if s.a + data[0] >= BASE then s.a + data[0] - BASE else s.a + data[0])
    requires b == (if s.b + a >= BASE then s.b + a - BASE else s.b + a)
    ensures Modulo(Sums(a, b)) == Modulo(Raw(s, data))
  {
    hide M;
    assert data[..0] == [];
    var x := s.a + data[0];
    LessBase(x);
    LessBase(s.b + a);
    MSum(a, s.b);
    MSum(x, s.b);
  }

  lemma LessBase(x: nat)
    ensures x >= BASE ==> M(x - BASE) == M(x)
  {
    if x >= BASE { Multiple(x - BASE, 1); }
  }

  method Short(s: Sums, data: seq<Byte>) returns (r: nat)
    requires |data| < 16 && s.a < 65536 && s.b < 65536
    ensures Sound(s, data, r) && Reduced(Unpack(r))
  {
    hide M, Raw, Do1, Mod28;
    SmallAfter(s);
    var t := AddBytes(s, data, 0);
    assert data[0..] == data;
    TopGrows(|data|, 15);
    TopClosed(15);
    var a := if t.a >= BASE then t.a - BASE else t.a;
    LessBase(t.a);
    Mod28Reduces(t.b);
    var u := Sums(a, Mod28(t.b));
    ReducedModulo(t);
    MSum(t.b, 0);
    PackUnpack(u);
    r := Pack(u);
  }

  /** The byte-at-a-time loop over the rest of a block, `n` bytes into it. */
  method AddBytes(s: Sums, data: seq<Byte>, n: nat) returns (t: Sums)
    requires n + |data| <= NMAX && After(s, n)
    ensures t == Raw(s, data) && After(t, n + |data|)
  {
    hide Raw, Do1, After;
    t := s;
    RawNone(s);
    for i := 0 to |data|
      invariant t == Raw(s, data[..i]) && After(t, n + i)
    {
      Step(t, data, i, n + i);
      Chain(s, data, 0, i, i + 1);
      t := Do1(t, data[i]);
    }
    assert data[..|data|] == data;
  }

  lemma RawNone(s: Sums)
    ensures Raw(s, []) == s
  {
  }

  /** Sixteen bytes at a time over `count` groups. */
  method AddGroups(s: Sums, data: seq<Byte>, from: nat, count: nat) returns (t: Sums)
    requires from + 16 * count <= |data| && 16 * count <= NMAX && After(s, 0)
    ensures t == Raw(s, data[from..from + 16 * count]) && After(t, 16 * count)
  {
    hide Raw, Do16, After;
    t := s;
    RawNone(s);
    assert data[from..from] == [];
    for k := 0 to count
      invariant t == Raw(s, data[from..from + 16 * k]) && After(t, 16 * k)
    {
      Steps16(t, data, from + 16 * k, 16 * k);
      Chain(s, data, from, from + 16 * k, from + 16 * k + 16);
      t := Do16(t, data, from + 16 * k);
    }
  }

  lemma Reduce(s: Sums, t: Sums, data: seq<Byte>, i: nat, j: nat, n: nat)
    requires i <= j <= |data| && Modulo(s) == Modulo(Raw(t, data[..i])) && n <= NMAX && After(Raw(s, data[i..j]), n)
    ensures var r := Raw(s, data[i..j]);
      Sums(Mod(r.a), Mod(r.b)) == Modulo(r) == Modulo(Raw(t, data[..j]))
  {
    hide M, Raw, Mod;
    var r := Raw(s, data[i..j]);
    TopFits();
    TopGrows(n, NMAX);
    ModReduces(r.a);
    ModReduces(r.b);
    RawModulo(s, data[i..j]);
    RawModulo(Raw(t, data[..i]), data[i..j]);
    RawConcat(t, data[..i], data[i..j]);
    assert data[..i] + data[i..j] == data[..j];
  }

  /** The loop over whole blocks, each reduced once. */
  method Blocks(s: Sums, data: seq<Byte>) returns (t: Sums, i: nat)
    requires s.a < 65536 && s.b < 65536 && |data| >= 16
    ensures i <= |data| < i + NMAX && t.a < 65536 && t.b < 65536 && Modulo(t) == Modulo(Raw(s, data[..i]))
    ensures i == |data| ==> Reduced(t)
  {
    hide M, Raw, After, Mod;
    t, i := s, 0;
    RawNone(s);
    while |data| - i >= NMAX
      invariant i <= |data| && t.a < 65536 && t.b < 65536 && Modulo(t) == Modulo(Raw(s, data[..i]))
      invariant i > 0 ==> Reduced(t)
    {
      SmallAfter(t);
      var u := AddGroups(t, data, i, NMAX / 16);
      Reduce(t, s, data, i, i + NMAX, NMAX);
      ReducedModulo(u);
      t, i := Sums(Mod(u.a), Mod(u.b)), i + NMAX;
    }
  }

  /** The bytes after the last whole block, reduced once. */
  method Tail(start: Sums, s: Sums, data: seq<Byte>, i: nat) returns (t: Sums)
    requires i <= |data| < i + NMAX && s.a < 65536 && s.b < 65536 && Modulo(s) == Modulo(Raw(start, data[..i]))
    ensures Reduced(t) && Modulo(t) == Modulo(Raw(start, data))
  {
    hide M, Raw, After, Mod;
    SmallAfter(s);
    var count := (|data| - i) / 16;
    var j := i + 16 * count;
    var u := AddGroups(s, data, i, count);
    u := AddBytes(u, data[j..], 16 * count);
    Chain(s, data, i, j, |data|);
    assert data[j..|data|] == data[j..] && data[..|data|] == data;
    Reduce(s, start, data, i, |data|, |data| - i);
    ReducedModulo(u);
    t := Sums(Mod(u.a), Mod(u.b));
  }

  // Combination.

  const START: Sums := Sums(1, 0)

  /** "Wikipedia" */
  const WORDS: seq<Byte> := [87, 105, 107, 105, 112, 101, 100, 105, 97]

  lemma AdlerPush(s: Sums, data: seq<Byte>, c: Byte, r: Sums)
    requires var p := Adler(s, data); r.a == p.a + c < 65521 && r.b == p.b + r.a < 65521
    ensures Adler(s, data + [c]) == r
  {
    hide M;
    SmallModulo(r.a);
    SmallModulo(r.b);
    assert (data + [c])[..|data|] == data;
  }

  lemma SmallModulo(x: nat)
    ensures x < 65521 ==> M(x) == x
  {
  }

  /** The checksum in numbers: it starts from 1, the first sum is the low half, both are modulo 65521, and a known
      value. */
  lemma KnownSums(s: Sums)
    ensures Unpack(1) == START && Pack(s) == s.a + 0x1_0000 * s.b
    ensures Reduced(s) <==> s.a < 65521 && s.b < 65521
    ensures Modulo(s) == Sums(s.a % 65521, s.b % 65521)
    ensures Pack(Adler(Unpack(1), WORDS)) == 0x11e60398
  {
    hide Adler;
    KnownWord();
  }

  lemma KnownWord()
    ensures Adler(START, WORDS) == Sums(920, 4582)
  {
    hide Adler;
    assert WORDS[..0] == [];
    AdlerNone(START);
    AdlerPush(START, WORDS[..0], WORDS[0], Sums(88, 88));
    assert WORDS[..0] + [WORDS[0]] == WORDS[..1];
    AdlerPush(START, WORDS[..1], WORDS[1], Sums(193, 281));
    assert WORDS[..1] + [WORDS[1]] == WORDS[..2];
    AdlerPush(START, WORDS[..2], WORDS[2], Sums(300, 581));
    assert WORDS[..2] + [WORDS[2]] == WORDS[..3];
    AdlerPush(START, WORDS[..3], WORDS[3], Sums(405, 986));
    assert WORDS[..3] + [WORDS[3]] == WORDS[..4];
    AdlerPush(START, WORDS[..4], WORDS[4], Sums(517, 1503));
    assert WORDS[..4] + [WORDS[4]] == WORDS[..5];
    AdlerPush(START, WORDS[..5], WORDS[5], Sums(618, 2121));
    assert WORDS[..5] + [WORDS[5]] == WORDS[..6];
    AdlerPush(START, WORDS[..6], WORDS[6], Sums(718, 2839));
    assert WORDS[..6] + [WORDS[6]] == WORDS[..7];
    AdlerPush(START, WORDS[..7], WORDS[7], Sums(823, 3662));
    assert WORDS[..7] + [WORDS[7]] == WORDS[..8];
    AdlerPush(START, WORDS[..8], WORDS[8], Sums(920, 4582));
    assert WORDS[..8] + [WORDS[8]] == WORDS[..9];
    assert WORDS[..9] == WORDS;
  }

  lemma AdlerNone(s: Sums)
    ensures Adler(s, []) == s
  {
  }

  /** The sums of a concatenation: the second part started over from 1, and its n bytes each add the first sum. */
  function Combined(s: Sums, t: Sums, n: nat): Sums {
    Sums(M(s.a + t.a + BASE - 1), M(M(n * s.a) + s.b + t.b + BASE - M(n)))
  }

  /** The checksum of a concatenation from those of its parts, for every pair of byte strings. */
  lemma CombineLaw(x: seq<Byte>, y: seq<Byte>)
    ensures Combined(Adler(START, x), Adler(START, y), |y|) == Adler(START, x + y)
  {
    hide M, Raw, Adler;
    var p, q, z := Raw(START, x), Raw(START, y), Raw(Sums(0, 0), y);
    Deferred(START, x);
    Deferred(START, y);
    Deferred(START, x + y);
    RawConcat(START, x, y);
    RawLinear(p, y);
    RawLinear(START, y);
    FirstSums(p.a, q.a);
    SecondSums(p.a, p.b, q.b, |y|);
  }

  lemma FirstSums(a: nat, a': nat)
    requires a' >= 1
    ensures M(M(a) + M(a') + BASE - 1) == M(a + a' - 1)
  {
    hide M;
    MSum(a', M(a) + BASE - 1);
    MSum(a, a' + BASE - 1);
    LessBase(a + a' + BASE - 1);
  }

  lemma SecondSums(a: nat, b: nat, b': nat, n: nat)
    requires b' >= n
    ensures M(M(n * M(a)) + M(b) + M(b') + BASE - M(n)) == M(b + n * a + b' - n)
  {
    hide M;
    var k := BASE - M(n);
    MTimes(n, a);
    MSum(n * M(a), M(b) + M(b') + k);
    MSum(n * a, M(b) + M(b') + k);
    MSum(b, n * a + M(b') + k);
    MSum(b', n * a + b + k);
    Complement(n, b + n * a + b' - n);
  }

  lemma MTimes(n: nat, a: nat)
    ensures M(n * M(a)) == M(n * a)
  {
    assert a == M(a) + a / BASE * BASE;
    assert n * a == n * M(a) + n * (a / BASE) * BASE;
    Multiple(n * M(a), n * (a / BASE));
  }

  lemma Complement(n: nat, x: nat)
    ensures M(x + n + (BASE - M(n))) == M(x)
  {
    assert n == M(n) + n / BASE * BASE;
    Multiple(x, n / BASE + 1);
  }

  /** adler32_combine_(): from the checksums of two byte strings and the length of the second, the checksum of
      their concatenation; a negative length gives an invalid word. */
  method Combine(adler1: nat, adler2: nat, len2: int, ghost x: seq<Byte>, ghost y: seq<Byte>) returns (r: nat)
    requires adler1 < WORD && adler2 < WORD && len2 < 0x8000_0000_0000_0000
    ensures len2 < 0 ==> r == 0xffff_ffff
    ensures adler1 == Pack(Adler(START, x)) && adler2 == Pack(Adler(START, y)) && len2 == |y| ==>
      r == Pack(Adler(START, x + y))
  {
    hide M, Adler, Pack, Unpack;
    Deferred(START, x);
    Deferred(START, y);
    PackUnpack(Adler(START, x));
    PackUnpack(Adler(START, y));
    CombineLaw(x, y);
    r := CombineSums(adler1, adler2, len2);
  }

  /** The code of adler32_combine_() on reduced words. */
  method CombineSums(adler1: nat, adler2: nat, len2: int) returns (r: nat)
    requires adler1 < WORD && adler2 < WORD && len2 < 0x8000_0000_0000_0000
    ensures len2 < 0 ==> r == 0xffff_ffff
    ensures len2 >= 0 && Reduced(Unpack(adler1)) && Reduced(Unpack(adler2)) ==>
      r == Pack(Combined(Unpack(adler1), Unpack(adler2), len2))
  {
    hide M, Mod, Mod63, Pack;
    if len2 < 0 { return 0xffff_ffff; }
    Mod63Reduces(len2);
    var rem := Mod63(len2);
    var sum1 := adler1 % 65536;
    RemProduct(rem, sum1);
    ModReduces(rem * sum1);
    ProductMod(len2, sum1);
    var sum2 := Mod(rem * sum1);
    sum1 := sum1 + adler2 % 65536 + BASE - 1;
    sum2 := sum2 + adler1 / 65536 % 65536 + adler2 / 65536 % 65536 + BASE - rem;
    BelowFour(sum1);
    BelowFour(sum2);
    if sum1 >= BASE { sum1 := sum1 - BASE; }
    if sum1 >= BASE { sum1 := sum1 - BASE; }
    if sum2 >= 2 * BASE { sum2 := sum2 - 2 * BASE; }
    if sum2 >= BASE { sum2 := sum2 - BASE; }
    r := Pack(Sums(sum1, sum2));
  }

  lemma RemProduct(x: nat, y: nat)
    requires x < BASE && y < 65536
    ensures x * y < WORD
  {
    assert x * y <= x * 65535;
  }

  lemma ProductMod(n: nat, a: nat)
    ensures M(M(n) * a) == M(n * a)
  {
    MTimes(a, n);
    assert a * M(n) == M(n) * a && a * n == n * a;
  }

  lemma BelowFour(x: nat)
    ensures x < BASE ==> M(x) == x
    ensures BASE <= x < 2 * BASE ==> M(x) == x - BASE
    ensures 2 * BASE <= x < 3 * BASE ==> M(x) == x - 2 * BASE
    ensures 3 * BASE <= x < 4 * BASE ==> M(x) == x - 3 * BASE
  {
  }
}
