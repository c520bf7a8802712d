/** What a DEFLATE stream means in the numbers of RFC 1951: bit order, code words, block types, the fixed code, the
    header of a dynamic block, repeated lengths, and the lengths and distances that symbols stand for. */
module Rfc1951 {
  import opened Bits
  import opened Huffman
  import opened Ranks
  import opened InflateTable
  import opened InflateSpec
  import opened BitReader
  import opened BitWriter
  import opened Block
  import opened CodeLengths
  import opened BlockCost
  import opened Header
  import opened BlockTypes
  import opened StreamSpec

  // ----- bits (section 3.1.1) -----

  lemma FourBits(v: nat)
    ensures ToBits(v, 4) == [v % 2 == 1, v / 2 % 2 == 1, v / 4 % 2 == 1, v / 8 % 2 == 1]
  {
    assert ToBits(v, 4) == [v % 2 == 1] + ToBits(v / 2, 3);
    assert ToBits(v / 2, 3) == [v / 2 % 2 == 1] + ToBits(v / 4, 2);
    assert ToBits(v / 4, 2) == [v / 4 % 2 == 1] + ToBits(v / 8, 1);
    assert ToBits(v / 8, 1) == [v / 8 % 2 == 1];
  }

  lemma Sixteenth(v: nat)
    ensures Shr(v, 4) == v / 16 && v / 16 / 2 == v / 32 && v / 16 / 4 == v / 64 && v / 16 / 8 == v / 128
  {
    assert Shr(v, 4) == Shr(v / 2, 3) == Shr(v / 4, 2) == Shr(v / 8, 1);
  }

  lemma EightBits(v: nat)
    ensures ToBits(v, 8) ==
      [v % 2 == 1, v / 2 % 2 == 1, v / 4 % 2 == 1, v / 8 % 2 == 1,
       v / 16 % 2 == 1, v / 32 % 2 == 1, v / 64 % 2 == 1, v / 128 % 2 == 1]
  {
    hide ToBits, Shr;
    ToBitsSplit(v, 4, 4);
    Sixteenth(v);
    FourBits(v);
    FourBits(v / 16);
  }

  /** The bits of a byte come least significant first. */
  lemma {:induction false} ByteBits(data: seq<byte>, k: nat)
    requires k < |data|
    ensures var v := data[k];
      BytesToBits(data)[8 * k..8 * k + 8] ==
      [v % 2 == 1, v / 2 % 2 == 1, v / 4 % 2 == 1, v / 8 % 2 == 1,
       v / 16 % 2 == 1, v / 32 % 2 == 1, v / 64 % 2 == 1, v / 128 % 2 == 1]
    decreases k
  {
    hide ToBits;
    var bits := BytesToBits(data);
    if k == 0 {
      EightBits(data[0]);
      assert bits[..8] == ToBits(data[0], 8);
    } else {
      ByteBits(data[1..], k - 1);
      assert bits[8..] == BytesToBits(data[1..]);
      assert bits[8 * k..8 * k + 8] == bits[8..][8 * (k - 1)..8 * (k - 1) + 8];
    }
  }

  // ----- code words (sections 3.1.1 and 3.2.2) -----

  /** The number that bits are, most significant first. */
  function MsbFirst(bits: seq<bool>): nat {
    if bits == [] then 0 else 2 * MsbFirst(bits[..|bits| - 1]) + if bits[|bits| - 1] then 1 else 0
  }

  lemma {:induction false} MsbReversed(v: nat, n: nat)
    ensures MsbFirst(ToBits(Rev(v, n), n)) == Low(v, n)
    decreases n
  {
    hide Pow2;
    if n > 0 {
      MsbReversed(v / 2, n - 1);
      ReversedBits(v, n);
      var bits := ToBits(Rev(v, n), n);
      assert bits[..n - 1] == ToBits(Rev(v / 2, n - 1), n - 1);
    }
  }

  /** The last bit sent is the lowest. */
  lemma ReversedBits(v: nat, n: nat)
    requires n > 0
    ensures ToBits(Rev(v, n), n) == ToBits(Rev(v / 2, n - 1), n - 1) + [v % 2 == 1]
  {
    hide Rev, Low, Shr, ToBits;
    var r := Rev(v, n);
    RevTop(v, n - 1);
    assert n - 1 + 1 == n;
    ToBitsSplit(r, n - 1, 1);
    ToBitsLow(r, n - 1, n - 1);
    LastBit(v);
  }

  lemma LastBit(v: nat)
    ensures ToBits(v % 2, 1) == [v % 2 == 1]
  {
  }

  /** The code word of a symbol, sent from its most significant bit on, is its canonical code. */
  lemma WordIsCanon(lens: seq<nat>, s: nat)
    requires IsSymbol(lens, s) && Kraft(lens) <= Pow2(MAXBITS)
    ensures MsbFirst(CodeBits(lens, s)) == Canon(lens, s)
  {
    hide Canon, Kraft, Pow2, Rev, MsbFirst, ToBits;
    CanonFits(lens, s);
    LowSmall(Canon(lens, s), lens[s]);
    MsbReversed(Canon(lens, s), lens[s]);
  }

  /** s comes before t: it has the shorter code, or the same length and the lower number. */
  ghost predicate Sooner(lens: seq<nat>, s: nat, t: nat) {
    IsSymbol(lens, s) && IsSymbol(lens, t) && (lens[s] < lens[t] || (lens[s] == lens[t] && s < t))
  }

  /** The first code word is all zeros. */
  lemma FirstWord(lens: seq<nat>, s: nat)
    requires IsSymbol(lens, s) && Kraft(lens) <= Pow2(15) && forall u: nat :: !Sooner(lens, u, s)
    ensures MsbFirst(CodeBits(lens, s)) == 0
  {
    hide Kraft, Pow2, MsbFirst, CodeBits, Ranks.Rank;
    WordIsCanon(lens, s);
    FirstRank(lens, s);
    ZeroRank(lens, s);
  }

  lemma FirstRank(lens: seq<nat>, s: nat)
    requires IsSymbol(lens, s)
    ensures Ranks.Rank(lens, s) == 0 || exists u: nat :: Sooner(lens, u, s)
  {
    hide Ranks.Rank;
    if Ranks.Rank(lens, s) > 0 {
      RankBound(lens, s);
      var u := AtRank(lens, 0);
      RankOrder(lens, u, s);
      assert Sooner(lens, u, s);
    }
  }

  lemma ZeroRank(lens: seq<nat>, s: nat)
    requires IsSymbol(lens, s) && Ranks.Rank(lens, s) == 0
    ensures Canon(lens, s) == 0
  {
    hide Kraft, Pow2;
    NoCodesBetween(lens, 1, lens[s]);
    BelowFirstCode(lens, lens[s]);
    ShlOne(MAXBITS - lens[s]);
  }

  /** Every further code word is the one before it plus one, with zeros appended up to its length. */
  lemma NextWord(lens: seq<nat>, s: nat, t: nat)
    requires Sooner(lens, s, t) && Kraft(lens) <= Pow2(15)
    requires forall u: nat :: !(Sooner(lens, s, u) && Sooner(lens, u, t))
    ensures MsbFirst(CodeBits(lens, t)) == (MsbFirst(CodeBits(lens, s)) + 1) * Pow2(lens[t] - lens[s])
  {
    hide Kraft, Pow2, MsbFirst, CodeBits, Ranks.Rank, Canon, Shl;
    WordIsCanon(lens, s);
    WordIsCanon(lens, t);
    NextRank(lens, s, t);
    CanonNext(lens, s, t);
    ShlMul(Canon(lens, s) + 1, lens[t] - lens[s]);
  }

  lemma NextRank(lens: seq<nat>, s: nat, t: nat)
    requires Sooner(lens, s, t)
    ensures Ranks.Rank(lens, t) == Ranks.Rank(lens, s) + 1 || exists u: nat :: Sooner(lens, s, u) && Sooner(lens, u, t)
  {
    hide Ranks.Rank;
    RankOrder(lens, s, t);
    RankBound(lens, t);
    if Ranks.Rank(lens, t) > Ranks.Rank(lens, s) + 1 {
      var u := AtRank(lens, Ranks.Rank(lens, s) + 1);
      RankOrder(lens, s, u);
      RankOrder(lens, u, t);
      assert Sooner(lens, s, u) && Sooner(lens, u, t);
    }
  }

  /** A decoded symbol is the one whose code word comes next. */
  lemma DecodedWord(lens: seq<nat>, bits: seq<bool>)
    ensures var d := Decode(lens, bits);
      d.Symbol? ==> IsSymbol(lens, d.s) && lens[d.s] <= |bits| && bits[..lens[d.s]] == CodeBits(lens, d.s)
  {
    hide FromBits, ToBits, Code;
    var d := Decode(lens, bits);
    if d.Symbol? { ToFromBits(bits[..lens[d.s]]); }
  }

  // ----- blocks (section 3.2.3) -----

  lemma TwoBits(bits: seq<bool>)
    requires |bits| == 2
    ensures FromBits(bits) == (if bits[0] then 1 else 0) + if bits[1] then 2 else 0
  {
  }

  /** The second and third bit of a block say its type: 00 stored, 10 fixed codes, 01 dynamic codes, 11 an error. */
  lemma BlockType(at: nat, bits: seq<bool>, out: seq<byte>)
    requires |bits| >= 3
    ensures !bits[1] && !bits[2] ==> InflateBlock(at, bits, out) == InflateStored(at + 3, bits[3..], out)
    ensures !bits[1] && bits[2] ==> var h := ReadHeader(bits[3..]);
      && (h.HeaderBad? ==> InflateBlock(at, bits, out) == Invalid(out))
      && (h.HeaderShort? ==> InflateBlock(at, bits, out) == Incomplete(out))
      && (h.Header? ==> InflateBlock(at, bits, out) == Eval(h.c, LEN, h.rest, out))
    ensures bits[1] && bits[2] ==> InflateBlock(at, bits, out) == Invalid(out)
  {
    hide FromBits, Eval, ReadHeader, InflateStored, StaticLengths, StaticDistances;
    TwoBits(bits[1..3]);
  }

  /** The first bit of a block is set in the last block and only there. */
  lemma FinalBit(at: nat, bits: seq<bool>, out: seq<byte>)
    requires |bits| >= 3 && InflateBlock(at, bits, out).Done?
    ensures var r := InflateBlock(at, bits, out);
      && (bits[0] ==> Inflated(at, bits, out) == r)
      && |r.rest| < |bits|
      && (!bits[0] ==> Inflated(at, bits, out) == Inflated(at + (|bits| - |r.rest|), r.rest, r.out))
  {
    hide InflateBlock;
    BlockShrinks(at, bits, out);
  }

  /** A 16-bit number, lower byte first. */
  function Short(lo: int, hi: int): int { lo + 256 * hi }

  /** A stored block starts at the next byte with its length and the complement of it, lower byte first. */
  lemma StoredRead(at: nat, skip: seq<bool>, data: seq<byte>, out: seq<byte>)
    requires |skip| < 8 && (at + |skip|) % 8 == 0
    ensures |data| < 4 ==> InflateStored(at, skip + BytesToBits(data), out) == Incomplete(out)
    ensures |data| >= 4 ==> var len, nlen := Short(data[0], data[1]), Short(data[2], data[3]);
      InflateStored(at, skip + BytesToBits(data), out) ==
      if len + nlen != 65535 then Invalid(out)
      else if |data| - 4 < len then Incomplete(out + data[4..])
      else Done(out + data[4..4 + len], BytesToBits(data[4 + len..]))
  {
    hide BytesToBits, FromBits, BitsToBytes, InflateStored, Pad, Short;
    SkipIs(at, |skip|);
    var bits := skip + BytesToBits(data);
    if |data| < 4 {
      ShortStored(at, bits, out);
    } else {
      StoredFields(skip, data);
      StoredCases(at, bits, out, BytesToBits(data[4..]));
      StoredBytes(data[4..], Short(data[0], data[1]));
      if |data| - 4 >= Short(data[0], data[1]) { Rebased(data, Short(data[0], data[1])); }
    }
  }

  lemma StoredFields(skip: seq<bool>, data: seq<byte>)
    requires |data| >= 4
    ensures var bits, n := skip + BytesToBits(data), |skip|;
      && FromBits(bits[n..n + 16]) == Short(data[0], data[1])
      && FromBits(bits[n + 16..n + 32]) == Short(data[2], data[3])
      && bits[n + 32..] == BytesToBits(data[4..])
  {
    hide BytesToBits, FromBits, Short, Pow2;
    var bits, n := skip + BytesToBits(data), |skip|;
    Cut(data, 4, 32);
    Behind(skip, BytesToBits(data));
    ShortAt(data, 0, data[0], data[1], bits[n..n + 16]);
    ShortAt(data, 2, data[2], data[3], bits[n + 16..n + 32]);
  }

  lemma Behind(skip: seq<bool>, all: seq<bool>)
    requires |all| >= 32
    ensures var bits, n := skip + all, |skip|;
      bits[n..n + 16] == all[0..16] && bits[n + 16..n + 32] == all[16..32] && bits[n + 32..] == all[32..]
  {
  }

  lemma StoredBytes(body: seq<byte>, len: nat)
    ensures BitsToBytes(BytesToBits(body)) == body
    ensures len <= |body| ==> 8 * len <= |BytesToBits(body)| && BitsToBytes(BytesToBits(body)[..8 * len]) == body[..len]
    ensures len <= |body| ==> BytesToBits(body)[8 * len..] == BytesToBits(body[len..])
  {
    hide BytesToBits, BitsToBytes;
    BytesBack(body);
    if len <= |body| {
      Cut(body, len, 8 * len);
      BytesBack(body[..len]);
    }
  }

  lemma Rebased(data: seq<byte>, len: nat)
    requires 4 + len <= |data|
    ensures data[4..][..len] == data[4..4 + len] && data[4..][len..] == data[4 + len..]
  {
  }

  lemma SkipIs(at: nat, n: nat)
    requires n < 8 && (at + n) % 8 == 0
    ensures Pad(at) == n
  {
  }

  lemma Cut(data: seq<byte>, n: nat, i: nat)
    requires n <= |data| && i == 8 * n
    ensures BytesToBits(data)[..i] == BytesToBits(data[..n]) && BytesToBits(data)[i..] == BytesToBits(data[n..])
  {
    hide BytesToBits;
    var a, b := BytesToBits(data[..n]), BytesToBits(data[n..]);
    BytesToBitsConcat(data[..n], data[n..]);
    assert data[..n] + data[n..] == data;
    assert |a| == i && (a + b)[..i] == a && (a + b)[i..] == b;
  }

  lemma ShortAt(data: seq<byte>, k: nat, lo: byte, hi: byte, field: seq<bool>)
    requires k + 2 <= |data| && data[k] == lo && data[k + 1] == hi && field == BytesToBits(data)[8 * k..8 * k + 16]
    ensures FromBits(field) == Short(lo, hi)
  {
    hide FromBits, BytesToBits;
    var all, i := BytesToBits(data), 8 * k;
    Cut(data, k, i);
    Cut(data[k..], 2, 16);
    assert data[k..][..2] == [lo, hi];
    assert all[i..i + 16] == all[i..][..16];
    PairValue(lo, hi);
  }

  lemma PairValue(a: byte, b: byte)
    ensures FromBits(BytesToBits([a, b])) == Short(a, b)
  {
    hide FromBits, ToBits, Pow2, Shl, BytesToBits;
    SmallPowers();
    PowerFacts();
    ShlMul(b, 8);
    ToBitsJoin(a, 8, b, 8);
    PairBits(a, b);
    FromToBits(a + Shl(b, 8), 16);
    LowSmall(a + Shl(b, 8), 16);
  }

  lemma PairBits(a: byte, b: byte)
    ensures BytesToBits([a, b]) == ToBits(a, 8) + ToBits(b, 8)
  {
    hide ToBits;
    assert [a, b][1..] == [b] && [b][1..] == [];
  }

  lemma ShortStored(at: nat, bits: seq<bool>, out: seq<byte>)
    requires |bits| < Pad(at) + 32
    ensures InflateStored(at, bits, out) == Incomplete(out)
  {
  }

  lemma StoredCases(at: nat, bits: seq<bool>, out: seq<byte>, body: seq<bool>)
    requires var pad := Pad(at); |bits| >= pad + 32 && bits[pad + 32..] == body
    ensures var pad := Pad(at);
      var len, nlen := FromBits(bits[pad..pad + 16]), FromBits(bits[pad + 16..pad + 32]);
      InflateStored(at, bits, out) ==
      if len + nlen != 65535 then Invalid(out)
      else if |body| < 8 * len then Incomplete(out + BitsToBytes(body))
      else Done(out + BitsToBytes(body[..8 * len]), body[8 * len..])
  {
    hide FromBits, BitsToBytes, Pad;
  }

  // ----- the fixed code (section 3.2.6) -----

  /** A block of type 1 is read with these lengths: 8 for 0 to 143, 9 to 255, 7 to 279, 8 to 287; 5 for all
      distances. */
  lemma FixedRead(at: nat, bits: seq<bool>, out: seq<byte>, c: Codes)
    requires |bits| >= 3 && bits[1] && !bits[2] && |c.ll| == 288 && |c.dl| == 32
    requires forall s :: 0 <= s < 144 ==> c.ll[s] == 8
    requires forall s :: 144 <= s < 256 ==> c.ll[s] == 9
    requires forall s :: 256 <= s < 280 ==> c.ll[s] == 7
    requires forall s :: 280 <= s < 288 ==> c.ll[s] == 8
    requires forall s :: 0 <= s < 32 ==> c.dl[s] == 5
    ensures InflateBlock(at, bits, out) == Eval(c, LEN, bits[3..], out)
  {
    hide FromBits, Eval, ReadHeader, InflateStored;
    TwoBits(bits[1..3]);
    assert c.ll == StaticLengths() && c.dl == StaticDistances();
  }

  // ----- dynamic blocks (section 3.2.7) -----

  /** The lengths of the code length code come in the order 16, 17, 18, 0, 8, 7, 9, 6, 10, 5, 11, 4, 12, 3, 13, 2,
      14, 1, 15. */
  lemma OrderNumbers(k: nat)
    requires k < 19
    ensures k < 3 ==> OrderAt(k) == 16 + k
    ensures k == 3 ==> OrderAt(k) == 0
    ensures k == 4 ==> OrderAt(k) == 8
    ensures k >= 5 && k % 2 == 1 ==> OrderAt(k) == 8 - (k - 3) / 2
    ensures k >= 5 && k % 2 == 0 ==> OrderAt(k) == 8 + (k - 4) / 2
  {
  }

  /** The k-th length that is sent of n, three bits each; those that are not sent are zero. */
  ghost function SentLength(bits: seq<bool>, n: nat, k: nat): nat
    requires |bits| >= 3 * n
  {
    if k < n then FromBits(bits[3 * k..3 * k + 3]) else 0
  }

  /** The lengths as they are to be read. */
  ghost predicate InOrder(bl: seq<nat>, bits: seq<bool>, n: nat)
    requires |bits| >= 3 * n
  {
    && |bl| == 19 && (forall k: nat :: k < 3 ==> bl[16 + k] == SentLength(bits, n, k))
    && bl[0] == SentLength(bits, n, 3) && bl[8] == SentLength(bits, n, 4)
    && (forall j: nat :: 1 <= j <= 7 ==> bl[8 - j] == SentLength(bits, n, 2 * j + 3))
    && (forall j: nat :: 1 <= j <= 7 ==> bl[8 + j] == SentLength(bits, n, 2 * j + 4))
  }

  /** The header of a dynamic block: five bits for the number of literal/length codes less 257, five for that of
      distance codes less 1, four for that of code length codes less 4, then their lengths in their order. */
  lemma HeaderRead(bits: seq<bool>, bl: seq<nat>)
    requires |bits| >= 14
    ensures var nlen, ndist, n := FromBits(bits[..5]) + 257, FromBits(bits[5..10]) + 1, FromBits(bits[10..14]) + 4;
      && (nlen > 286 || ndist > 30 ==> ReadHeader(bits) == HeaderBad)
      && (nlen <= 286 && ndist <= 30 && |bits| < 14 + 3 * n ==> ReadHeader(bits) == HeaderShort)
      && (nlen <= 286 && ndist <= 30 && |bits| >= 14 + 3 * n && InOrder(bl, bits[14..], n) ==>
          ReadHeader(bits) ==
          if Refused(CODES, bl) then HeaderBad else ReadTables(bl, nlen, ndist, bits[14 + 3 * n..]))
  {
    hide FromBits, Refused, ReadTables, ReadLenLens, InOrder;
    var nlen, ndist, n := FromBits(bits[..5]) + 257, FromBits(bits[5..10]) + 1, FromBits(bits[10..14]) + 4;
    FieldBounds(bits[..5], bits[5..10], bits[10..14]);
    if nlen <= 286 && ndist <= 30 && |bits| >= 14 + 3 * n && InOrder(bl, bits[14..], n) {
      ReadInOrder(bl, bits[14..], n);
    }
  }

  lemma ReadInOrder(bl: seq<nat>, bits: seq<bool>, n: nat)
    requires n <= 19 && |bits| >= 3 * n && InOrder(bl, bits, n)
    ensures ReadLenLens(0, n, Times(0, BL_CODES), bits) == bl
  {
    hide OrderAt, ReadLenLens, InOrder, Place;
    var r := ReadLenLens(0, n, Times(0, BL_CODES), bits);
    assert |bl| == 19 by { SentAt(bl, bits, n, 0); }
    forall s: nat | s < 19 ensures r[s] == bl[s] {
      OrderPlace(s, 0);
      LenLensAt(0, n, Times(0, BL_CODES), bits, Place(s));
      SentAt(bl, bits, n, Place(s));
    }
  }

  lemma SentAt(bl: seq<nat>, bits: seq<bool>, n: nat, k: nat)
    requires |bits| >= 3 * n && InOrder(bl, bits, n) && k < 19
    ensures |bl| == 19 && bl[OrderAt(k)] == SentLength(bits, n, k)
  {
    hide OrderAt, SentLength;
    OrderNumbers(k);
    if k < 3 {
      assert bl[16 + k] == SentLength(bits, n, k);
    } else if k >= 5 && k % 2 == 1 {
      var j := (k - 3) / 2;
      assert bl[8 - j] == SentLength(bits, n, 2 * j + 3) && 2 * j + 3 == k;
    } else if k >= 5 {
      var j := (k - 4) / 2;
      assert bl[8 + j] == SentLength(bits, n, 2 * j + 4) && 2 * j + 4 == k;
    }
  }

  /** Where each length ends up. */
  lemma {:induction false} LenLensAt(i: nat, n: nat, lens: seq<nat>, bits: seq<bool>, k: nat)
    requires i <= n <= BL_CODES == |lens| && |bits| >= 3 * (n - i) && k < BL_CODES
    ensures var r := ReadLenLens(i, n, lens, bits);
      r[OrderAt(k)] == if i <= k < n then FromBits(bits[3 * (k - i)..3 * (k - i) + 3]) else lens[OrderAt(k)]
    decreases n - i
  {
    hide FromBits, OrderAt;
    if i < n {
      var lens' := lens[OrderAt(i) := FromBits(bits[..3])];
      LenLensAt(i + 1, n, lens', bits[3..], k);
      OrderPlace(0, i);
      OrderPlace(0, k);
      if i < k < n { assert bits[3..][3 * (k - i - 1)..3 * (k - i - 1) + 3] == bits[3 * (k - i)..3 * (k - i) + 3]; }
    }
  }

  /** Code length symbols: 0 to 15 are lengths; 16 repeats the last length 3 to 6 times (two bits), 17 repeats zero 3 to
      10 times (three bits), 18 repeats zero 11 to 138 times (seven bits). */
  lemma RepeatRead(bl: seq<nat>, total: nat, have: seq<nat>, bits: seq<bool>, more: seq<nat>)
    requires |bl| <= 19 && |have| < total && Decode(bl, bits).Symbol?
    ensures var s := Decode(bl, bits).s;
      var rest := bits[bl[s]..];
      && (s < 16 ==> ReadLens(bl, total, have, bits) == ReadLens(bl, total, have + [s], rest))
      && (s == 16 && |rest| >= 2 && have == [] ==> ReadLens(bl, total, have, bits) == LensBad)
      && (s == 16 && have != [] ==> Repeats(bl, total, have, bits, rest, 2, 3, have[|have| - 1], more))
      && (s == 17 ==> Repeats(bl, total, have, bits, rest, 3, 3, 0, more))
      && (s == 18 ==> Repeats(bl, total, have, bits, rest, 7, 11, 0, more))
  {
    hide FromBits, Decode, Repeats, ReadLens;
    var s := Decode(bl, bits).s;
    var rest := bits[bl[s]..];
    ReadSymbol(bl, total, have, bits);
    if s >= 16 && (s > 16 || have != []) { RepeatIs(bl, total, have, bits, s, rest, more); }
  }

  lemma ReadSymbol(bl: seq<nat>, total: nat, have: seq<nat>, bits: seq<bool>)
    requires |bl| <= 19 && |have| < total && Decode(bl, bits).Symbol?
    ensures var s := Decode(bl, bits).s;
      var rest := bits[bl[s]..];
      && (s < 16 ==> ReadLens(bl, total, have, bits) == ReadLens(bl, total, have + [s], rest))
      && (16 <= s ==> s <= 18 && ReadLens(bl, total, have, bits) == ReadRepeat(bl, total, have, s, rest))
      && (s == 16 && |rest| >= 2 && have == [] ==> ReadLens(bl, total, have, bits) == LensBad)
  {
    hide FromBits;
  }

  lemma RepeatIs(bl: seq<nat>, total: nat, have: seq<nat>, bits: seq<bool>, s: nat, rest: seq<bool>, more: seq<nat>)
    requires |bl| <= 19 && |have| < total && 16 <= s <= 18 && (s > 16 || have != [])
    requires ReadLens(bl, total, have, bits) == ReadRepeat(bl, total, have, s, rest)
    ensures Repeats(bl, total, have, bits, rest, if s == 16 then 2 else if s == 17 then 3 else 7,
      if s == 18 then 11 else 3, if s == 16 then have[|have| - 1] else 0, more)
  {
    hide FromBits, Decode, ReadLens;
    var v := if s == 16 then have[|have| - 1] else 0;
    if forall i :: 0 <= i < |more| ==> more[i] == v { assert more == Times(v, |more|); }
  }

  /** x bits more say how often beyond `base` the value is repeated; there may not be more lengths than `total`. */
  ghost predicate Repeats(bl: seq<nat>, total: nat, have: seq<nat>, bits: seq<bool>, rest: seq<bool>, x: nat, base: nat,
                          v: nat, more: seq<nat>)
    requires |bl| <= 19
  {
    && (|rest| < x ==> ReadLens(bl, total, have, bits) == LensShort)
    && (|rest| >= x && |have| + base + FromBits(rest[..x]) > total ==> ReadLens(bl, total, have, bits) == LensBad)
    && (|rest| >= x && |have| + base + FromBits(rest[..x]) <= total && |more| == base + FromBits(rest[..x]) &&
        (forall i :: 0 <= i < |more| ==> more[i] == v) ==>
          ReadLens(bl, total, have, bits) == ReadLens(bl, total, have + more, rest[x..]))
  }

  /** Each code of l bits takes 2^(15 - l) of 32768: the code space is used up, or nothing but one code of one bit is
      there, or no code at all. */
  ghost predicate Sound(lens: seq<nat>) {
    Kraft(lens) == 32768 || (Kraft(lens) < 32768 && forall s: nat :: IsSymbol(lens, s) ==> lens[s] == 1)
  }

  lemma SoundIs(ty: CodeType, lens: seq<nat>)
    requires ty != CODES
    ensures Sound(lens) <==> !Refused(ty, lens)
  {
    hide Kraft, Symbols;
    FullSpace();
    if !Refused(ty, lens) { AcceptedIsUsable(ty, lens); }
  }

  lemma FullSpace()
    ensures Pow2(MAXBITS) == 32768
  {
    assert Pow2(5) == 32;
    assert Pow2(10) == 1024;
    assert Pow2(15) == 32 * Pow2(10);
  }

  /** The lengths of both codes are taken if and only if the end of the block has a code and both codes are sound. */
  lemma CodesRead(bl: seq<nat>, bits: seq<bool>, ll: seq<nat>, dl: seq<nat>, rest: seq<bool>)
    requires |bl| == 19 && 257 <= |ll| <= 286 && 1 <= |dl| <= 30
    requires ReadLens(bl, |ll| + |dl|, [], bits) == Lens(ll + dl, rest)
    ensures ReadTables(bl, |ll|, |dl|, bits) ==
            if ll[256] > 0 && Sound(ll) && Sound(dl) then Header(Codes(ll, dl), rest) else HeaderBad
  {
    hide Sound, Refused, ReadLens;
    assert (ll + dl)[..|ll|] == ll && (ll + dl)[|ll|..] == dl;
    SoundIs(LENS, ll);
    SoundIs(DISTS, dl);
  }

  // ----- symbols (section 3.2.5) -----

  /** Symbols below 256 are bytes, 256 is the end of the block, 257 to 264 are the lengths 3 to 10, then come groups of
      four with one to five extra bits, and 285 is 258. */
  lemma LengthSymbols(s: nat)
    requires s < 288
    ensures s < 256 ==> AfterLength(s) == LIT(s)
    ensures s == 256 ==> AfterLength(s) == TYPE
    ensures 257 <= s < 265 ==> AfterLength(s) == LENEXT(s - 254, 0)
    ensures 265 <= s < 285 ==> var e, j := (s - 261) / 4, (s - 261) % 4;
      AfterLength(s) == LENEXT(3 + (4 + j) * Pow2(e), e)
    ensures s == 285 ==> AfterLength(s) == LENEXT(258, 0)
    ensures s > 285 ==> AfterLength(s) == BAD
  {
    hide Pow2;
    if 265 <= s < 285 {
      LengthGroup(s, (s - 261) / 4, (s - 261) % 4);
    }
  }

  lemma LengthGroup(s: nat, e: nat, j: nat)
    requires 265 <= s < 285 && s - 261 == 4 * e + j && j < 4
    ensures AfterLength(s) == LENEXT(3 + (4 + j) * Pow2(e), e)
  {
    hide Pow2, SymbolEntry;
    if e <= 2 { LengthGroupLow(s, e, j); } else { LengthGroupHigh(s, e, j); }
  }

  lemma LengthGroupLow(s: nat, e: nat, j: nat)
    requires 265 <= s < 273 && s - 261 == 4 * e + j && j < 4
    ensures AfterLength(s) == LENEXT(3 + (4 + j) * Pow2(e), e)
  {
    hide Pow2;
    SmallPowers();
  }

  lemma LengthGroupHigh(s: nat, e: nat, j: nat)
    requires 273 <= s < 285 && s - 261 == 4 * e + j && j < 4
    ensures AfterLength(s) == LENEXT(3 + (4 + j) * Pow2(e), e)
  {
    hide Pow2;
    SmallPowers();
  }

  /** Distance symbols 0 to 3 are the distances 1 to 4, then come pairs with one to thirteen extra bits. */
  lemma DistanceSymbols(length: nat, s: nat)
    requires s < 32
    ensures s < 4 ==> AfterDistance(length, s) == DISTEXT(length, s + 1, 0)
    ensures 4 <= s < 30 ==> var e, j := (s - 2) / 2, (s - 2) % 2;
      AfterDistance(length, s) == DISTEXT(length, 1 + (2 + j) * Pow2(e), e)
    ensures s >= 30 ==> AfterDistance(length, s) == BAD
  {
    hide Pow2;
    if 4 <= s < 30 { DistanceGroup(length, s, (s - 2) / 2, (s - 2) % 2); }
  }

  lemma DistanceGroup(length: nat, s: nat, e: nat, j: nat)
    requires 4 <= s < 30 && s - 2 == 2 * e + j && j < 2
    ensures AfterDistance(length, s) == DISTEXT(length, 1 + (2 + j) * Pow2(e), e)
  {
    hide Pow2, SymbolEntry;
    if e <= 4 {
      DistanceGroupLow(length, s, e, j);
    } else if e <= 9 {
      DistanceGroupMid(length, s, e, j);
    } else {
      DistanceGroupHigh(length, s, e, j);
    }
  }

  lemma DistanceGroupLow(length: nat, s: nat, e: nat, j: nat)
    requires 4 <= s < 12 && s - 2 == 2 * e + j && j < 2
    ensures AfterDistance(length, s) == DISTEXT(length, 1 + (2 + j) * Pow2(e), e)
  {
    hide Pow2;
    SmallPowers();
  }

  lemma DistanceGroupMid(length: nat, s: nat, e: nat, j: nat)
    requires 12 <= s < 22 && s - 2 == 2 * e + j && j < 2
    ensures AfterDistance(length, s) == DISTEXT(length, 1 + (2 + j) * Pow2(e), e)
  {
    hide Pow2;
    SmallPowers();
  }

  lemma DistanceGroupHigh(length: nat, s: nat, e: nat, j: nat)
    requires 22 <= s < 30 && s - 2 == 2 * e + j && j < 2
    ensures AfterDistance(length, s) == DISTEXT(length, 1 + (2 + j) * Pow2(e), e)
  {
    hide Pow2;
    SmallPowers();
  }

  // ----- reading the data of a block -----

  /** The shortest length and the number of extra bits of a length symbol. */
  ghost function LeastLength(s: nat): int
    requires 257 <= s <= 285
  {
    if s < 265 then s - 254 else if s == 285 then 258 else 3 + (4 + (s - 261) % 4) * Pow2((s - 261) / 4)
  }

  function LengthExtra(s: nat): nat
    requires 257 <= s <= 285
  {
    if s < 265 || s == 285 then 0 else (s - 261) / 4
  }

  /** The nearest distance and the number of extra bits of a distance symbol. */
  ghost function LeastDistance(s: nat): int
    requires s < 30
  {
    if s < 4 then s + 1 else 1 + (2 + (s - 2) % 2) * Pow2((s - 2) / 2)
  }

  function DistanceExtra(s: nat): nat
    requires s < 30
  {
    if s < 4 then 0 else (s - 2) / 2
  }

  lemma {:induction false} CopyIs(out: seq<byte>, more: seq<byte>, dist: nat)
    requires 1 <= dist <= |out| && forall i :: |out| <= i < |out + more| ==> (out + more)[i] == (out + more)[i - dist]
    ensures Copy(out, |more|, dist) == out + more
    decreases |more|
  {
    if more == [] {
      assert out + more == out;
    } else {
      assert (out + more)[|out|] == more[0] && (out + more)[|out| - dist] == out[|out| - dist];
      assert out + [more[0]] + more[1..] == out + more;
      CopyIs(out + [more[0]], more[1..], dist);
    }
  }

  /** A byte, the end of the block, or a symbol that stands for nothing. */
  lemma PlainRead(c: Codes, bits: seq<bool>, out: seq<byte>)
    requires ValidCodes(c) && Decode(c.ll, bits).Symbol?
    ensures var s := Decode(c.ll, bits).s;
      var rest := bits[c.ll[s]..];
      && (s < 256 ==> Eval(c, LEN, bits, out) == Eval(c, LEN, rest, out + [s]))
      && (s == 256 ==> Eval(c, LEN, bits, out) == Done(out, rest))
      && (s > 285 ==> Eval(c, LEN, bits, out) == Invalid(out))
  {
    hide Decode, AfterLength, AfterDistance;
    var s := Decode(c.ll, bits).s;
    LengthSymbols(s);
    LenRead(c, bits, out);
  }

  lemma LenRead(c: Codes, bits: seq<bool>, out: seq<byte>)
    requires ValidCodes(c) && Decode(c.ll, bits).Symbol?
    ensures var s := Decode(c.ll, bits).s;
      InAlphabet(LENS, s + 1) && Eval(c, LEN, bits, out) == Eval(c, AfterLength(s), bits[c.ll[s]..], out)
  {
    hide Decode, AfterLength, AfterDistance;
  }

  lemma DistRead(c: Codes, length: nat, bits: seq<bool>, out: seq<byte>)
    requires ValidCodes(c) && Decode(c.dl, bits).Symbol?
    ensures var s := Decode(c.dl, bits).s;
      InAlphabet(DISTS, s + 1) &&
        Eval(c, DIST(length), bits, out) == Eval(c, AfterDistance(length, s), bits[c.dl[s]..], out)
  {
    hide Decode, AfterLength, AfterDistance;
  }

  /** A length symbol: its extra bits are added to its shortest length. */
  lemma LengthRead(c: Codes, bits: seq<bool>, out: seq<byte>)
    requires ValidCodes(c) && Decode(c.ll, bits).Symbol? && 257 <= Decode(c.ll, bits).s <= 285
    ensures var s := Decode(c.ll, bits).s;
      var rest, x := bits[c.ll[s]..], LengthExtra(s);
      && (|rest| < x ==> Eval(c, LEN, bits, out) == Incomplete(out))
      && LeastLength(s) >= 3
      && (|rest| >= x ==>
          Eval(c, LEN, bits, out) == Eval(c, DIST(LeastLength(s) + FromBits(rest[..x])), rest[x..], out))
  {
    hide Decode, AfterLength, AfterDistance, FromBits, Pow2;
    LengthSymbols(Decode(c.ll, bits).s);
    LenRead(c, bits, out);
  }

  /** A distance symbol: its extra bits are added to its nearest distance, and the match is copied from that far
      back. */
  lemma DistanceRead(c: Codes, length: nat, bits: seq<bool>, out: seq<byte>, more: seq<byte>)
    requires ValidCodes(c) && Decode(c.dl, bits).Symbol?
    ensures var s := Decode(c.dl, bits).s;
      var rest := bits[c.dl[s]..];
      && (s >= 30 ==> Eval(c, DIST(length), bits, out) == Invalid(out))
      && (s < 30 && |rest| < DistanceExtra(s) ==> Eval(c, DIST(length), bits, out) == Incomplete(out))
      && (s < 30 && |rest| >= DistanceExtra(s) ==>
          var x, r := DistanceExtra(s), Eval(c, DIST(length), bits, out);
          Copied(c, length, LeastDistance(s) + FromBits(rest[..x]), r, rest[x..], out, more))
  {
    hide Decode, AfterLength, AfterDistance, FromBits, Pow2, Copied;
    var s := Decode(c.dl, bits).s;
    var rest := bits[c.dl[s]..];
    DistRead(c, length, bits, out);
    DistanceSymbols(length, s);
    if s < 30 && |rest| >= DistanceExtra(s) {
      var x := DistanceExtra(s);
      MatchCopied(c, length, LeastDistance(s) + FromBits(rest[..x]), rest[x..], out, more);
    }
  }

  /** The result is invalid if there are not so many bytes yet; otherwise reading goes on behind `length` bytes that
      each equal the one `dist` before. */
  ghost predicate Copied(c: Codes, length: nat, dist: int, result: Outcome, rest: seq<bool>, out: seq<byte>,
                         more: seq<byte>)
    requires ValidCodes(c)
  {
    && dist >= 1 && (dist > |out| ==> result == Invalid(out))
    && (dist <= |out| && |more| == length &&
        (forall i :: |out| <= i < |out + more| ==> (out + more)[i] == (out + more)[i - dist]) ==>
          result == Eval(c, LEN, rest, out + more))
  }

  lemma MatchCopied(c: Codes, length: nat, dist: int, rest: seq<bool>, out: seq<byte>, more: seq<byte>)
    requires ValidCodes(c) && dist >= 1
    ensures Copied(c, length, dist, Eval(c, MATCH(length, dist), rest, out), rest, out, more)
  {
    hide Decode, AfterLength, AfterDistance, FromBits;
    if dist <= |out| && |more| == length &&
      (forall i :: |out| <= i < |out + more| ==> (out + more)[i] == (out + more)[i - dist]) {
      CopyIs(out, more, dist);
    }
  }
}
