/** The three kinds of block (section 3.2.3 of RFC 1951) as inflate() of zlib/inflate.c reads them, and
    the bits that _tr_stored_block() and _tr_flush_block() of zlib/trees.c send for them. */
module BlockTypes {
  import opened Bits
  import opened Huffman
  import opened Sums
  import opened BitLengths
  import opened InflateSpec
  import opened BitWriter
  import opened Block
  import opened BlockCost
  import opened Header

  // ----- decoding -----

  ghost function BitsToBytes(bits: seq<bool>): seq<byte> {
    if |bits| < 8 then [] else ByteOf(bits[..8]); [FromBits(bits[..8])] + BitsToBytes(bits[8..])
  }

  lemma ByteOf(bits: seq<bool>)
    requires |bits| == 8
    ensures FromBits(bits) < 256
  {
    hide Pow2, FromBits;
    SmallPowers();
  }

  /** STORED and COPY, `at` bits into the stream. */
  ghost function InflateStored(at: nat, bits: seq<bool>, out: seq<byte>): Outcome {
    var pad := Pad(at);
    if |bits| < pad + 32 then Incomplete(out)
    else
      var len, nlen, body := FromBits(bits[pad..pad + 16]), FromBits(bits[pad + 16..pad + 32]), bits[pad + 32..];
      if len + nlen != 65535 then Invalid(out)
      else if |body| < 8 * len then Incomplete(out + BitsToBytes(body))
      else Done(out + BitsToBytes(body[..8 * len]), body[8 * len..])
  }

  /** TYPEDO: one block, `at` bits into the stream; its first bit says whether it is the last. */
  ghost function InflateBlock(at: nat, bits: seq<bool>, out: seq<byte>): Outcome {
    if |bits| < 3 then Incomplete(out)
    else
      var kind, body := FromBits(bits[1..3]), bits[3..];
      if kind == 0 then InflateStored(at + 3, body, out)
      else if kind == 1 then Eval(Fixed(), LEN, body, out)
      else if kind == 2 then
        match ReadHeader(body)
        case HeaderBad => Invalid(out)
        case HeaderShort => Incomplete(out)
        case Header(c, rest) => Eval(c, LEN, rest, out)
      else Invalid(out)
  }

  // ----- what is sent -----

  ghost function TypeBits(kind: nat, last: bool): (r: seq<bool>)
    requires kind <= 2
    ensures |r| == 3
  {
    ToBits(2 * kind + (if last then 1 else 0), 3)
  }

  lemma TypeRoundTrip(kind: nat, last: bool, rest: seq<bool>)
    requires kind <= 2
    ensures var bits := TypeBits(kind, last) + rest;
      bits[0] == last && FromBits(bits[1..3]) == kind && bits[3..] == rest
  {
    hide ToBits, FromBits, Pow2;
    SmallPowers();
    var v := 2 * kind + if last then 1 else 0;
    var bits := TypeBits(kind, last) + rest;
    assert ToBits(v, 3) == [last] + ToBits(kind, 2) by { TypeSplit(v, kind, last); }
    ReadValue(kind, 2, rest);
    assert bits[1..3] == (ToBits(kind, 2) + rest)[..2];
  }

  lemma TypeSplit(v: nat, kind: nat, last: bool)
    requires v == 2 * kind + if last then 1 else 0
    ensures ToBits(v, 3) == [last] + ToBits(kind, 2)
  {
  }

  /** A stored block, `at` bits into the stream. */
  ghost function StoredBits(at: nat, last: bool, data: seq<byte>): seq<bool>
    requires |data| <= 65535
  {
    TypeBits(0, last) + (ToBits(0, Pad(at + 3)) + (ToBits(|data|, 16) +
      (ToBits(65535 - |data|, 16) + BytesToBits(data))))
  }

  lemma {:induction false} BytesBack(data: seq<byte>)
    ensures BitsToBytes(BytesToBits(data)) == data
  {
    hide ToBits, FromBits;
    if data != [] {
      var bits := BytesToBits(data);
      SmallPowers();
      ReadValue(data[0], 8, BytesToBits(data[1..]));
      BytesBack(data[1..]);
    }
  }

  /** Two 16-bit numbers after some padding. */
  lemma TwoShorts(zeros: seq<bool>, x: nat, y: nat, tail: seq<bool>)
    requires x <= 65535 && y <= 65535
    ensures var bits, pad := zeros + (ToBits(x, 16) + (ToBits(y, 16) + tail)), |zeros|;
      && |bits| >= pad + 32 && FromBits(bits[pad..pad + 16]) == x && FromBits(bits[pad + 16..pad + 32]) == y
      && bits[pad + 32..] == tail
  {
    hide ToBits, FromBits, Pow2;
    var a, b, pad := ToBits(x, 16), ToBits(y, 16), |zeros|;
    var bits := zeros + (a + (b + tail));
    PowerFacts();
    ReadValue(x, 16, b + tail);
    ReadValue(y, 16, tail);
    assert bits[pad..pad + 16] == (a + (b + tail))[..16];
    assert bits[pad + 16..pad + 32] == (b + tail)[..16];
    assert bits[pad + 32..] == tail;
  }

  lemma StoredBody(at: nat, data: seq<byte>, rest: seq<bool>, out: seq<byte>)
    requires |data| <= 65535
    ensures var bits := ToBits(0, Pad(at)) + (ToBits(|data|, 16) +
      (ToBits(65535 - |data|, 16) + (BytesToBits(data) + rest)));
      InflateStored(at, bits, out) == Done(out + data, rest)
  {
    hide ToBits, FromBits, BytesToBits, BitsToBytes, InflateStored, Pad;
    var tail := BytesToBits(data) + rest;
    var bits := ToBits(0, Pad(at)) + (ToBits(|data|, 16) + (ToBits(65535 - |data|, 16) + tail));
    TwoShorts(ToBits(0, Pad(at)), |data|, 65535 - |data|, tail);
    StoredCase(at, bits, out, BytesToBits(data), rest);
    BytesBack(data);
  }

  /** The checks of the STORED state all pass. */
  lemma StoredCase(at: nat, bits: seq<bool>, out: seq<byte>, body: seq<bool>, rest: seq<bool>)
    requires var pad := Pad(at); |bits| >= pad + 32 && bits[pad + 32..] == body + rest
    requires var pad := Pad(at); |body| == 8 * FromBits(bits[pad..pad + 16])
    requires var pad := Pad(at); FromBits(bits[pad..pad + 16]) + FromBits(bits[pad + 16..pad + 32]) == 65535
    ensures InflateStored(at, bits, out) == Done(out + BitsToBytes(body), rest)
  {
    hide FromBits, BitsToBytes, Pad;
    assert (body + rest)[..|body|] == body && (body + rest)[|body|..] == rest;
  }

  lemma StoredRoundTrip(at: nat, last: bool, data: seq<byte>, rest: seq<bool>, out: seq<byte>)
    requires |data| <= 65535
    ensures InflateBlock(at, StoredBits(at, last, data) + rest, out) == Done(out + data, rest)
  {
    hide ToBits, FromBits, Pow2, BytesToBits, InflateStored, TypeBits, Pad;
    var body := ToBits(0, Pad(at + 3)) + (ToBits(|data|, 16) +
      (ToBits(65535 - |data|, 16) + (BytesToBits(data) + rest)));
    assert StoredBits(at, last, data) + rest == TypeBits(0, last) + body;
    TypeRoundTrip(0, last, body);
    StoredBody(at + 3, data, rest, out);
  }

  // ----- the fixed code is complete -----

  function StaticCount(n: nat, l: nat): nat {
    if l == 7 then (if n <= 256 then 0 else if n <= 280 then n - 256 else 24)
    else if l == 8 then (if n <= 144 then n else if n <= 280 then 144 else 144 + (n - 280))
    else if l == 9 then (if n <= 144 then 0 else if n <= 256 then n - 144 else 112)
    else 0
  }

  lemma {:induction false} CountStatic(n: nat, l: nat)
    requires n <= 288
    ensures Count(StaticLengths(), n, l) == StaticCount(n, l)
    decreases n
  {
    if n > 0 { CountStatic(n - 1, l); }
  }

  lemma {:induction false} CountFives(n: nat, l: nat)
    requires n <= 32
    ensures Count(StaticDistances(), n, l) == if l == 5 then n else 0
    decreases n
  {
    if n > 0 { CountFives(n - 1, l); }
  }

  ghost function Spread(a: nat, l: nat, b: nat, m: nat, c: nat, k: nat): (r: seq<nat>)
    requires l < m < k <= MAXBITS
    ensures |r| == MAXBITS + 1
    ensures forall i :: 0 <= i <= MAXBITS ==> r[i] == if i == l then a else if i == m then b else if i == k then c
      else 0
  {
    seq(MAXBITS + 1, i => if i == l then a else if i == m then b else if i == k then c else 0)
  }

  lemma FixedComplete()
    ensures Kraft(StaticLengths()) == Pow2(MAXBITS) && Kraft(StaticDistances()) == Pow2(MAXBITS)
  {
    hide Count, StaticLengths, StaticDistances, Pow2, Kraft;
    SmallPowers();
    var a := Spread(24, 7, 152, 8, 112, 9);
    forall l | 0 <= l <= MAXBITS ensures a[l] == BlCount(StaticLengths(), l) { CountStatic(288, l); }
    WidthsEmpty(a, 6);
    assert Widths(a, 7) == 24 && Widths(a, 8) == 200 && Widths(a, 9) == 512;
    WholeKraft(a, StaticLengths(), 9);
    var b := Spread(32, 5, 0, 6, 0, 7);
    forall l | 0 <= l <= MAXBITS ensures b[l] == BlCount(StaticDistances(), l) { CountFives(32, l); }
    WidthsEmpty(b, 4);
    WholeKraft(b, StaticDistances(), 5);
  }

  // ----- coded blocks -----

  ghost function FixedBits(last: bool, t: Maps, syms: seq<Sym>): seq<bool>
    requires AllCoded(Fixed(), t, syms) && IsSymbol(Fixed().ll, END_BLOCK)
  {
    TypeBits(1, last) + BlockBits(Fixed(), t, syms)
  }

  lemma FixedRoundTrip(at: nat, last: bool, t: Maps, syms: seq<Sym>, rest: seq<bool>, out: seq<byte>)
    requires AllCoded(Fixed(), t, syms) && IsSymbol(Fixed().ll, END_BLOCK) && SymsOk(out, syms)
    ensures InflateBlock(at, FixedBits(last, t, syms) + rest, out) == Done(Expand(out, syms), rest)
  {
    hide Pow2, TypeBits, BlockBits, Kraft, AllCoded, SymsOk, Expand, FromBits, Eval, IsSymbol, StaticLengths,
         StaticDistances;
    var body := BlockBits(Fixed(), t, syms);
    assert FixedBits(last, t, syms) + rest == TypeBits(1, last) + (body + rest);
    TypeRoundTrip(1, last, body + rest);
    FixedComplete();
    BlockRoundTrip(Fixed(), t, syms, rest, out);
  }

  ghost function DynamicBits(last: bool, bl: seq<nat>, n: nat, c: Codes, t: Maps, syms: seq<Sym>): seq<bool>
    requires Headed(bl, n, c.ll, c.dl) && AllCoded(c, t, syms) && IsSymbol(c.ll, END_BLOCK)
  {
    TypeBits(2, last) + (HeaderBits(bl, n, c.ll, c.dl) + BlockBits(c, t, syms))
  }

  /** All three code sets of a dynamic block are complete and the header carries them. */
  ghost predicate Sendable(bl: seq<nat>, n: nat, c: Codes) {
    && Headed(bl, n, c.ll, c.dl) && Ranked(bl, n) == bl && IsSymbol(c.ll, END_BLOCK)
    && Kraft(bl) == Pow2(MAXBITS) && Kraft(c.ll) == Pow2(MAXBITS) && Kraft(c.dl) == Pow2(MAXBITS)
  }

  lemma DynamicRoundTrip(at: nat, last: bool, bl: seq<nat>, n: nat, c: Codes, t: Maps, syms: seq<Sym>, rest: seq<bool>,
                         out: seq<byte>)
    requires Sendable(bl, n, c) && AllCoded(c, t, syms) && SymsOk(out, syms)
    ensures InflateBlock(at, DynamicBits(last, bl, n, c, t, syms) + rest, out) == Done(Expand(out, syms), rest)
  {
    hide Pow2, TypeBits, HeaderBits, BlockBits, Kraft, AllCoded, SymsOk, Expand, FromBits, ReadHeader, Eval, Ranked;
    var h, body := HeaderBits(bl, n, c.ll, c.dl), BlockBits(c, t, syms);
    assert DynamicBits(last, bl, n, c, t, syms) + rest == TypeBits(2, last) + (h + (body + rest));
    TypeRoundTrip(2, last, h + (body + rest));
    HeaderRoundTrip(bl, n, c.ll, c.dl, body + rest);
    BlockRoundTrip(c, t, syms, rest, out);
  }
}
