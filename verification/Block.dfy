/** compress_block() of zlib/trees.c: the tallied literals and matches of a block as code words.
    The decoder's specification gives back exactly the LZ77 expansion of what was tallied. */
module Block {
  import opened Bits
  import opened Huffman
  import opened DecodeTable
  import opened InflateTable
  import opened InflateSpec
  import opened BitReader
  import opened BitWriter
  import opened StaticTables

  /** An entry of sym_buf: a literal, or a match of length lc + 3 at a distance. */
  datatype Sym = Lit(b: byte) | Pair(dist: nat, lc: nat)

  const END_BLOCK: nat := 256
  const LITERALS: nat := 256

  /** The tables of tr_static_init(). */
  datatype Maps = Maps(lengthCode: seq<nat>, baseLength: seq<nat>, distCode: seq<nat>, baseDist: seq<nat>)

  ghost predicate MapsOk(t: Maps) {
    LengthTables(t.lengthCode, t.baseLength) && DistTables(t.distCode, t.baseDist)
  }

  /** A match within the format's limits that does not reach before the output so far. */
  predicate SymOk(sym: Sym, have: nat) {
    sym.Pair? ==> 1 <= sym.dist <= have && sym.dist <= 32768 && sym.lc <= 255
  }

  function ExpandSym(out: seq<byte>, sym: Sym): (r: seq<byte>)
    requires SymOk(sym, |out|)
    ensures out <= r
  {
    match sym
    case Lit(b) => out + [b]
    case Pair(dist, lc) => Copy(out, lc + 3, dist)
  }

  ghost predicate SymsOk(out: seq<byte>, syms: seq<Sym>)
    decreases |syms|
  {
    syms == [] || (SymOk(syms[0], |out|) && SymsOk(ExpandSym(out, syms[0]), syms[1..]))
  }

  /** LZ77 expansion: what a decoder must produce for the tallied symbols. */
  ghost function Expand(out: seq<byte>, syms: seq<Sym>): seq<byte>
    requires SymsOk(out, syms)
    decreases |syms|
  {
    if syms == [] then out else Expand(ExpandSym(out, syms[0]), syms[1..])
  }

  /** The length symbol and the distance symbol of a match. */
  function LengthSym(t: Maps, lc: nat): nat
    requires |t.lengthCode| == 256 && lc <= 255
  {
    t.lengthCode[lc] + LITERALS + 1
  }

  /** Every symbol the entry needs has a code. */
  ghost predicate HasCodes(c: Codes, t: Maps, sym: Sym) {
    match sym
    case Lit(b) => IsSymbol(c.ll, b)
    case Pair(dist, lc) =>
      && MapsOk(t) && 1 <= dist <= 32768 && lc <= 255
      && IsSymbol(c.ll, LengthSym(t, lc)) && IsSymbol(c.dl, DCode(t.distCode, dist - 1))
  }

  ghost predicate AllCoded(c: Codes, t: Maps, syms: seq<Sym>) {
    forall i :: 0 <= i < |syms| ==> HasCodes(c, t, syms[i])
  }

  /** send_code */
  ghost function CodeBits(lens: seq<nat>, s: nat): (r: seq<bool>)
    requires s < |lens|
    ensures |r| == lens[s]
  {
    ToBits(Code(lens, s), lens[s])
  }

  ghost function SymBits(c: Codes, t: Maps, sym: Sym): seq<bool>
    requires HasCodes(c, t, sym)
  {
    match sym
    case Lit(b) => CodeBits(c.ll, b)
    case Pair(dist, lc) => LengthBits(c, t, lc) + DistBits(c, t, dist - 1)
  }

  ghost function LengthBits(c: Codes, t: Maps, lc: nat): seq<bool>
    requires MapsOk(t) && lc <= 255 && IsSymbol(c.ll, LengthSym(t, lc))
  {
    var k := t.lengthCode[lc];
    CodeBits(c.ll, LengthSym(t, lc)) + (if ExtraL(k) == 0 then [] else ToBits(lc - t.baseLength[k], ExtraL(k)))
  }

  ghost function DistBits(c: Codes, t: Maps, d: nat): seq<bool>
    requires MapsOk(t) && d < 32768 && IsSymbol(c.dl, DCode(t.distCode, d))
  {
    var k := DCode(t.distCode, d);
    CodeBits(c.dl, k) + (if ExtraD(k) == 0 then [] else ToBits(d - t.baseDist[k], ExtraD(k)))
  }

  ghost function BlockBits(c: Codes, t: Maps, syms: seq<Sym>): seq<bool>
    requires AllCoded(c, t, syms) && IsSymbol(c.ll, END_BLOCK)
  {
    if syms == [] then CodeBits(c.ll, END_BLOCK) else SymBits(c, t, syms[0]) + BlockBits(c, t, syms[1..])
  }

  // ----- decoding what was sent -----

  ghost predicate Decodable(lens: seq<nat>) { Kraft(lens) <= Pow2(MAXBITS) }

  /** A code word at the start of a stream decodes to its symbol. */
  lemma DecodeCode(lens: seq<nat>, s: nat, rest: seq<bool>)
    requires IsSymbol(lens, s) && Decodable(lens)
    ensures Decode(lens, CodeBits(lens, s) + rest) == Symbol(s)
  {
    hide Kraft, Pow2, Low, FromBits, ToBits, Code;
    var bits := CodeBits(lens, s) + rest;
    var c, n := Code(lens, s), lens[s];
    assert bits[..n] == CodeBits(lens, s);
    FromToBits(c, n);
    LowSmall(c, n);
    assert HasPrefix(lens, s, bits);
    PrefixUnique(lens, s, Decode(lens, bits).s, bits);
  }

  /** Extra bits at the start of a stream read back as the value sent. */
  lemma ReadValue(v: nat, n: nat, rest: seq<bool>)
    requires v < Pow2(n)
    ensures var bits := ToBits(v, n) + rest; n <= |bits| && FromBits(bits[..n]) == v && bits[n..] == rest
  {
    hide Pow2, Low, FromBits, ToBits;
    var bits := ToBits(v, n) + rest;
    assert bits[..n] == ToBits(v, n);
    FromToBits(v, n);
    LowSmall(v, n);
  }

  lemma ReadNothing(rest: seq<bool>)
    ensures FromBits(rest[..0]) == 0 && rest[0..] == rest && [] + rest == rest
  {
  }

  lemma ModeOfLiteral(b: byte)
    ensures AfterLength(b) == LIT(b) && AfterLength(END_BLOCK) == TYPE
  {
  }

  lemma ModeOfLength(k: nat)
    requires k < LENGTH_CODES
    ensures InAlphabet(LENS, k + 258) && AfterLength(k + 257) == LENEXT(BaseL(k), ExtraL(k))
  {
    hide ExtraL, BaseL;
    LengthStep(k);
    LengthIs(k);
  }

  lemma LengthIs(k: nat)
    requires k < LENGTH_CODES
    ensures SymbolEntry(LENS, k + 257, 0) == Entry(LEXT[k], 0, BaseL(k))
  {
  }

  lemma ModeOfDist(length: nat, k: nat)
    requires k < D_CODES
    ensures InAlphabet(DISTS, k + 1) && AfterDistance(length, k) == DISTEXT(length, BaseD(k), ExtraD(k))
  {
    hide ExtraD, BaseD;
    DistStep(k);
    DistIs(k);
  }

  lemma DistIs(k: nat)
    requires k < D_CODES
    ensures SymbolEntry(DISTS, k, 0) == Entry(DEXT[k], 0, BaseD(k))
  {
  }

  /** Skipping the code word of the symbol just decoded. */
  lemma SkipCode(lens: seq<nat>, s: nat, rest: seq<bool>)
    requires s < |lens|
    ensures (CodeBits(lens, s) + rest)[lens[s]..] == rest
  {
    hide CodeBits;
  }

  lemma EvalLit(c: Codes, b: byte, rest: seq<bool>, out: seq<byte>)
    requires ValidCodes(c) && Decodable(c.ll) && IsSymbol(c.ll, b)
    ensures Eval(c, LEN, CodeBits(c.ll, b) + rest, out) == Eval(c, LEN, rest, out + [b])
  {
    hide CodeBits, Decodable, AfterLength, Decode;
    DecodeCode(c.ll, b, rest);
    SkipCode(c.ll, b, rest);
    ModeOfLiteral(b);
  }

  lemma EvalEnd(c: Codes, rest: seq<bool>, out: seq<byte>)
    requires ValidCodes(c) && Decodable(c.ll) && IsSymbol(c.ll, END_BLOCK)
    ensures Eval(c, LEN, CodeBits(c.ll, END_BLOCK) + rest, out) == Done(out, rest)
  {
    hide CodeBits, Decodable, AfterLength, Decode;
    DecodeCode(c.ll, END_BLOCK, rest);
    SkipCode(c.ll, END_BLOCK, rest);
    ModeOfLiteral(0);
  }

  lemma EvalExtra(c: Codes, m: Mode, x: nat, rest: seq<bool>, out: seq<byte>)
    requires ValidCodes(c) && (m.LENEXT? || m.DISTEXT?) && (m.extra == 0 ==> x == 0) && x < Pow2(m.extra)
    ensures var bits := (if m.extra == 0 then [] else ToBits(x, m.extra)) + rest;
      Eval(c, m, bits, out)
      == Eval(c, if m.LENEXT? then DIST(m.length + x) else MATCH(m.length, m.offset + x), rest, out)
  {
    hide ToBits, FromBits, Pow2, Decode, AfterLength, AfterDistance, Copy;
    if m.extra == 0 { ReadNothing(rest); } else { ReadValue(x, m.extra, rest); }
  }

  lemma EvalLength(c: Codes, t: Maps, lc: nat, rest: seq<bool>, out: seq<byte>)
    requires ValidCodes(c) && Decodable(c.ll) && MapsOk(t) && lc <= 255 && IsSymbol(c.ll, LengthSym(t, lc))
    ensures Eval(c, LEN, LengthBits(c, t, lc) + rest, out) == Eval(c, DIST(lc + 3), rest, out)
  {
    hide CodeBits, Decodable, AfterLength, Decode, ToBits, DistTables, Pow2, ExtraL, BaseL;
    var k, s := t.lengthCode[lc], LengthSym(t, lc);
    var x := if ExtraL(k) == 0 then 0 else lc - t.baseLength[k];
    var extra := if ExtraL(k) == 0 then [] else ToBits(lc - t.baseLength[k], ExtraL(k));
    assert LengthBits(c, t, lc) + rest == CodeBits(c.ll, s) + (extra + rest);
    DecodeCode(c.ll, s, extra + rest);
    SkipCode(c.ll, s, extra + rest);
    ModeOfLength(k);
    EvalExtra(c, AfterLength(s), x, rest, out);
  }

  lemma EvalDist(c: Codes, t: Maps, length: nat, d: nat, rest: seq<bool>, out: seq<byte>)
    requires ValidCodes(c) && Decodable(c.dl) && MapsOk(t) && d < 32768 && IsSymbol(c.dl, DCode(t.distCode, d))
    ensures Eval(c, DIST(length), DistBits(c, t, d) + rest, out) == Eval(c, MATCH(length, d + 1), rest, out)
  {
    hide CodeBits, Decodable, AfterDistance, Decode, ToBits, LengthTables, Pow2, ExtraD, BaseD, DCode;
    var k := DCode(t.distCode, d);
    assert Pow2(0) == 1 by { SmallPowers(); }
    var x := d - t.baseDist[k];
    var extra := if ExtraD(k) == 0 then [] else ToBits(x, ExtraD(k));
    assert DistBits(c, t, d) + rest == CodeBits(c.dl, k) + (extra + rest);
    DecodeCode(c.dl, k, extra + rest);
    SkipCode(c.dl, k, extra + rest);
    ModeOfDist(length, k);
    EvalExtra(c, AfterDistance(length, k), x, rest, out);
  }

  lemma EvalCopy(c: Codes, length: nat, offset: nat, rest: seq<bool>, out: seq<byte>)
    requires ValidCodes(c) && 1 <= offset <= |out|
    ensures Eval(c, MATCH(length, offset), rest, out) == Eval(c, LEN, rest, Copy(out, length, offset))
  {
    hide Copy, Decode, AfterLength, AfterDistance;
  }

  lemma EvalSym(c: Codes, t: Maps, sym: Sym, rest: seq<bool>, out: seq<byte>)
    requires ValidCodes(c) && Decodable(c.ll) && Decodable(c.dl) && HasCodes(c, t, sym) && SymOk(sym, |out|)
    ensures Eval(c, LEN, SymBits(c, t, sym) + rest, out) == Eval(c, LEN, rest, ExpandSym(out, sym))
  {
    hide CodeBits, Decodable, LengthBits, DistBits, Copy, MapsOk, Eval;
    match sym
    case Lit(b) => EvalLit(c, b, rest, out);
    case Pair(dist, lc) =>
      var a, b := LengthBits(c, t, lc), DistBits(c, t, dist - 1);
      assert (a + b) + rest == a + (b + rest);
      EvalLength(c, t, lc, b + rest, out);
      EvalDist(c, t, lc + 3, dist - 1, rest, out);
      EvalCopy(c, lc + 3, dist, rest, out);
  }

  /** Round trip of a block: decoding the code words gives the LZ77 expansion of what was tallied,
      stops at the end of block, and leaves the rest of the stream untouched. */
  lemma {:induction false} BlockRoundTrip(c: Codes, t: Maps, syms: seq<Sym>, rest: seq<bool>, out: seq<byte>)
    requires ValidCodes(c) && Decodable(c.ll) && Decodable(c.dl)
    requires AllCoded(c, t, syms) && IsSymbol(c.ll, END_BLOCK) && SymsOk(out, syms)
    ensures Eval(c, LEN, BlockBits(c, t, syms) + rest, out) == Done(Expand(out, syms), rest)
    decreases |syms|
  {
    hide CodeBits, Decodable, SymBits, ExpandSym, HasCodes, Eval;
    if syms == [] {
      EvalEnd(c, rest, out);
    } else {
      var a, b := SymBits(c, t, syms[0]), BlockBits(c, t, syms[1..]);
      assert (a + b) + rest == a + (b + rest);
      EvalSym(c, t, syms[0], b + rest, out);
      BlockRoundTrip(c, t, syms[1..], rest, ExpandSym(out, syms[0]));
    }
  }

  // ----- sending the block -----

  /** The trees hold the code words of the lengths. */
  ghost predicate TreesOk(c: Codes, ltree: seq<Ct>, dtree: seq<Ct>) {
    && Coded(ltree, c.ll) && Coded(dtree, c.dl) && ValidLengths(c.ll) && ValidLengths(c.dl)
  }

  method SendCode(w: Writer, tree: seq<Ct>, s: nat, ghost lens: seq<nat>)
    requires w.Valid() && Coded(tree, lens) && IsSymbol(lens, s)
    modifies w
    ensures w.Valid() && w.Sent() == old(w.Sent()) + CodeBits(lens, s)
  {
    hide ToBits, Code, BytesToBits;
    w.SendBits(tree[s].code, tree[s].len);
  }

  method SendLength(w: Writer, t: Maps, ltree: seq<Ct>, lc: nat, ghost c: Codes)
    requires w.Valid() && Coded(ltree, c.ll) && MapsOk(t) && lc <= 255 && IsSymbol(c.ll, LengthSym(t, lc))
    modifies w
    ensures w.Valid() && w.Sent() == old(w.Sent()) + LengthBits(c, t, lc)
  {
    hide ToBits, CodeBits, BytesToBits, Pow2, ExtraL, BaseL, DistTables;
    var code := t.lengthCode[lc];
    ghost var sent := w.Sent();
    SendCode(w, ltree, code + LITERALS + 1, c.ll);
    LengthStep(code);
    var extra := ExtraL(code);
    if extra != 0 {
      w.SendBits(lc - t.baseLength[code], extra);
      Append(sent, CodeBits(c.ll, LengthSym(t, lc)), ToBits(lc - t.baseLength[code], extra));
    } else {
      assert CodeBits(c.ll, LengthSym(t, lc)) + [] == CodeBits(c.ll, LengthSym(t, lc));
    }
  }

  method SendDist(w: Writer, t: Maps, dtree: seq<Ct>, d: nat, ghost c: Codes)
    requires w.Valid() && Coded(dtree, c.dl) && MapsOk(t) && d < 32768 && IsSymbol(c.dl, DCode(t.distCode, d))
    modifies w
    ensures w.Valid() && w.Sent() == old(w.Sent()) + DistBits(c, t, d)
  {
    hide ToBits, CodeBits, BytesToBits, Pow2, ExtraD, BaseD, LengthTables, DCode;
    var code := DCode(t.distCode, d);
    ghost var sent := w.Sent();
    SendCode(w, dtree, code, c.dl);
    DistStep(code);
    var extra := ExtraD(code);
    if extra != 0 {
      w.SendBits(d - t.baseDist[code], extra);
      Append(sent, CodeBits(c.dl, code), ToBits(d - t.baseDist[code], extra));
    } else {
      assert CodeBits(c.dl, code) + [] == CodeBits(c.dl, code);
    }
  }

  ghost function SymsBits(c: Codes, t: Maps, syms: seq<Sym>): seq<bool>
    requires AllCoded(c, t, syms)
  {
    if syms == [] then [] else SymsBits(c, t, syms[..|syms| - 1]) + SymBits(c, t, syms[|syms| - 1])
  }

  lemma {:induction false} BlockIsSyms(c: Codes, t: Maps, syms: seq<Sym>, k: nat)
    requires AllCoded(c, t, syms) && IsSymbol(c.ll, END_BLOCK) && k <= |syms|
    ensures BlockBits(c, t, syms) == SymsBits(c, t, syms[..k]) + BlockBits(c, t, syms[k..])
    decreases k
  {
    hide HasCodes, SymBits, CodeBits;
    if k == 0 {
      assert syms[0..] == syms;
      assert [] + BlockBits(c, t, syms) == BlockBits(c, t, syms);
    } else {
      BlockIsSyms(c, t, syms, k - 1);
      assert syms[..k][..k - 1] == syms[..k - 1];
      assert syms[k - 1..][1..] == syms[k..];
      Append(SymsBits(c, t, syms[..k - 1]), SymBits(c, t, syms[k - 1]), BlockBits(c, t, syms[k..]));
    }
  }

  /** Send the block data compressed using the given Huffman trees. */
  method CompressBlock(w: Writer, t: Maps, ltree: seq<Ct>, dtree: seq<Ct>, syms: seq<Sym>, ghost c: Codes)
    requires w.Valid() && TreesOk(c, ltree, dtree) && AllCoded(c, t, syms) && IsSymbol(c.ll, END_BLOCK)
    modifies w
    ensures w.Valid() && w.Sent() == old(w.Sent()) + BlockBits(c, t, syms)
  {
    hide ToBits, CodeBits, BytesToBits, Pow2, LengthBits, DistBits, Coded, MapsOk, BlockBits, DCode;
    ghost var sent := w.Sent();
    assert syms[..0] == [];
    assert sent + [] == sent;
    for sx := 0 to |syms|
      invariant w.Valid() && w.Sent() == sent + SymsBits(c, t, syms[..sx])
    {
      ghost var before := w.Sent();
      assert HasCodes(c, t, syms[sx]);
      match syms[sx] {
        case Lit(lc) =>
          SendCode(w, ltree, lc, c.ll);
        case Pair(dist, lc) =>
          SendLength(w, t, ltree, lc, c);
          SendDist(w, t, dtree, dist - 1, c);
          Append(before, LengthBits(c, t, lc), DistBits(c, t, dist - 1));
      }
      assert w.Sent() == before + SymBits(c, t, syms[sx]);
      assert syms[..sx + 1][..sx] == syms[..sx];
      Append(sent, SymsBits(c, t, syms[..sx]), SymBits(c, t, syms[sx]));
    }
    SendCode(w, ltree, END_BLOCK, c.ll);
    assert syms[..|syms|] == syms && syms[|syms|..] == [];
    BlockIsSyms(c, t, syms, |syms|);
    EmptyBlock(c, t);
    Append(sent, SymsBits(c, t, syms), CodeBits(c.ll, END_BLOCK));
  }

  lemma EmptyBlock(c: Codes, t: Maps)
    requires IsSymbol(c.ll, END_BLOCK)
    ensures BlockBits(c, t, []) == CodeBits(c.ll, END_BLOCK)
  {
  }
}
