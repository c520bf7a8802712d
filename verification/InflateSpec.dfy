/** What a coded block means (section 3.2.3 of RFC 1951), stated over the whole bit stream at once:
    decode a symbol with the canonical code, emit a literal, copy a match, stop at end of block.
    Eval gives the result of continuing from any of the states inflate() can be suspended in. */
module InflateSpec {
  import opened Bits
  import opened Huffman
  import opened InflateTable

  /** The code lengths of the literal/length code and of the distance code. */
  datatype Codes = Codes(ll: seq<nat>, dl: seq<nat>)

  /** The decoding states of inflate(), with the fields that are live in each. */
  datatype Mode =
    | LEN
    | LENEXT(length: nat, extra: nat)
    | DIST(length: nat)
    | DISTEXT(length: nat, offset: nat, extra: nat)
    | MATCH(length: nat, offset: nat)
    | LIT(b: byte)
    | TYPE
    | BAD

  datatype Outcome =
    | Done(out: seq<byte>, rest: seq<bool>)
    | Invalid(out: seq<byte>)
    | Incomplete(out: seq<byte>)

  datatype Kind = Literal(b: nat) | EndOfBlock | Base(val: nat, extra: nat) | Reserved

  function KindOf(op: nat, val: nat): Kind {
    if op == 0 then Literal(val)
    else if op == 96 then EndOfBlock
    else if 16 <= op < 32 then Base(val, op - 16)
    else Reserved
  }

  function SymbolKind(ty: CodeType, s: nat): Kind
    requires InAlphabet(ty, s + 1)
  {
    var e := SymbolEntry(ty, s, 0);
    KindOf(e.op, e.val)
  }

  predicate LengthRow(i: nat) requires i < 31 {
    var k := KindOf(LEXT[i], LBASE[i]);
    (k == Reserved && (LEXT[i] == 68 || LEXT[i] == 193))
    || (k.Base? && k.extra <= 5 && 3 <= k.val && k.val + Pow2(k.extra) <= 259)
  }

  lemma LengthRowHolds(i: nat)
    requires i < 31
    ensures LengthRow(i)
  {
    hide LengthRow;
    if i < 16 { LengthRowsLow(i); } else { LengthRowsHigh(i); }
  }

  lemma LengthRowsLow(i: nat)
    requires i < 16
    ensures LengthRow(i)
  {
    hide Pow2;
    SmallPowers();
  }

  lemma LengthRowsHigh(i: nat)
    requires 16 <= i < 31
    ensures LengthRow(i)
  {
    hide Pow2;
    SmallPowers();
  }

  predicate DistRow(i: nat) requires i < 32 {
    var k := KindOf(DEXT[i], DBASE[i]);
    (k == Reserved && DEXT[i] == 64)
    || (k.Base? && k.extra <= 13 && 1 <= k.val && k.val + Pow2(k.extra) <= 32769)
  }

  lemma DistRowHolds(i: nat)
    requires i < 32
    ensures DistRow(i)
  {
    hide DistRow;
    if i < 16 { DistRowsLow(i); } else { DistRowsHigh(i); }
  }

  lemma DistRowsLow(i: nat)
    requires i < 16
    ensures DistRow(i)
  {
    hide Pow2;
    SmallPowers();
  }

  lemma DistRowsHigh(i: nat)
    requires 16 <= i < 32
    ensures DistRow(i)
  {
    hide Pow2;
    SmallPowers();
  }

  /** Lengths are 3 .. 258 with at most 5 extra bits. */
  lemma LengthKind(s: nat)
    requires InAlphabet(LENS, s + 1)
    ensures var k := SymbolKind(LENS, s);
      match k
      case Literal(b) => b < 256
      case Base(val, extra) => extra <= 5 && 3 <= val && val + Pow2(extra) <= 259
      case EndOfBlock => true
      case Reserved => SymbolEntry(LENS, s, 0).op == 68 || SymbolEntry(LENS, s, 0).op == 193
  {
    if s > 256 {
      LengthRowHolds(s - 257);
    }
  }

  /** Distances are 1 .. 32768 with at most 13 extra bits. */
  lemma DistKind(s: nat)
    requires InAlphabet(DISTS, s + 1)
    ensures var k := SymbolKind(DISTS, s);
      (k == Reserved && SymbolEntry(DISTS, s, 0).op == 64)
      || (k.Base? && k.extra <= 13 && 1 <= k.val && k.val + Pow2(k.extra) <= 32769)
  {
    DistRowHolds(s);
  }

  // ----- one symbol -----

  datatype Step = Symbol(s: nat) | NoCode | TooShort

  /** The stream starts with the code word of s. */
  ghost predicate HasPrefix(lens: seq<nat>, s: nat, bits: seq<bool>) {
    IsSymbol(lens, s) && lens[s] <= |bits| && FromBits(bits[..lens[s]]) == Code(lens, s)
  }

  /** The stream could go on to start with the code word of s. */
  ghost predicate MayStart(lens: seq<nat>, s: nat, bits: seq<bool>) {
    HasPrefix(lens, s, bits) || (IsSymbol(lens, s) && lens[s] > |bits| && FromBits(bits) == Low(Code(lens, s), |bits|))
  }

  /** Decode one symbol.  With at least one bit read and no code word possible there is none. */
  ghost function Decode(lens: seq<nat>, bits: seq<bool>): (r: Step)
    ensures r.Symbol? ==> HasPrefix(lens, r.s, bits)
  {
    if exists s: nat :: HasPrefix(lens, s, bits) then
      var s: nat :| HasPrefix(lens, s, bits);
      Symbol(s)
    else if |bits| >= 1 && forall s: nat :: !MayStart(lens, s, bits) then NoCode
    else TooShort
  }

  // ----- the whole block -----

  /** out[i] = out[i - dist] for n more bytes, each able to see the ones before it. */
  function Copy(out: seq<byte>, n: nat, dist: nat): (r: seq<byte>)
    requires 1 <= dist <= |out|
    ensures |r| == |out| + n && out <= r
    decreases n
  {
    if n == 0 then out else Copy(out + [out[|out| - dist]], n - 1, dist)
  }

  function Rank(m: Mode): nat {
    match m
    case LENEXT(_, _) => 4
    case DIST(_) => 3
    case DISTEXT(_, _, _) => 2
    case MATCH(_, _) => 1
    case LIT(_) => 1
    case _ => 0
  }

  ghost predicate ValidCodes(c: Codes) {
    InAlphabet(LENS, |c.ll|) && InAlphabet(DISTS, |c.dl|)
  }

  /** The final result of continuing in mode m with the bits still to come and the output so far. */
  ghost function Eval(c: Codes, m: Mode, bits: seq<bool>, out: seq<byte>): Outcome
    requires ValidCodes(c)
    decreases |bits|, Rank(m)
  {
    match m
    case TYPE => Done(out, bits)
    case BAD => Invalid(out)
    case LIT(b) => Eval(c, LEN, bits, out + [b])
    case MATCH(length, offset) =>
      if 1 <= offset <= |out| then Eval(c, LEN, bits, Copy(out, length, offset)) else Invalid(out)
    case LENEXT(length, extra) =>
      if |bits| < extra then Incomplete(out)
      else Eval(c, DIST(length + FromBits(bits[..extra])), bits[extra..], out)
    case DISTEXT(length, offset, extra) =>
      if |bits| < extra then Incomplete(out)
      else Eval(c, MATCH(length, offset + FromBits(bits[..extra])), bits[extra..], out)
    case LEN =>
      (match Decode(c.ll, bits)
       case TooShort => Incomplete(out)
       case NoCode => Invalid(out)
       case Symbol(s) => Eval(c, AfterLength(s), bits[c.ll[s]..], out))
    case DIST(length) =>
      (match Decode(c.dl, bits)
       case TooShort => Incomplete(out)
       case NoCode => Invalid(out)
       case Symbol(s) => Eval(c, AfterDistance(length, s), bits[c.dl[s]..], out))
  }

  function AfterLength(s: nat): Mode
    requires InAlphabet(LENS, s + 1)
  {
    LengthKind(s);
    match SymbolKind(LENS, s)
    case Literal(b) => LIT(b)
    case EndOfBlock => TYPE
    case Base(val, extra) => LENEXT(val, extra)
    case Reserved => BAD
  }

  function AfterDistance(length: nat, s: nat): Mode
    requires InAlphabet(DISTS, s + 1)
  {
    match SymbolKind(DISTS, s)
    case Base(val, extra) => DISTEXT(length, val, extra)
    case _ => BAD
  }

  /** A match may be copied in pieces. */
  lemma {:induction false} CopySplit(out: seq<byte>, a: nat, b: nat, dist: nat)
    requires 1 <= dist <= |out|
    ensures Copy(Copy(out, a, dist), b, dist) == Copy(out, a + b, dist)
    decreases a
  {
    if a > 0 { CopySplit(out + [out[|out| - dist]], a - 1, b, dist); }
  }

  /** What a copied match is: every new byte equals the one dist places before it. */
  lemma {:induction false} CopyMeaning(out: seq<byte>, n: nat, dist: nat, i: nat)
    requires 1 <= dist <= |out| && |out| <= i < |out| + n
    ensures Copy(out, n, dist)[i] == Copy(out, n, dist)[i - dist]
    decreases n
  {
    var out' := out + [out[|out| - dist]];
    var r := Copy(out', n - 1, dist);
    if i == |out| {
      assert r[i] == out'[i] && r[i - dist] == out'[i - dist];
    } else {
      CopyMeaning(out', n - 1, dist, i);
    }
  }
}
