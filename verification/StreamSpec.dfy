/** What a DEFLATE stream means (section 3.2.3 of RFC 1951): block after block, over all its bits at once. */
module StreamSpec {
  import opened Bits
  import opened Huffman
  import opened InflateTable
  import opened InflateSpec
  import opened CodeLengths
  import opened BlockCost
  import opened Header
  import opened BlockTypes

  lemma {:induction false} EvalShrinks(c: Codes, m: Mode, bits: seq<bool>, out: seq<byte>)
    requires ValidCodes(c)
    ensures Eval(c, m, bits, out).Done? ==> |Eval(c, m, bits, out).rest| <= |bits|
    decreases |bits|, InflateSpec.Rank(m)
  {
    hide Decode, FromBits, Copy, AfterLength, AfterDistance, IsSymbol;
    match m
    case TYPE =>
    case BAD =>
    case LIT(b) => EvalShrinks(c, LEN, bits, out + [b]);
    case MATCH(length, offset) => if 1 <= offset <= |out| { EvalShrinks(c, LEN, bits, Copy(out, length, offset)); }
    case LENEXT(length, extra) =>
      if |bits| >= extra { EvalShrinks(c, DIST(length + FromBits(bits[..extra])), bits[extra..], out); }
    case DISTEXT(length, offset, extra) =>
      if |bits| >= extra { EvalShrinks(c, MATCH(length, offset + FromBits(bits[..extra])), bits[extra..], out); }
    case LEN =>
      var s := Decode(c.ll, bits);
      if s.Symbol? {
        CodeLength(c.ll, s.s, bits);
        EvalShrinks(c, AfterLength(s.s), bits[c.ll[s.s]..], out);
      }
    case DIST(length) =>
      var s := Decode(c.dl, bits);
      if s.Symbol? {
        CodeLength(c.dl, s.s, bits);
        EvalShrinks(c, AfterDistance(length, s.s), bits[c.dl[s.s]..], out);
      }
  }

  lemma CodeLength(lens: seq<nat>, s: nat, bits: seq<bool>)
    requires HasPrefix(lens, s, bits)
    ensures s < |lens| && 1 <= lens[s] <= |bits|
  {
  }

  lemma {:induction false} LensShrink(bl: seq<nat>, total: nat, have: seq<nat>, bits: seq<bool>)
    requires |bl| <= BL_CODES
    ensures ReadLens(bl, total, have, bits).Lens? ==> |ReadLens(bl, total, have, bits).rest| <= |bits|
    decreases |bits|
  {
    hide HasPrefix, MayStart, FromBits, Times, IsSymbol;
    if |have| < total {
      var d := Decode(bl, bits);
      if d.NoCode? {
        LensShrink(bl, total, have + [0], bits[1..]);
      } else if d.Symbol? {
        CodeLength(bl, d.s, bits);
        var rest := bits[bl[d.s]..];
        if d.s < 16 {
          LensShrink(bl, total, have + [d.s], rest);
        } else {
          var x := RepeatBits(d.s);
          if |rest| >= x && !(d.s == 16 && have == []) {
            var n := RepeatBase(d.s) + FromBits(rest[..x]);
            LensShrink(bl, total, have + Times(if d.s == 16 then have[|have| - 1] else 0, n), rest[x..]);
          }
        }
      }
    }
  }

  lemma HeaderShrinks(bits: seq<bool>)
    ensures ReadHeader(bits).Header? ==> |ReadHeader(bits).rest| <= |bits|
  {
    hide FromBits, Refused, ReadLens, ReadLenLens;
    if ReadHeader(bits).Header? {
      var nlen, ndist, ncode := FromBits(bits[..5]) + 257, FromBits(bits[5..10]) + 1, FromBits(bits[10..14]) + 4;
      FieldBounds(bits[..5], bits[5..10], bits[10..14]);
      var bl := ReadLenLens(0, ncode, Times(0, BL_CODES), bits[14..]);
      LensShrink(bl, nlen + ndist, [], bits[14 + 3 * ncode..]);
    }
  }

  lemma BlockShrinks(at: nat, bits: seq<bool>, out: seq<byte>)
    ensures InflateBlock(at, bits, out).Done? ==> |InflateBlock(at, bits, out).rest| < |bits|
  {
    hide FromBits, ReadHeader, Eval, StaticLengths, StaticDistances, BitsToBytes;
    if |bits| >= 3 {
      var body := bits[3..];
      EvalShrinks(Fixed(), LEN, body, out);
      HeaderShrinks(body);
      if ReadHeader(body).Header? { EvalShrinks(ReadHeader(body).c, LEN, ReadHeader(body).rest, out); }
    }
  }

  /** Block after block up to the one marked last, `at` bits into the stream. */
  ghost function Inflated(at: nat, bits: seq<bool>, out: seq<byte>): Outcome
    decreases |bits|
  {
    BlockShrinks(at, bits, out);
    var r := InflateBlock(at, bits, out);
    if r.Done? && !bits[0] then Inflated(at + |bits| - |r.rest|, r.rest, r.out) else r
  }
}
