/** The states of inflate() of zlib/inflate.c between blocks and in their headers, and what the rest of the stream means
    in each of them. */
module StreamStates {
  import opened Bits
  import opened Huffman
  import opened InflateTable
  import opened InflateSpec
  import opened BitReader
  import opened InflateSteps
  import opened CodedStates
  import opened BitWriter
  import opened Block
  import opened CodeLengths
  import opened TreeCoding
  import opened BlockCost
  import opened Header
  import opened BlockTypes
  import opened StreamSpec

  /** TYPE and TYPEDO, STORED, COPY, TABLE, LENLENS, CODELENS, the states of a coded block, DONE and BAD, with the
      fields that are live in each. */
  datatype Stage =
    | Head
    | StoredHead
    | Copying(left: nat)
    | Counts
    | LenLens(nlen: nat, ndist: nat, ncode: nat, k: nat, lens: seq<nat>)
    | CodeLens(nlen: nat, ndist: nat, bl: seq<nat>, tab: Table, have: seq<nat>)
    | Coded(m: Mode, c: Codes, lt: Table, dt: Table)
    | Finished
    | Broken

  ghost predicate CountsOk(nlen: nat, ndist: nat, lens: seq<nat>) {
    257 <= nlen <= 286 && 1 <= ndist <= 30 && BlLengths(lens)
  }

  ghost predicate StageOk(st: Stage) {
    match st
    case LenLens(nlen, ndist, ncode, k, lens) => CountsOk(nlen, ndist, lens) && k <= ncode <= BL_CODES
    case CodeLens(nlen, ndist, bl, tab, have) =>
      CountsOk(nlen, ndist, bl) && TableOk(tab, CODES, bl) && |have| <= nlen + ndist && ValidLengths(have)
    case Coded(m, c, lt, dt) =>
      && ValidCodes(c) && TableOk(lt, LENS, c.ll) && TableOk(dt, DISTS, c.dl)
      && ModeOk(m) && m != TYPE && m != BAD
    case _ => true
  }

  /** Between steps fewer than eight unused bits are held, unless they are too few to go on. */
  ghost predicate Fed(st: Stage, r: Reader) {
    match st
    case Head => r.bits < 8
    case StoredHead => r.bits < 8 || (r.bits % 8 == 0 && r.bits < 32)
    case Copying(_) => r.bits == 0
    case Counts => r.bits < 14
    case LenLens(_, _, _, _, _) => r.bits < 8
    case CodeLens(nlen, ndist, bl, _, have) => r.bits < 8 || (|have| < nlen + ndist && LensStarved(bl, r))
    case Coded(m, _, lt, dt) => Settled(lt, dt, m, r)
    case Finished => r.bits == 0
    case Broken => true
  }

  /** The state cannot go on without more input. */
  ghost predicate Hungry(st: Stage, last: bool, r: Reader) {
    match st
    case Head => !last && r.bits < 3
    case StoredHead => r.bits % 8 == 0 && r.bits < 32
    case Copying(left) => left > 0 && r.bits == 0
    case Counts => r.bits < 14
    case LenLens(_, _, ncode, k, _) => k < ncode && r.bits < 3
    case CodeLens(nlen, ndist, bl, _, have) => |have| < nlen + ndist && LensStarved(bl, r)
    case Coded(m, _, lt, dt) => Starved(lt, dt, m, r)
    case _ => false
  }

  // ----- what the rest of the stream means -----

  /** The position of the first of these bits in a stream of `end` bits. */
  function At(end: nat, bits: seq<bool>): nat { if |bits| <= end then end - |bits| else 0 }

  ghost function CopyRest(left: nat, bits: seq<bool>, out: seq<byte>): Outcome {
    if |bits| < 8 * left then Incomplete(out + BitsToBytes(bits))
    else Done(out + BitsToBytes(bits[..8 * left]), bits[8 * left..])
  }

  ghost function TablesFrom(bl: seq<nat>, nlen: nat, ndist: nat, have: seq<nat>, bits: seq<bool>): (r: HeaderOutcome)
    requires CountsOk(nlen, ndist, bl) && |have| <= nlen + ndist
    ensures r.Header? ==> ValidCodes(r.c)
  {
    match ReadLens(bl, nlen + ndist, have, bits)
    case LensBad => HeaderBad
    case LensShort => HeaderShort
    case Lens(lens, rest) =>
      if lens[256] == 0 || Refused(LENS, lens[..nlen]) || Refused(DISTS, lens[nlen..]) then HeaderBad
      else Header(Codes(lens[..nlen], lens[nlen..]), rest)
  }

  ghost function HeaderRest(h: HeaderOutcome, out: seq<byte>): Outcome
    requires h.Header? ==> ValidCodes(h.c)
  {
    match h
    case HeaderBad => Invalid(out)
    case HeaderShort => Incomplete(out)
    case Header(c, rest) => Eval(c, LEN, rest, out)
  }

  /** LENLENS and what follows it. */
  ghost function LenLensRest(nlen: nat, ndist: nat, ncode: nat, k: nat, lens: seq<nat>, bits: seq<bool>)
    : (r: HeaderOutcome)
    requires CountsOk(nlen, ndist, lens) && k <= ncode <= BL_CODES
    ensures r.Header? ==> ValidCodes(r.c)
  {
    if |bits| < 3 * (ncode - k) then HeaderShort
    else
      LenLensSmall(k, ncode, lens, bits);
      var bl := ReadLenLens(k, ncode, lens, bits);
      if Refused(CODES, bl) then HeaderBad else TablesFrom(bl, nlen, ndist, [], bits[3 * (ncode - k)..])
  }

  lemma {:induction false} LenLensSmall(k: nat, n: nat, lens: seq<nat>, bits: seq<bool>)
    requires k <= n <= BL_CODES && BlLengths(lens) && |bits| >= 3 * (n - k)
    ensures BlLengths(ReadLenLens(k, n, lens, bits))
    decreases n - k
  {
    hide FromBits, OrderAt;
    if k < n {
      ThreeBits(bits[..3]);
      LenLensSmall(k + 1, n, lens[OrderAt(k) := FromBits(bits[..3])], bits[3..]);
    }
  }

  lemma ThreeBits(bits: seq<bool>)
    requires |bits| == 3
    ensures FromBits(bits) <= 7
  {
    hide FromBits, Pow2;
    SmallPowers();
  }

  /** The rest of the block. */
  ghost function BlockRest(st: Stage, end: nat, bits: seq<bool>, out: seq<byte>): Outcome
    requires StageOk(st)
  {
    match st
    case StoredHead => InflateStored(At(end, bits), bits, out)
    case Copying(left) => CopyRest(left, bits, out)
    case Counts => HeaderRest(ReadHeader(bits), out)
    case LenLens(nlen, ndist, ncode, k, lens) => HeaderRest(LenLensRest(nlen, ndist, ncode, k, lens, bits), out)
    case CodeLens(nlen, ndist, bl, _, have) => HeaderRest(TablesFrom(bl, nlen, ndist, have, bits), out)
    case Coded(m, c, _, _) => Eval(c, m, bits, out)
    case Broken => Invalid(out)
    case _ => Done(out, bits)
  }

  /** After a block come the others, unless it is the last. */
  ghost function OnTo(last: bool, end: nat, o: Outcome): Outcome {
    if o.Done? && !last then Inflated(At(end, o.rest), o.rest, o.out) else o
  }

  ghost function Going(st: Stage, last: bool, end: nat, bits: seq<bool>, out: seq<byte>): Outcome
    requires StageOk(st)
  {
    if st == Finished then Done(out, bits) else OnTo(last, end, BlockRest(st, end, bits, out))
  }

  /** At the end of the stream the bits up to the next byte are skipped. */
  ghost function Ended(end: nat, o: Outcome): Outcome {
    if o.Done? then Done(o.out, Skipped(end, o.rest)) else o
  }

  ghost function Skipped(end: nat, bits: seq<bool>): seq<bool> {
    var pad := Pad(At(end, bits));
    if pad <= |bits| then bits[pad..] else []
  }

  /** The final result of continuing in a state. */
  ghost function Result(st: Stage, last: bool, end: nat, bits: seq<bool>, out: seq<byte>): Outcome
    requires StageOk(st)
  {
    Ended(end, Going(st, last, end, bits, out))
  }

  // ----- the steps -----

  /** The state that a block type leads to. */
  ghost predicate Starts(kind: nat, st: Stage) {
    if kind == 0 then st == StoredHead
    else if kind == 1 then st.Coded? && st.m == LEN && st.c == Fixed()
    else if kind == 2 then st == Counts
    else st == Broken
  }

  lemma HeadStep(end: nat, bits: seq<bool>, out: seq<byte>, st: Stage)
    requires 3 <= |bits| <= end && StageOk(st) && Starts(FromBits(bits[1..3]), st)
    ensures Going(Head, false, end, bits, out) == Going(st, bits[0], end, bits[3..], out)
  {
    hide FromBits, Eval, ReadHeader, InflateStored, StaticLengths, StaticDistances, TableOk;
    BlockShrinks(end - |bits|, bits, out);
  }

  /** Skipping to the next byte before a stored block. */
  lemma StoredSkip(end: nat, bits: seq<bool>, out: seq<byte>)
    requires |bits| <= end && Pad(end - |bits|) <= |bits|
    ensures var pad := Pad(end - |bits|);
      InflateStored(end - |bits|, bits, out) == InflateStored(end - |bits| + pad, bits[pad..], out)
  {
    hide FromBits, BitsToBytes;
    var at, pad := end - |bits|, Pad(end - |bits|);
    var rest := bits[pad..];
    PadTwice(at);
    if |bits| >= pad + 32 {
      assert rest[0..16] == bits[pad..pad + 16] && rest[16..32] == bits[pad + 16..pad + 32];
      assert rest[32..] == bits[pad + 32..];
    }
  }

  lemma PadTwice(at: nat)
    ensures Pad(at + Pad(at)) == 0 && Pad(at) < 8
  {
  }

  lemma StoredStep(end: nat, bits: seq<bool>, out: seq<byte>)
    requires 32 <= |bits| <= end && Pad(end - |bits|) == 0
    ensures var len, nlen := FromBits(bits[..16]), FromBits(bits[16..32]);
      InflateStored(end - |bits|, bits, out) ==
      if len + nlen != 65535 then Invalid(out) else CopyRest(len, bits[32..], out)
  {
    hide FromBits, BitsToBytes, Pad;
    assert bits[0..16] == bits[..16];
  }

  /** Copying some bytes of a stored block. */
  lemma {:induction false} CopyStep(left: nat, x: seq<byte>, y: seq<byte>, out: seq<byte>)
    requires |x| <= left
    ensures CopyRest(left, BytesToBits(x + y), out) == CopyRest(left - |x|, BytesToBits(y), out + x)
  {
    hide BytesToBits, BitsToBytes;
    BytesToBitsConcat(x, y);
    var a, b, n := BytesToBits(x), BytesToBits(y), 8 * (left - |x|);
    if |b| < n {
      BytesJoin(x, b);
      assert out + (x + BitsToBytes(b)) == out + x + BitsToBytes(b);
    } else {
      assert (a + b)[..8 * left] == a + b[..n] && (a + b)[8 * left..] == b[n..];
      BytesJoin(x, b[..n]);
      assert out + (x + BitsToBytes(b[..n])) == out + x + BitsToBytes(b[..n]);
    }
  }

  lemma {:induction false} BytesJoin(x: seq<byte>, b: seq<bool>)
    ensures BitsToBytes(BytesToBits(x) + b) == x + BitsToBytes(b)
  {
    hide ToBits, FromBits, BitsToBytes;
    if x == [] {
      assert BytesToBits(x) + b == b;
    } else {
      var rest := BytesToBits(x[1..]) + b;
      assert BytesToBits(x) + b == ToBits(x[0], 8) + rest;
      OneByte(x[0], rest);
      BytesJoin(x[1..], b);
      assert [x[0]] + (x[1..] + BitsToBytes(b)) == x + BitsToBytes(b);
    }
  }

  lemma OneByte(v: byte, rest: seq<bool>)
    ensures BitsToBytes(ToBits(v, 8) + rest) == [v] + BitsToBytes(rest)
  {
    hide ToBits, FromBits, Pow2;
    SmallPowers();
    ReadValue(v, 8, rest);
  }

  lemma CopyEnd(bits: seq<bool>, out: seq<byte>)
    ensures CopyRest(0, bits, out) == Done(out, bits)
  {
    assert bits[..0] == [] && bits[0..] == bits && out + [] == out;
  }

  lemma CountsStep(bits: seq<bool>)
    requires |bits| >= 14
    ensures var nlen, ndist, ncode := FromBits(bits[..5]) + 257, FromBits(bits[5..10]) + 1, FromBits(bits[10..14]) + 4;
      && ncode <= BL_CODES
      && (nlen > 286 || ndist > 30 ==> ReadHeader(bits) == HeaderBad)
      && (nlen <= 286 && ndist <= 30 ==> CountsOk(nlen, ndist, Times(0, BL_CODES)))
      && (nlen <= 286 && ndist <= 30 ==>
          ReadHeader(bits) == LenLensRest(nlen, ndist, ncode, 0, Times(0, BL_CODES), bits[14..]))
  {
    hide FromBits, ReadLens, Refused, ReadLenLens;
    var nlen, ndist, ncode := FromBits(bits[..5]) + 257, FromBits(bits[5..10]) + 1, FromBits(bits[10..14]) + 4;
    FieldBounds(bits[..5], bits[5..10], bits[10..14]);
    ZeroLengths();
    if nlen <= 286 && ndist <= 30 && |bits| >= 14 + 3 * ncode {
      assert bits[14..][3 * ncode..] == bits[14 + 3 * ncode..];
    }
  }

  lemma ZeroLengths()
    ensures BlLengths(Times(0, BL_CODES))
  {
  }

  lemma LenLensStep(nlen: nat, ndist: nat, ncode: nat, k: nat, lens: seq<nat>, bits: seq<bool>)
    requires CountsOk(nlen, ndist, lens) && k < ncode <= BL_CODES && |bits| >= 3
    ensures var lens' := lens[OrderAt(k) := FromBits(bits[..3])];
      CountsOk(nlen, ndist, lens') &&
      LenLensRest(nlen, ndist, ncode, k, lens, bits) == LenLensRest(nlen, ndist, ncode, k + 1, lens', bits[3..])
  {
    hide FromBits, OrderAt, ReadLens, Refused;
    ThreeBits(bits[..3]);
    if |bits| >= 3 * (ncode - k) { assert bits[3..][3 * (ncode - k - 1)..] == bits[3 * (ncode - k)..]; }
  }

  lemma LenLensEnd(nlen: nat, ndist: nat, ncode: nat, lens: seq<nat>, bits: seq<bool>)
    requires CountsOk(nlen, ndist, lens) && ncode <= BL_CODES
    ensures LenLensRest(nlen, ndist, ncode, ncode, lens, bits) ==
      if Refused(CODES, lens) then HeaderBad else TablesFrom(lens, nlen, ndist, [], bits)
  {
    hide Refused, ReadLens;
    assert bits[0..] == bits;
  }

  // ----- ends -----

  /** Output only ever grows. */
  lemma {:induction false} InflatedExtends(at: nat, bits: seq<bool>, out: seq<byte>)
    ensures out <= Inflated(at, bits, out).out
    decreases |bits|
  {
    hide InflateBlock;
    BlockShrinks(at, bits, out);
    BlockExtends(at, bits, out);
    var r := InflateBlock(at, bits, out);
    if r.Done? && !bits[0] { InflatedExtends(at + |bits| - |r.rest|, r.rest, r.out); }
  }

  lemma BlockExtends(at: nat, bits: seq<bool>, out: seq<byte>)
    ensures out <= InflateBlock(at, bits, out).out
    ensures InflateBlock(at, bits, out).Done? ==> |bits| >= 1
  {
    hide FromBits, Eval, ReadHeader, BitsToBytes, StaticLengths, StaticDistances;
    if |bits| >= 3 {
      EvalExtends(Fixed(), LEN, bits[3..], out);
      HeaderExtends(ReadHeader(bits[3..]), out);
    }
  }

  lemma HeaderExtends(h: HeaderOutcome, out: seq<byte>)
    requires h.Header? ==> ValidCodes(h.c)
    ensures out <= HeaderRest(h, out).out
  {
    hide Eval;
    if h.Header? { EvalExtends(h.c, LEN, h.rest, out); }
  }

  lemma RestExtends(st: Stage, end: nat, bits: seq<bool>, out: seq<byte>)
    requires StageOk(st)
    ensures out <= BlockRest(st, end, bits, out).out
  {
    hide Eval, TableOk, ReadHeader, LenLensRest, TablesFrom, HeaderRest, BitsToBytes, FromBits;
    match st
    case Counts => HeaderExtends(ReadHeader(bits), out);
    case LenLens(nlen, ndist, ncode, k, lens) => HeaderExtends(LenLensRest(nlen, ndist, ncode, k, lens, bits), out);
    case CodeLens(nlen, ndist, bl, _, have) => HeaderExtends(TablesFrom(bl, nlen, ndist, have, bits), out);
    case Coded(m, c, _, _) => EvalExtends(c, m, bits, out);
    case _ =>
  }

  lemma Extends(st: Stage, last: bool, end: nat, bits: seq<bool>, out: seq<byte>)
    requires StageOk(st)
    ensures out <= Result(st, last, end, bits, out).out
  {
    hide Inflated, BlockRest, StageOk, Skipped;
    var o := BlockRest(st, end, bits, out);
    RestExtends(st, end, bits, out);
    if o.Done? { InflatedExtends(At(end, o.rest), o.rest, o.out); }
  }

  /** A hungry state at the end of the stream is an incomplete stream. */
  lemma HungryIncomplete(st: Stage, last: bool, end: nat, r: Reader, out: seq<byte>)
    requires StageOk(st) && r.hold < Pow2(r.bits) && Hungry(st, last, r) && Fed(st, r)
    ensures Result(st, last, end, ToBits(r.hold, r.bits), out) == Incomplete(out)
  {
    hide Eval, TableOk, ReadLens, LensStarved, Refused, FromBits, ToBits, Pow2, Settled;
    var bits := ToBits(r.hold, r.bits);
    match st
    case Head =>
    case Copying(left) =>
      assert bits == [] && out + [] == out;
    case CodeLens(nlen, ndist, bl, _, have) => LensStarvedShort(bl, nlen + ndist, have, r);
    case Coded(m, c, lt, dt) => StarvedIncomplete(c, lt, dt, m, r.hold, r.bits, out);
    case _ =>
  }

  /** The state machine at the start of a stream means what the stream means. */
  lemma WholeStream(bits: seq<bool>)
    ensures Result(Head, false, |bits|, bits, []) == Ended(|bits|, Inflated(0, bits, []))
  {
    hide Inflated, Ended;
  }

  lemma {:induction false} InflatedShrinks(at: nat, bits: seq<bool>, out: seq<byte>)
    ensures Inflated(at, bits, out).Done? ==> |Inflated(at, bits, out).rest| <= |bits|
    decreases |bits|
  {
    hide InflateBlock;
    BlockShrinks(at, bits, out);
    var r := InflateBlock(at, bits, out);
    if r.Done? && !bits[0] { InflatedShrinks(at + |bits| - |r.rest|, r.rest, r.out); }
  }
}
