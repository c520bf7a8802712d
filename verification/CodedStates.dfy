/** The states of inflate() of zlib/inflate.c for a coded block: decoding, copying from the window and the output, and
    the fast path. */
module CodedStates {
  import opened Bits
  import opened DecodeTable
  import opened InflateTable
  import opened InflateSpec
  import opened BitReader
  import opened InflateSteps
  import opened InflateWindow
  import opened InflateCopy
  import F = InflateFast

  /** Between steps fewer than eight unused bits are held, unless they are too few to go on. */
  ghost predicate Settled(lencode: Table, distcode: Table, m: Mode, r: Reader) {
    r.bits < 8 || Starved(lencode, distcode, m, r)
  }

  /** The state cannot go on without more input. */
  ghost predicate Starved(lencode: Table, distcode: Table, m: Mode, r: Reader) {
    match m
    case LEN => Undecided(lencode, r, r.bits)
    case DIST(_) => Undecided(distcode, r, r.bits)
    case LENEXT(_, extra) => r.bits < extra
    case DISTEXT(_, _, extra) => r.bits < extra
    case _ => false
  }

  /** A starved state at the end of the stream is an incomplete block. */
  lemma StarvedIncomplete(c: Codes, lencode: Table, distcode: Table, m: Mode, hold: nat, bits: nat, out: seq<byte>)
    requires ValidCodes(c) && TableOk(lencode, LENS, c.ll) && TableOk(distcode, DISTS, c.dl)
    requires hold < Pow2(bits) && Starved(lencode, distcode, m, Reader(hold, bits, 0))
    ensures Eval(c, m, ToBits(hold, bits), out) == Incomplete(out)
  {
    hide Lookup, Usable, Decodes, Pow2, Meaning, ToBits;
    match m
    case LEN => MissNeedsBits(lencode.t, lencode.root, c.ll, Meaning(LENS, |c.ll|), hold, bits);
    case DIST(_) => MissNeedsBits(distcode.t, distcode.root, c.dl, Meaning(DISTS, |c.dl|), hold, bits);
    case _ =>
  }

  /** Output only ever grows: what is there stays a prefix of the final output. */
  lemma {:induction false} EvalExtends(c: Codes, m: Mode, bits: seq<bool>, out: seq<byte>)
    requires ValidCodes(c)
    ensures out <= Eval(c, m, bits, out).out
    decreases |bits|, Rank(m)
  {
    hide Copy, Decode, AfterLength, AfterDistance, FromBits;
    match m
    case TYPE =>
    case BAD =>
    case LIT(b) => EvalExtends(c, LEN, bits, out + [b]);
    case MATCH(length, offset) =>
      if 1 <= offset <= |out| { EvalExtends(c, LEN, bits, Copy(out, length, offset)); }
    case LENEXT(length, extra) =>
      if |bits| >= extra { EvalExtends(c, DIST(length + FromBits(bits[..extra])), bits[extra..], out); }
    case DISTEXT(length, offset, extra) =>
      if |bits| >= extra { EvalExtends(c, MATCH(length, offset + FromBits(bits[..extra])), bits[extra..], out); }
    case LEN =>
      var d := Decode(c.ll, bits);
      if d.Symbol? { EvalExtends(c, AfterLength(d.s), bits[c.ll[d.s]..], out); }
    case DIST(length) =>
      var d := Decode(c.dl, bits);
      if d.Symbol? { EvalExtends(c, AfterDistance(length, d.s), bits[c.dl[d.s]..], out); }
  }

  lemma MatchPart(c: Codes, m: Mode, copy: nat, bits: seq<bool>, hist: seq<byte>)
    requires ValidCodes(c) && m.MATCH? && 1 <= m.offset <= |hist| && copy <= m.length
    ensures Eval(c, m, bits, hist)
         == Eval(c, MATCH(m.length - copy, m.offset), bits, Copy(hist, copy, m.offset))
    ensures copy == m.length ==> Eval(c, m, bits, hist) == Eval(c, LEN, bits, Copy(hist, copy, m.offset))
  {
    CopySplit(hist, copy, m.length - copy, m.offset);
  }

  /** The remaining stream as the accumulator and the bytes not yet taken. */
  lemma StreamIs(r: Reader, input: seq<byte>, future: seq<byte>)
    requires r.pos <= |input|
    ensures Stream(r, input, future) == ToBits(r.hold, r.bits) + BytesToBits(input[r.pos..] + future)
  {
  }

  function MatchLeft(m: Mode): nat { if m.MATCH? then m.length else 0 }

  /** Progress: fewer unused bits, a later state, or less of the match left to copy. */
  ghost predicate Smaller(m': Mode, r': Reader, m: Mode, r: Reader, input: seq<byte>) {
    || Left(r', input) < Left(r, input)
    || (Left(r', input) == Left(r, input) && Rank(m') < Rank(m))
    || (Left(r', input) == Left(r, input) && Rank(m') == Rank(m) && MatchLeft(m') < MatchLeft(m))
  }

  /** Why a turn goes no further: the block has ended, the output is full, or the input is too short. */
  ghost predicate Stuck(lt: Table, dt: Table, m: Mode, r: Reader, input: seq<byte>, full: bool) {
    m == TYPE || m == BAD || full || (r.pos == |input| && Starved(lt, dt, m, r))
  }

  /** Between codes, with too little input for the fast path and for the next code. */
  ghost predicate Waits(c: Codes, m: Mode, r: Reader, input: seq<byte>, future: seq<byte>)
    requires r.pos <= |input|
  {
    m == LEN && |input| - r.pos < 6 && Decode(c.ll, Stream(r, input, future)).TooShort?
  }

  /** One turn of `for (;;) switch (state->mode)` in a coded block; go is false for `goto inf_leave`. */
  method CodedTurn(lt: Table, dt: Table, win: Window, m: Mode, r: Reader, out: seq<byte>, avail: nat, input: seq<byte>,
                   ghost c: Codes, ghost future: seq<byte>, ghost sent: seq<byte>)
    returns (go: bool, m': Mode, r': Reader, out': seq<byte>)
    requires ValidCodes(c) && TableOk(lt, LENS, c.ll) && TableOk(dt, DISTS, c.dl) && win.Holding(sent)
    requires Ok(r, input) && |out| <= avail && ModeOk(m) && Settled(lt, dt, m, r)
    ensures Ok(r', input) && |out| <= |out'| <= avail && ModeOk(m') && Settled(lt, dt, m', r')
    ensures Eval(c, m', Stream(r', input, future), sent + out') == Eval(c, m, Stream(r, input, future), sent + out)
    ensures go ==> Smaller(m', r', m, r, input)
    ensures !go ==> Left(r', input) <= Left(r, input) && Stuck(lt, dt, m', r', input, |out'| == avail)
    ensures Waits(c, m, r, input, future) ==>
      !go && m' == LEN && out' == out && r'.bits == r.bits + 8 * (|input| - r.pos)
  {
    hide Decode, TableOk, Stream, Eval, Pow2, Holds, Lookup, Copy;
    go, m', r', out' := true, m, r, out;
    match m
    case LEN =>
      if |input| - r.pos >= 6 && avail - |out| >= 258 {
        m', r', out' := F.InflateFast(lt, dt, c, win, r, out, avail - |out|, input, future, sent);
      } else {
        go, m', r' := StepLen(lt, c, r, input, future, sent + out);
      }
    case DIST(length) =>
      go, m', r' := StepDist(dt, c, length, r, input, future, sent + out);
    case LENEXT(_, _) =>
      go, m', r' := StepExtra(c, m, r, input, future, sent + out);
    case DISTEXT(_, _, _) =>
      go, m', r' := StepExtra(c, m, r, input, future, sent + out);
    case MATCH(length, offset) =>
      if |out| == avail { return false, m, r, out; }
      var ok, copy;
      ok, copy, out' := SlowCopy(win, length, offset, avail - |out|, out, sent);
      F.EvalMatch(c, m, Stream(r, input, future), sent + out);
      if ok {
        MatchPart(c, m, copy, Stream(r, input, future), sent + out);
        m' := if copy == length then LEN else MATCH(length - copy, offset);
      } else {
        m' := BAD;
      }
    case LIT(b) =>
      if |out| == avail { return false, m, r, out; }
      F.EvalLiteral(c, b, Stream(r, input, future), sent, out);
      m', out' := LEN, out + [b];
    case TYPE => go := false;
    case BAD => go := false;
  }
}
