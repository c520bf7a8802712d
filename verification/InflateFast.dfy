/** inflate_fast() of zlib/inffast.c: decoding without checks for input or output space.
    It refines the slow states: same result, same bit position once unused bytes are given back,
    at most six input bytes and 258 output bytes for each length/distance pair. */
module InflateFast {
  import opened Bits
  import opened DecodeTable
  import opened InflateTable
  import opened InflateSpec
  import opened BitReader
  import opened InflateSteps
  import opened InflateWindow
  import opened InflateCopy

  /** r' is further along the same stream by exactly the bits that are no longer left. */
  ghost predicate Ahead(r: Reader, r': Reader, input: seq<byte>, future: seq<byte>) {
    && r.pos <= |input| && Ok(r', input) && r.pos <= r'.pos && Left(r', input) <= Left(r, input)
    && Stream(r', input, future) == Stream(r, input, future)[Left(r, input) - Left(r', input)..]
  }

  lemma AheadTrans(a: Reader, b: Reader, c: Reader, input: seq<byte>, future: seq<byte>)
    requires Ahead(a, b, input, future) && Ahead(b, c, input, future)
    ensures Ahead(a, c, input, future)
  {
    hide Stream, Ok;
    var s, i, j := Stream(a, input, future), Left(a, input) - Left(b, input), Left(b, input) - Left(c, input);
    assert s[i..][j..] == s[i + j..];
  }

  lemma AheadDrop(r: Reader, n: nat, input: seq<byte>, future: seq<byte>)
    requires Ok(r, input) && n <= r.bits
    ensures Ahead(r, DropBits(r, n), input, future) && Left(DropBits(r, n), input) == Left(r, input) - n
  {
    hide Shr, Stream;
    DropKeeps(r, n, input, future);
  }

  /** `if (bits < 15)` add two bytes. */
  method TwoBytes(r: Reader, input: seq<byte>, ghost future: seq<byte>) returns (r': Reader)
    requires Ok(r, input) && r.pos + 2 <= |input|
    ensures Ahead(r, r', input, future) && Left(r', input) == Left(r, input)
    ensures Stream(r', input, future) == Stream(r, input, future)
    ensures r' == if r.bits < 15 then PullByte(PullByte(r, input), input) else r
    ensures r'.bits >= 15
  {
    r' := r;
    ghost var s := Stream(r, input, future);
    assert s[0..] == s;
    if r.bits < 15 {
      PullKeeps(r, input, future);
      r' := PullByte(r, input);
      PullKeeps(r', input, future);
      r' := PullByte(r', input);
    }
  }

  /** One more byte when fewer than n bits are there. */
  method OneByte(r: Reader, n: nat, input: seq<byte>, ghost future: seq<byte>) returns (r': Reader)
    requires Ok(r, input) && n <= 15 && (r.bits < n ==> r.pos < |input|)
    ensures Ahead(r, r', input, future) && Left(r', input) == Left(r, input)
    ensures Stream(r', input, future) == Stream(r, input, future)
    ensures if r.bits < n then r'.pos == r.pos + 1 && r'.bits == r.bits + 8 else r' == r
  {
    r' := r;
    ghost var s := Stream(r, input, future);
    assert s[0..] == s;
    if r.bits < n {
      PullKeeps(r, input, future);
      r' := PullByte(r, input);
    }
  }

  /** The entry for the accumulator, dropping its bits on the way: dolen and dodist. */
  method FastFetch(tab: Table, r: Reader, ghost lens: seq<nat>, ghost ents: seq<Entry>)
    returns (f: Found, r': Reader)
    requires Meanings(lens, ents) && Decodes(tab.t, tab.root, lens, ents) && r.bits >= 15
    ensures f == Lookup(tab.t, tab.root, r.hold) && f.Found? && 1 <= f.drop <= 15 && r' == DropBits(r, f.drop)
  {
    hide Low, Shr, Meanings;
    FoundCases(tab.t, tab.root, lens, ents, r.hold);
    var here := tab.t[Low(r.hold, tab.root)];
    r' := DropBits(r, here.bits);
    var drop := here.bits;
    if IsLink(here) {
      var e := here;
      here := tab.t[here.val + Low(r'.hold, here.op)];
      ShrShr(r.hold, e.bits, here.bits);
      drop := e.bits + here.bits;
      r' := DropBits(r', here.bits);
    }
    f := Found(here.op, here.val, drop);
  }

  /** The tests on op in the order of inflate_fast(). */
  function FastLengthMode(op: nat, val: nat): Mode
    requires op == 0 ==> val < 256
  {
    if op == 0 then LIT(val)
    else if OpBit(op, 16) then LENEXT(val, op % 16)
    else if OpBit(op, 32) then TYPE
    else BAD
  }

  function FastDistMode(length: nat, op: nat, val: nat): Mode {
    if OpBit(op, 16) then DISTEXT(length, val, op % 16) else BAD
  }

  /** The ops that a literal/length or distance table holds. */
  predicate TableOp(op: nat) { op == 0 || op == 96 || 16 <= op < 32 || op == 64 || op == 68 || op == 193 }

  lemma SameModes(length: nat, op: nat, val: nat)
    requires TableOp(op) && (op == 0 ==> val < 256)
    ensures FastLengthMode(op, val) == LengthMode(op, val)
    ensures op != 0 && op != 96 ==> FastDistMode(length, op, val) == DistMode(length, op, val)
  {
  }

  lemma LengthOps(tab: Table, lens: seq<nat>, w: nat)
    requires TableOk(tab, LENS, lens)
    ensures var f := Lookup(tab.t, tab.root, w); f.Found? && TableOp(f.op) && (f.op == 0 ==> f.val < 256)
  {
    hide Lookup, Usable, SymbolEntry, Pow2;
    var ents := Meaning(LENS, |lens|);
    if s: nat :| StartsWith(lens, s, w) {
      assert Lookup(tab.t, tab.root, w) == Found(ents[s].op, ents[s].val, lens[s]);
      LengthKind(s);
    } else {
      assert Lookup(tab.t, tab.root, w) == Found(INVALID.op, INVALID.val, INVALID.bits);
    }
  }

  lemma DistOps(tab: Table, lens: seq<nat>, w: nat)
    requires TableOk(tab, DISTS, lens)
    ensures var f := Lookup(tab.t, tab.root, w); f.Found? && TableOp(f.op) && f.op != 0 && f.op != 96
  {
    hide Lookup, Usable, SymbolEntry, Pow2;
    var ents := Meaning(DISTS, |lens|);
    if s: nat :| StartsWith(lens, s, w) {
      assert Lookup(tab.t, tab.root, w) == Found(ents[s].op, ents[s].val, lens[s]);
      DistKind(s);
    } else {
      assert Lookup(tab.t, tab.root, w) == Found(INVALID.op, INVALID.val, INVALID.bits);
    }
  }

  /** From a length code to a complete pair: length extra bits, distance code, distance extra bits.
      With r0 the accumulator before the length code, no more than six bytes are read in all. */
  method FastPair(dcode: Table, ghost c: Codes, m: Mode, r: Reader, input: seq<byte>, ghost future: seq<byte>,
                  ghost hist: seq<byte>, ghost r0: Reader)
    returns (m': Mode, r': Reader)
    requires ValidCodes(c) && TableOk(dcode, DISTS, c.dl) && m.LENEXT? && ModeOk(m) && Ok(r, input)
    requires r0.pos + 6 <= |input| && r0.pos <= r.pos <= r0.pos + 2 && Left(r0, input) - 15 <= Left(r, input)
    ensures Ahead(r, r', input, future) && r'.pos <= r0.pos + 6 && ModeOk(m') && (m'.MATCH? || m' == BAD)
    ensures m'.MATCH? ==> 3 <= m'.length
    ensures Eval(c, m', Stream(r', input, future), hist) == Eval(c, m, Stream(r, input, future), hist)
  {
    hide Stream, Eval, Usable, Decodes, Low, Shr, Pow2, Meaning;
    var r1 := OneByte(r, m.extra, input, future);
    ExtraKeeps(c, m, r1, input, future, hist);
    AheadDrop(r1, m.extra, input, future);
    AheadTrans(r, r1, DropBits(r1, m.extra), input, future);
    var len := m.length + Low(r1.hold, m.extra);
    r1 := DropBits(r1, m.extra);
    var r2 := TwoBytes(r1, input, future);
    AheadTrans(r, r1, r2, input, future);
    var f, r3 := FastFetch(dcode, r2, c.dl, Meaning(DISTS, |c.dl|));
    DistKeeps(c, dcode, r2, input, future, hist, len);
    DistOps(dcode, c.dl, r2.hold);
    SameModes(len, f.op, f.val);
    AheadDrop(r2, f.drop, input, future);
    AheadTrans(r, r2, r3, input, future);
    m', r' := FastDistMode(len, f.op, f.val), r3;
    if m'.DISTEXT? {
      m', r' := FastOffset(c, m', r3, input, future, hist, r0);
      AheadTrans(r, r3, r', input, future);
    }
  }

  method FastOffset(ghost c: Codes, m: Mode, r: Reader, input: seq<byte>, ghost future: seq<byte>,
                    ghost hist: seq<byte>, ghost r0: Reader)
    returns (m': Mode, r': Reader)
    requires ValidCodes(c) && m.DISTEXT? && ModeOk(m) && Ok(r, input)
    requires r0.pos + 6 <= |input| && r0.pos <= r.pos <= r0.pos + 5 && Left(r0, input) - 35 <= Left(r, input)
    ensures Ahead(r, r', input, future) && r'.pos <= r0.pos + 6 && ModeOk(m')
    ensures m'.MATCH? && m'.length == m.length
    ensures Eval(c, m', Stream(r', input, future), hist) == Eval(c, m, Stream(r, input, future), hist)
  {
    hide Stream, Eval, Low, Shr, Pow2;
    var r1 := OneByte(r, m.extra, input, future);
    var r2 := OneByte(r1, m.extra, input, future);
    AheadTrans(r, r1, r2, input, future);
    ExtraKeeps(c, m, r2, input, future, hist);
    AheadDrop(r2, m.extra, input, future);
    r' := DropBits(r2, m.extra);
    AheadTrans(r, r2, r', input, future);
    m' := AddExtra(m, Low(r2.hold, m.extra));
  }

  /** One turn of the loop: a literal, a length/distance pair, the end of the block or an error. */
  method FastTurn(lcode: Table, dcode: Table, ghost c: Codes, win: Window, r: Reader, out: seq<byte>,
                  input: seq<byte>, ghost future: seq<byte>, ghost sent: seq<byte>)
    returns (m: Mode, r': Reader, out': seq<byte>)
    requires ValidCodes(c) && TableOk(lcode, LENS, c.ll) && TableOk(dcode, DISTS, c.dl)
    requires win.Holding(sent) && Ok(r, input) && r.pos + 6 <= |input|
    ensures Ahead(r, r', input, future) && r'.pos <= r.pos + 6 && |out| <= |out'| <= |out| + 258
    ensures m == LEN || m == TYPE || m == BAD
    ensures Left(r', input) < Left(r, input)
    ensures Undecided(lcode, r, r.bits) ==> Left(r', input) < Left(r, input) - r.bits
    ensures Eval(c, m, Stream(r', input, future), sent + out') == Eval(c, LEN, Stream(r, input, future), sent + out)
  {
    hide Stream, Eval, Usable, Decodes, Low, Shr, Pow2, Meaning, Holds, Copy, Lookup;
    ghost var ents := Meaning(LENS, |c.ll|);
    var r1 := TwoBytes(r, input, future);
    StillUndecided(lcode, c.ll, ents, r, r1, input);
    var f, r2 := FastFetch(lcode, r1, c.ll, ents);
    LengthKeeps(c, lcode, r1, input, future, sent + out);
    LengthOps(lcode, c.ll, r1.hold);
    SameModes(0, f.op, f.val);
    AheadDrop(r1, f.drop, input, future);
    AheadTrans(r, r1, r2, input, future);
    m, r', out' := FastLengthMode(f.op, f.val), r2, out;
    if m.LIT? {
      EvalLiteral(c, m.b, Stream(r', input, future), sent, out);
      m, out' := LEN, out + [m.b];
    } else if m.LENEXT? {
      m, r' := FastPair(dcode, c, m, r2, input, future, sent + out, r);
      AheadTrans(r, r2, r', input, future);
      if m.MATCH? {
        var ok;
        ok, out' := FastCopy(win, m.length, m.offset, out, sent);
        EvalMatch(c, m, Stream(r', input, future), sent + out);
        m := if ok then LEN else BAD;
      }
    }
  }

  lemma StillUndecided(tab: Table, lens: seq<nat>, ents: seq<Entry>, r: Reader, r': Reader, input: seq<byte>)
    requires Meanings(lens, ents) && Decodes(tab.t, tab.root, lens, ents) && Usable(lens) && Ok(r, input)
    requires r' == r || (r.bits < 15 && r.pos + 2 <= |input| && r' == PullByte(PullByte(r, input), input))
    ensures Undecided(tab, r, r.bits) ==> Undecided(tab, r', r.bits)
  {
    hide Decodes, Usable, Lookup, Shl;
    if r' != r {
      DecidedBefore(tab.t, tab.root, lens, ents, r, r.bits, input);
      PullKeeps(r, input, []);
      DecidedBefore(tab.t, tab.root, lens, ents, PullByte(r, input), r.bits, input);
    }
  }

  lemma EvalLiteral(c: Codes, b: byte, bits: seq<bool>, sent: seq<byte>, out: seq<byte>)
    requires ValidCodes(c)
    ensures Eval(c, LIT(b), bits, sent + out) == Eval(c, LEN, bits, sent + (out + [b]))
  {
    assert (sent + out) + [b] == sent + (out + [b]);
  }

  lemma EvalMatch(c: Codes, m: Mode, bits: seq<bool>, hist: seq<byte>)
    requires ValidCodes(c) && m.MATCH? && 1 <= m.offset
    ensures m.offset <= |hist| ==> Eval(c, m, bits, hist) == Eval(c, LEN, bits, Copy(hist, m.length, m.offset))
    ensures m.offset > |hist| ==> Eval(c, m, bits, hist) == Eval(c, BAD, bits, hist)
  {
  }

  lemma {:induction false} BytesDrop(bs: seq<byte>, k: nat)
    requires k <= |bs|
    ensures BytesToBits(bs)[8 * k..] == BytesToBits(bs[k..])
    decreases k
  {
    if k > 0 {
      BytesDrop(bs[1..], k - 1);
      var t := BytesToBits(bs[1..]);
      assert BytesToBits(bs) == ToBits(bs[0], 8) + t;
      assert (ToBits(bs[0], 8) + t)[8 * k..] == t[8 * (k - 1)..];
      assert bs[1..][k - 1..] == bs[k..];
    }
  }

  /** The accumulator after giving back its k highest bytes. */
  function GiveBack(r: Reader, k: nat): Reader
    requires k <= r.pos && 8 * k <= r.bits
  {
    Reader(Low(r.hold, r.bits - 8 * k), r.bits - 8 * k, r.pos - k)
  }

  /** Bytes read since r0 can be given back: they are still in the input at the same place. */
  lemma GiveBackKeeps(r0: Reader, r: Reader, k: nat, input: seq<byte>, future: seq<byte>)
    requires Ok(r0, input) && Ok(r, input) && Ahead(r0, r, input, future)
    requires 8 * k <= r.bits && r0.pos + k <= r.pos
    ensures Ok(GiveBack(r, k), input) && Stream(GiveBack(r, k), input, future) == Stream(r, input, future)
  {
    hide Low, Shr, ToBits, BytesToBits, Pow2;
    var s0, s := Stream(r0, input, future), Stream(r, input, future);
    var b := r.bits - 8 * k;
    ToBitsSplit(r.hold, b, 8 * k);
    ToBitsLow(r.hold, b, b);
    assert s[..b] == ToBits(Low(r.hold, b), b);
    var later := input[r0.pos..] + future;
    var j := r.pos - k - r0.pos;
    BytesDrop(later, j);
    assert later[j..] == input[r.pos - k..] + future;
    assert s0[r0.bits..] == BytesToBits(later);
    assert s0[r0.bits..][8 * j..] == s0[r0.bits + 8 * j..];
    var used := Left(r0, input) - Left(r, input);
    assert r0.bits + 8 * j == used + b;
    assert s0[used..][b..] == s0[used + b..];
    assert s == s[..b] + s[b..];
  }

  /** Decode until the block ends, an error is found, or too little input or output is left, then
      give back the whole bytes that were read but not used. */
  method InflateFast(lcode: Table, dcode: Table, ghost c: Codes, win: Window, r: Reader, out: seq<byte>, left: nat,
                     input: seq<byte>, ghost future: seq<byte>, ghost sent: seq<byte>)
    returns (m: Mode, r': Reader, out': seq<byte>)
    requires ValidCodes(c) && TableOk(lcode, LENS, c.ll) && TableOk(dcode, DISTS, c.dl)
    requires win.Holding(sent) && Ok(r, input) && r.pos + 6 <= |input| && left >= 258
    requires r.bits < 8 || Undecided(lcode, r, r.bits)
    ensures Ok(r', input) && r.pos <= r'.pos && r'.bits < 8 && |out| <= |out'| <= |out| + left
    ensures m == LEN || m == TYPE || m == BAD
    ensures Left(r', input) < Left(r, input)
    ensures Eval(c, m, Stream(r', input, future), sent + out') == Eval(c, LEN, Stream(r, input, future), sent + out)
  {
    hide Stream, Eval, TableOk, Low, Pow2, Holds, Undecided;
    m, r', out' := FastTurn(lcode, dcode, c, win, r, out, input, future, sent);
    while m == LEN && r'.pos + 6 <= |input| && |out'| + 258 <= |out| + left
      invariant Ahead(r, r', input, future) && |out| <= |out'| <= |out| + left
      invariant m == LEN || m == TYPE || m == BAD
      invariant Left(r', input) < Left(r, input)
      invariant r.bits < 8 || Left(r', input) < Left(r, input) - r.bits
      invariant Eval(c, m, Stream(r', input, future), sent + out') == Eval(c, LEN, Stream(r, input, future), sent + out)
      decreases Left(r', input)
    {
      ghost var r1 := r';
      m, r', out' := FastTurn(lcode, dcode, c, win, r', out', input, future, sent);
      AheadTrans(r, r1, r', input, future);
    }
    var len := r'.bits / 8;
    GiveBackKeeps(r, r', len, input, future);
    r' := GiveBack(r', len);
  }
}
