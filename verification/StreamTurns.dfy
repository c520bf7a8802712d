/** One turn of the state machine of inflate() in zlib/inflate.c, state by state. Whatever input comes later, no turn
    changes the final result. */
module StreamTurns {
  import opened Bits
  import opened InflateTable
  import opened InflateSpec
  import opened BitReader
  import opened InflateSteps
  import opened InflateWindow
  import opened CodedStates
  import opened BitWriter
  import opened CodeLengths
  import opened TreeCoding
  import opened BlockCost
  import opened BlockTables
  import opened BlockTypes
  import opened Header
  import opened StreamStates

  /** What holds between turns, in a stream of `end` bits. */
  ghost predicate Sound(st: Stage, r: Reader, input: seq<byte>, future: seq<byte>, end: nat) {
    && StageOk(st) && Ok(r, input) && Fed(st, r)
    && end % 8 == 0 && |Stream(r, input, future)| <= end
  }

  /** The final result. */
  ghost function Outlook(st: Stage, last: bool, r: Reader, input: seq<byte>, future: seq<byte>, end: nat,
                         out: seq<byte>): Outcome
    requires StageOk(st) && r.pos <= |input|
  {
    Result(st, last, end, Stream(r, input, future), out)
  }

  function StageRank(st: Stage): nat {
    match st
    case Finished => 0
    case Broken => 0
    case Head => 1
    case Copying(_) => 2
    case Coded(_, _, _, _) => 3
    case CodeLens(_, _, _, _, _) => 4
    case LenLens(_, _, _, _, _) => 5
    case _ => 6
  }

  function ModeRank(st: Stage): nat { if st.Coded? then Rank(st.m) else 0 }

  function CopyRank(st: Stage): nat { if st.Coded? then MatchLeft(st.m) else 0 }

  /** Progress: fewer unused bits, or a later state. */
  ghost predicate Lower(st': Stage, r': Reader, st: Stage, r: Reader, input: seq<byte>) {
    || Left(r', input) < Left(r, input)
    || (Left(r', input) == Left(r, input) && StageRank(st') < StageRank(st))
    || (Left(r', input) == Left(r, input) && StageRank(st') == StageRank(st) &&
        (ModeRank(st') < ModeRank(st) || (ModeRank(st') == ModeRank(st) && CopyRank(st') < CopyRank(st))))
  }

  /** Why a call ends: the stream has ended, the output is full, or the input is too short. */
  ghost predicate Stops(st: Stage, last: bool, r: Reader, input: seq<byte>, full: bool) {
    st == Finished || st == Broken || full || (r.pos == |input| && Hungry(st, last, r))
  }

  /** A turn that writes nothing. */
  ghost predicate Turned(go: bool, st': Stage, last': bool, r': Reader, st: Stage, last: bool, r: Reader,
                         input: seq<byte>, future: seq<byte>, end: nat, out: seq<byte>)
    requires StageOk(st) && r.pos <= |input|
  {
    && Sound(st', r', input, future, end)
    && Outlook(st', last', r', input, future, end, out) == Outlook(st, last, r, input, future, end, out)
    && (go ==> Lower(st', r', st, r, input))
    && (!go ==> Left(r', input) <= Left(r, input) && r'.pos == |input| && Hungry(st', last', r'))
  }

  /** The bits to the next byte are the odd ones of the accumulator. */
  lemma PadIs(r: Reader, input: seq<byte>, future: seq<byte>, end: nat)
    requires Ok(r, input) && end % 8 == 0 && |Stream(r, input, future)| <= end
    ensures Pad(end - |Stream(r, input, future)|) == r.bits % 8 <= r.bits
  {
    hide Stream;
    PadOdd(end / 8, |input| - r.pos + |future|, r.bits);
  }

  lemma PadOdd(bytes: nat, left: nat, bits: nat)
    requires bits + 8 * left <= 8 * bytes
    ensures Pad(8 * bytes - (bits + 8 * left)) == bits % 8
  {
    var n := 8 * bytes - (bits + 8 * left);
    assert n == 8 * (bytes - left - bits / 8) - bits % 8;
  }

  lemma SameRest(st: Stage, st': Stage, last: bool, end: nat, bits: seq<bool>, bits': seq<bool>, out: seq<byte>,
                 out': seq<byte>)
    requires StageOk(st) && StageOk(st') && st != Finished && st' != Finished
    requires BlockRest(st', end, bits', out') == BlockRest(st, end, bits, out)
    ensures Result(st', last, end, bits', out') == Result(st, last, end, bits, out)
  {
    hide BlockRest, StageOk, Ended;
  }

  lemma EndStep(end: nat, bits: seq<bool>, last: bool, out: seq<byte>)
    requires |bits| <= end && Pad(end - |bits|) <= |bits|
    ensures var pad := Pad(end - |bits|);
      Result(Head, true, end, bits, out) == Result(Finished, last, end, bits[pad..], out)
  {
    hide Pad;
    var pad := Pad(end - |bits|);
    PadTwice(end - |bits|);
    assert bits[pad..][0..] == bits[pad..];
  }

  /** TYPEDO */
  method HeadTurn(last: bool, r: Reader, input: seq<byte>, ghost future: seq<byte>, ghost end: nat,
                  ghost out: seq<byte>)
    returns (go: bool, st: Stage, last': bool, r': Reader)
    requires Sound(Head, r, input, future, end)
    ensures Turned(go, st, last', r', Head, last, r, input, future, end, out)
  {
    hide Stream, Result, TableOk, Low, Shr, FromBits, Pow2, StaticLengths, StaticDistances, Pad;
    if last {
      PadIs(r, input, future, end);
      DropKeeps(r, r.bits % 8, input, future);
      EndStep(end, Stream(r, input, future), true, out);
      return true, Finished, true, DropBits(r, r.bits % 8);
    }
    var ok, r1 := NeedBits(r, 3, input, future);
    if !ok { return false, Head, false, r1; }
    DropKeeps(r1, 1, input, future);
    var r2 := DropBits(r1, 1);
    DropKeeps(r2, 2, input, future);
    r' := DropBits(r2, 2);
    last' := Low(r1.hold, 1) == 1;
    var kind := Low(r2.hold, 2);
    st := Broken;
    if kind == 0 {
      st := StoredHead;
    } else if kind == 1 {
      var lt, dt := FixedTables();
      st := Coded(LEN, Fixed(), lt, dt);
    } else if kind == 2 {
      st := Counts;
    }
    go := true;
    FixedValid();
    TypeFields(Stream(r1, input, future));
    HeadGoes(end, Stream(r1, input, future), out, st);
  }

  lemma FixedValid()
    ensures ValidCodes(Fixed())
  {
    hide StaticLengths, StaticDistances;
  }

  lemma TypeFields(bits: seq<bool>)
    requires |bits| >= 3
    ensures bits[0] == (FromBits(bits[..1]) == 1) && bits[1..][..2] == bits[1..3] && bits[1..][2..] == bits[3..]
  {
  }

  lemma HeadGoes(end: nat, bits: seq<bool>, out: seq<byte>, st: Stage)
    requires 3 <= |bits| <= end && StageOk(st) && Starts(FromBits(bits[1..3]), st)
    ensures Result(st, bits[0], end, bits[3..], out) == Result(Head, false, end, bits, out)
  {
    hide Going, StageOk, Starts, FromBits;
    HeadStep(end, bits, out, st);
  }

  /** BYTEBITS() and NEEDBITS(32) */
  method NeedWord(r: Reader, input: seq<byte>, ghost future: seq<byte>, ghost end: nat, ghost out: seq<byte>)
    returns (ok: bool, r': Reader)
    requires Sound(StoredHead, r, input, future, end)
    ensures Ok(r', input) && Left(r', input) <= Left(r, input) && |Stream(r', input, future)| <= end
    ensures Pad(end - |Stream(r', input, future)|) == 0 && r'.bits % 8 == 0
    ensures if ok then r'.bits == 32 else r'.bits < 32 && r'.pos == |input|
    ensures InflateStored(end - |Stream(r', input, future)|, Stream(r', input, future), out) ==
      InflateStored(end - |Stream(r, input, future)|, Stream(r, input, future), out)
  {
    hide Stream, InflateStored, Shr, Pow2, Pad;
    PadIs(r, input, future, end);
    DropKeeps(r, r.bits % 8, input, future);
    StoredSkip(end, Stream(r, input, future), out);
    var r1 := DropBits(r, r.bits % 8);
    EvenBits(r.bits);
    ok, r' := NeedBits(r1, 32, input, future);
    WordBits(r1.bits, r'.bits, r'.pos - r1.pos);
    PadIs(r', input, future, end);
  }

  lemma EvenBits(bits: nat)
    ensures (bits - bits % 8) % 8 == 0
  {
  }

  lemma WordBits(a: nat, b: nat, n: nat)
    requires a % 8 == 0 && b == a + 8 * n
    ensures b % 8 == 0 && (32 <= b <= 39 ==> b == 32)
  {
  }

  /** STORED */
  method StoredTurn(last: bool, r: Reader, input: seq<byte>, ghost future: seq<byte>, ghost end: nat,
                    ghost out: seq<byte>)
    returns (go: bool, st: Stage, r': Reader)
    requires Sound(StoredHead, r, input, future, end)
    ensures Turned(go, st, last, r', StoredHead, last, r, input, future, end, out)
  {
    hide Stream, Result, InflateStored, Pow2, Pad, CopyRest;
    st := StoredHead;
    go, r' := NeedWord(r, input, future, end, out);
    if go { st, r' := StoredLength(r', input, future, end, out); }
    SameRest(StoredHead, st, last, end, Stream(r, input, future), Stream(r', input, future), out, out);
  }

  /** The length of a stored block and its complement: `x ^ 0xffff` is 65535 - x for a 16-bit number. */
  method StoredLength(r: Reader, input: seq<byte>, ghost future: seq<byte>, ghost end: nat, ghost out: seq<byte>)
    returns (st: Stage, r': Reader)
    requires Ok(r, input) && r.bits == 32 && |Stream(r, input, future)| <= end
    requires Pad(end - |Stream(r, input, future)|) == 0
    ensures Ok(r', input) && r'.bits == 0 && r'.pos == r.pos && (st == Broken || st.Copying?)
    ensures BlockRest(st, end, Stream(r', input, future), out) ==
      InflateStored(end - |Stream(r, input, future)|, Stream(r, input, future), out)
  {
    hide Stream, InflateStored, Low, Shr, FromBits, Pow2, Pad, CopyRest;
    ghost var bits := Stream(r, input, future);
    DropKeeps(r, 16, input, future);
    var r1 := DropBits(r, 16);
    DropKeeps(r1, 16, input, future);
    r' := DropBits(r1, 16);
    LowSmall(r1.hold, 16);
    var len := Low(r.hold, 16);
    st := if len != 65535 - r1.hold then Broken else Copying(len);
    StoredStep(end, bits, out);
    assert bits[16..][..16] == bits[16..32] && bits[16..][16..] == bits[32..];
  }

  /** COPY */
  method CopyTurn(left: nat, last: bool, r: Reader, out: seq<byte>, avail: nat, input: seq<byte>,
                  ghost future: seq<byte>, ghost end: nat, ghost sent: seq<byte>)
    returns (go: bool, st: Stage, r': Reader, out': seq<byte>)
    requires Sound(Copying(left), r, input, future, end) && |out| <= avail
    ensures Sound(st, r', input, future, end) && |out| <= |out'| <= avail
    ensures Outlook(st, last, r', input, future, end, sent + out') ==
      Outlook(Copying(left), last, r, input, future, end, sent + out)
    ensures go ==> Lower(st, r', Copying(left), r, input)
    ensures !go ==> r' == r && Stops(st, last, r', input, |out'| == avail)
  {
    hide Result, CopyRest, ToBits, BytesToBits;
    go, st, r', out' := true, Head, r, out;
    ghost var bits := Stream(r, input, future);
    if left == 0 {
      CopyEnd(bits, sent + out);
      SameRest(Copying(left), Head, last, end, bits, bits, sent + out, sent + out);
      return;
    }
    var copy := left;
    if copy > |input| - r.pos { copy := |input| - r.pos; }
    if copy > avail - |out| { copy := avail - |out|; }
    if copy == 0 { return false, Copying(left), r, out; }
    r' := Reader(r.hold, 0, r.pos + copy);
    out' := out + input[r.pos..r.pos + copy];
    st := Copying(left - copy);
    CopyGoes(left, copy, r, input, future, sent + out);
    assert sent + out' == sent + out + input[r.pos..r.pos + copy];
    SameRest(Copying(left), st, last, end, bits, Stream(r', input, future), sent + out, sent + out');
  }

  lemma CopyGoes(left: nat, copy: nat, r: Reader, input: seq<byte>, future: seq<byte>, out: seq<byte>)
    requires Ok(r, input) && r.bits == 0 && copy <= left && copy <= |input| - r.pos
    ensures CopyRest(left, Stream(r, input, future), out) ==
      CopyRest(left - copy, Stream(Reader(r.hold, 0, r.pos + copy), input, future), out + input[r.pos..r.pos + copy])
  {
    hide CopyRest, BytesToBits;
    var x, y := input[r.pos..r.pos + copy], input[r.pos + copy..] + future;
    assert input[r.pos..] + future == x + y;
    CopyStep(left, x, y, out);
    assert ToBits(r.hold, 0) == [];
    assert [] + BytesToBits(x + y) == BytesToBits(x + y) && [] + BytesToBits(y) == BytesToBits(y);
  }

  /** TABLE */
  method CountsTurn(last: bool, r: Reader, input: seq<byte>, ghost future: seq<byte>, ghost end: nat,
                    ghost out: seq<byte>)
    returns (go: bool, st: Stage, r': Reader)
    requires Sound(Counts, r, input, future, end)
    ensures Turned(go, st, last, r', Counts, last, r, input, future, end, out)
  {
    hide Stream, Result, ReadHeader, HeaderRest, LenLensRest, Low, Shr, FromBits, Pow2;
    ghost var bits := Stream(r, input, future);
    var ok, r1 := NeedBits(r, 14, input, future);
    if !ok { return false, Counts, r1; }
    DropKeeps(r1, 5, input, future);
    var r2 := DropBits(r1, 5);
    DropKeeps(r2, 5, input, future);
    var r3 := DropBits(r2, 5);
    DropKeeps(r3, 4, input, future);
    r' := DropBits(r3, 4);
    var nlen, ndist, ncode := Low(r1.hold, 5) + 257, Low(r2.hold, 5) + 1, Low(r3.hold, 4) + 4;
    assert bits[5..][..5] == bits[5..10] && bits[5..][5..][..4] == bits[10..14] && bits[5..][5..][4..] == bits[14..];
    CountsStep(bits);
    go := true;
    st := if nlen > 286 || ndist > 30 then Broken else LenLens(nlen, ndist, ncode, 0, Times(0, BL_CODES));
    BadHeader(out);
    SameRest(Counts, st, last, end, bits, Stream(r', input, future), out, out);
  }

  lemma BadHeader(out: seq<byte>)
    ensures HeaderRest(HeaderBad, out) == Invalid(out)
  {
  }

  /** The loop of LENLENS. */
  method LenLensLoop(st: Stage, r: Reader, input: seq<byte>, ghost future: seq<byte>)
    returns (ok: bool, k: nat, lens: seq<nat>, r': Reader)
    requires st.LenLens? && StageOk(st) && Ok(r, input) && r.bits < 8
    ensures Ok(r', input) && r'.bits < 8 && Left(r', input) <= Left(r, input)
    ensures st.k <= k <= st.ncode && CountsOk(st.nlen, st.ndist, lens)
    ensures if ok then k == st.ncode else k < st.ncode && r'.bits < 3 && r'.pos == |input|
    ensures LenLensRest(st.nlen, st.ndist, st.ncode, k, lens, Stream(r', input, future)) ==
      LenLensRest(st.nlen, st.ndist, st.ncode, st.k, st.lens, Stream(r, input, future))
  {
    hide Stream, LenLensRest, Low, Shr, FromBits, Pow2, OrderAt;
    k, lens, r' := st.k, st.lens, r;
    while k < st.ncode
      invariant Ok(r', input) && r'.bits < 8 && Left(r', input) <= Left(r, input)
      invariant st.k <= k <= st.ncode && CountsOk(st.nlen, st.ndist, lens)
      invariant LenLensRest(st.nlen, st.ndist, st.ncode, k, lens, Stream(r', input, future)) ==
        LenLensRest(st.nlen, st.ndist, st.ncode, st.k, st.lens, Stream(r, input, future))
    {
      ok, r' := NeedBits(r', 3, input, future);
      if !ok { return; }
      DropKeeps(r', 3, input, future);
      LenLensStep(st.nlen, st.ndist, st.ncode, k, lens, Stream(r', input, future));
      k, lens, r' := k + 1, lens[OrderAt(k) := Low(r'.hold, 3)], DropBits(r', 3);
    }
    ok := true;
  }

  /** LENLENS */
  method LenLensTurn(st: Stage, last: bool, r: Reader, input: seq<byte>, ghost future: seq<byte>, ghost end: nat,
                     ghost out: seq<byte>)
    returns (go: bool, st': Stage, r': Reader)
    requires st.LenLens? && Sound(st, r, input, future, end)
    ensures Turned(go, st', last, r', st, last, r, input, future, end, out)
  {
    hide Stream, Result, HeaderRest, LenLensRest, TablesFrom, Pow2, TableOk, Refused;
    ghost var bits := Stream(r, input, future);
    var k, lens;
    go, k, lens, r' := LenLensLoop(st, r, input, future);
    st' := LenLens(st.nlen, st.ndist, st.ncode, k, lens);
    if go {
      var ok, tab := MakeLenTable(lens);
      LenLensEnd(st.nlen, st.ndist, st.ncode, lens, Stream(r', input, future));
      BadHeader(out);
      st' := if ok then CodeLens(st.nlen, st.ndist, lens, tab, []) else Broken;
    }
    SameRest(st, st', last, end, bits, Stream(r', input, future), out, out);
  }

  /** CODELENS and the tables of the block. */
  method CodeLensTurn(st: Stage, last: bool, r: Reader, input: seq<byte>, ghost future: seq<byte>, ghost end: nat,
                      ghost out: seq<byte>)
    returns (go: bool, st': Stage, r': Reader)
    requires st.CodeLens? && Sound(st, r, input, future, end)
    ensures Turned(go, st', last, r', st, last, r, input, future, end, out)
  {
    hide Stream, Result, HeaderRest, TablesFrom, Pow2, TableOk, Refused, LensStarved, ReadLens, Roomy, Eval;
    var nlen, ndist := st.nlen, st.ndist;
    ghost var bits := Stream(r, input, future);
    var status, have;
    status, have, r' := ReadCodeLens(st.tab, nlen + ndist, st.have, r, input, future, st.bl);
    ghost var rest := Stream(r', input, future);
    TablesSame(st.bl, nlen, ndist, st.have, bits, have, rest, status == Failed);
    BadHeader(out);
    go, st' := true, Broken;
    if status == NeedInput {
      go, st' := false, CodeLens(nlen, ndist, st.bl, st.tab, have);
    } else if status == Complete {
      var ll, dl := have[..nlen], have[nlen..];
      TablesEnd(st.bl, nlen, ndist, have, rest, out);
      if have[256] != 0 {
        PlannedRoom(ll, dl);
        var ok, lt, dt := MakeTables(Codes(ll, dl), 6);
        if ok { st' := Coded(LEN, Codes(ll, dl), lt, dt); }
      }
    }
    SameRest(st, st', last, end, bits, rest, out, out);
  }

  lemma TablesSame(bl: seq<nat>, nlen: nat, ndist: nat, have: seq<nat>, bits: seq<bool>, have': seq<nat>,
                   bits': seq<bool>, failed: bool)
    requires CountsOk(nlen, ndist, bl) && |have| <= nlen + ndist && |have'| <= nlen + ndist
    requires ReadLens(bl, nlen + ndist, have, bits)
          == if failed then LensBad else ReadLens(bl, nlen + ndist, have', bits')
    ensures TablesFrom(bl, nlen, ndist, have, bits)
         == if failed then HeaderBad else TablesFrom(bl, nlen, ndist, have', bits')
  {
    hide ReadLens, Refused;
  }

  lemma TablesEnd(bl: seq<nat>, nlen: nat, ndist: nat, have: seq<nat>, bits: seq<bool>, out: seq<byte>)
    requires CountsOk(nlen, ndist, bl) && |have| == nlen + ndist
    ensures ValidCodes(Codes(have[..nlen], have[nlen..]))
    ensures HeaderRest(TablesFrom(bl, nlen, ndist, have, bits), out) ==
      if have[256] == 0 || Refused(LENS, have[..nlen]) || Refused(DISTS, have[nlen..]) then Invalid(out)
      else Eval(Codes(have[..nlen], have[nlen..]), LEN, bits, out)
  {
    hide Refused, Eval;
  }

  lemma PlannedRoom(ll: seq<nat>, dl: seq<nat>)
    requires |ll| <= 286 && |dl| <= 30
    ensures Roomy(LENS, ll, 9) && Roomy(DISTS, dl, 6)
  {
  }

  lemma CodedEnds(c: Codes, lt: Table, dt: Table, r: Reader, bits: seq<bool>, out: seq<byte>)
    requires ValidCodes(c)
    ensures Eval(c, TYPE, bits, out) == Done(out, bits) && Eval(c, BAD, bits, out) == Invalid(out)
    ensures Settled(lt, dt, TYPE, r) ==> r.bits < 8
  {
  }

  /** The states of a coded block; TYPE and BAD are left at once. */
  method BlockTurn(st: Stage, last: bool, win: Window, r: Reader, out: seq<byte>, avail: nat, input: seq<byte>,
                   ghost future: seq<byte>, ghost end: nat, ghost sent: seq<byte>)
    returns (go: bool, st': Stage, r': Reader, out': seq<byte>)
    requires st.Coded? && Sound(st, r, input, future, end) && |out| <= avail && win.Holding(sent)
    ensures Sound(st', r', input, future, end) && |out| <= |out'| <= avail
    ensures Outlook(st', last, r', input, future, end, sent + out') ==
      Outlook(st, last, r, input, future, end, sent + out)
    ensures go ==> Lower(st', r', st, r, input)
    ensures !go ==> Left(r', input) <= Left(r, input) && Stops(st', last, r', input, |out'| == avail)
  {
    hide Stream, Result, Eval, TableOk, Pow2, Holds, Starved, Decode;
    var m;
    go, m, r', out' := CodedTurn(st.lt, st.dt, win, st.m, r, out, avail, input, st.c, future, sent);
    CodedEnds(st.c, st.lt, st.dt, r', Stream(r', input, future), sent + out');
    if m == TYPE {
      go, st' := true, Head;
    } else if m == BAD {
      go, st' := true, Broken;
    } else {
      st' := Coded(m, st.c, st.lt, st.dt);
    }
    SameRest(st, st', last, end, Stream(r, input, future), Stream(r', input, future), sent + out, sent + out');
  }

  /** One turn of `for (;;) switch (state->mode)`; go is false for `goto inf_leave`. */
  method Turn(st: Stage, last: bool, win: Window, r: Reader, out: seq<byte>, avail: nat, input: seq<byte>,
              ghost future: seq<byte>, ghost end: nat, ghost sent: seq<byte>)
    returns (go: bool, st': Stage, last': bool, r': Reader, out': seq<byte>)
    requires Sound(st, r, input, future, end) && |out| <= avail
    requires st.Coded? ==> win.Holding(sent)
    ensures Sound(st', r', input, future, end) && |out| <= |out'| <= avail
    ensures Outlook(st', last', r', input, future, end, sent + out') ==
      Outlook(st, last, r, input, future, end, sent + out)
    ensures go ==> Lower(st', r', st, r, input)
    ensures !go ==> Left(r', input) <= Left(r, input) && Stops(st', last', r', input, |out'| == avail)
    ensures st == Broken || st == Finished ==> !go && st' == st && out' == out
  {
    hide Sound, Outlook, Lower, Hungry, Holds;
    last', r', out' := last, r, out;
    match st
    case Head => go, st', last', r' := HeadTurn(last, r, input, future, end, sent + out);
    case StoredHead => go, st', r' := StoredTurn(last, r, input, future, end, sent + out);
    case Copying(left) => go, st', r', out' := CopyTurn(left, last, r, out, avail, input, future, end, sent);
    case Counts => go, st', r' := CountsTurn(last, r, input, future, end, sent + out);
    case LenLens(_, _, _, _, _) => go, st', r' := LenLensTurn(st, last, r, input, future, end, sent + out);
    case CodeLens(_, _, _, _, _) => go, st', r' := CodeLensTurn(st, last, r, input, future, end, sent + out);
    case Coded(_, _, _, _) => go, st', r', out' := BlockTurn(st, last, win, r, out, avail, input, future, end, sent);
    case Finished => go, st' := false, st;
    case Broken => go, st' := false, st;
  }

  lemma LowerMeans(st': Stage, r': Reader, st: Stage, r: Reader, input: seq<byte>)
    requires Lower(st', r', st, r, input)
    ensures Left(r', input) <= Left(r, input)
    ensures Left(r', input) == Left(r, input) ==> StageRank(st') <= StageRank(st)
    ensures Left(r', input) == Left(r, input) && StageRank(st') == StageRank(st) ==> ModeRank(st') <= ModeRank(st)
    ensures Left(r', input) == Left(r, input) && StageRank(st') == StageRank(st) && ModeRank(st') == ModeRank(st) ==>
      CopyRank(st') < CopyRank(st)
  {
  }

  /** The turns of one call. */
  method Turns(st: Stage, last: bool, win: Window, r: Reader, avail: nat, input: seq<byte>, ghost future: seq<byte>,
               ghost end: nat, ghost sent: seq<byte>)
    returns (st': Stage, last': bool, r': Reader, out: seq<byte>)
    requires Sound(st, r, input, future, end) && (st.Broken? || st.Finished? || win.Holding(sent))
    ensures Sound(st', r', input, future, end) && |out| <= avail && Left(r', input) <= Left(r, input)
    ensures Outlook(st', last', r', input, future, end, sent + out) == Outlook(st, last, r, input, future, end, sent)
    ensures Stops(st', last', r', input, |out| == avail)
    ensures st.Broken? || st.Finished? ==> st' == st && out == []
  {
    hide StageOk, Fed, Result, Pow2, Holds, Lower, Hungry, Stream;
    st', last', r', out := st, last, r, [];
    assert sent + out == sent;
    var go := true;
    while go
      invariant Sound(st', r', input, future, end) && |out| <= avail && Left(r', input) <= Left(r, input)
      invariant Outlook(st', last', r', input, future, end, sent + out) ==
        Outlook(st, last, r, input, future, end, sent)
      invariant st.Broken? || st.Finished? ==> st' == st && out == []
      invariant !go ==> Stops(st', last', r', input, |out| == avail)
      decreases go, Left(r', input), StageRank(st'), ModeRank(st'), CopyRank(st')
    {
      ghost var st0, r0 := st', r';
      go, st', last', r', out := Turn(st', last', win, r', out, avail, input, future, end, sent);
      if go { LowerMeans(st', r', st0, r0, input); }
    }
  }
}
