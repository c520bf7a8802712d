/** The states LEN, LENEXT, DIST and DISTEXT of inflate(): each step of the resumable machine
    keeps the final result that the specification gives for the stream. */
module InflateSteps {
  import opened Bits
  import opened DecodeTable
  import opened InflateTable
  import opened InflateSpec
  import opened BitReader

  /** What is known of the fields that are live in each state. */
  ghost predicate ModeOk(m: Mode) {
    match m
    case LENEXT(length, extra) => extra <= 5 && 3 <= length && length + Pow2(extra) <= 259
    case DIST(length) => 3 <= length <= 258
    case DISTEXT(length, offset, extra) =>
      3 <= length <= 258 && 1 <= offset && extra <= 13 && offset + Pow2(extra) <= 32769
    case MATCH(length, offset) => 1 <= length <= 258 && 1 <= offset <= 32768
    case _ => true
  }

  /** Unused bits: those in the accumulator and those in the input of this call. */
  function Left(r: Reader, input: seq<byte>): int { r.bits + 8 * (|input| - r.pos) }

  /** `op & 16`, `op & 32` and `op & 64` */
  predicate OpBit(op: nat, mask: nat) requires mask > 0 { (op / mask) % 2 == 1 }

  /** The state after a literal/length entry with this op and val, as the code tests it. */
  function LengthMode(op: nat, val: nat): Mode
    requires op == 0 ==> val < 256
  {
    if op == 0 then LIT(val)
    else if OpBit(op, 32) then TYPE
    else if OpBit(op, 64) then BAD
    else LENEXT(val, op % 16)
  }

  function DistMode(length: nat, op: nat, val: nat): Mode {
    if OpBit(op, 64) then BAD else DISTEXT(length, val, op % 16)
  }

  lemma LengthModeOf(s: nat)
    requires InAlphabet(LENS, s + 1)
    ensures var e := SymbolEntry(LENS, s, 0);
      && (e.op == 0 ==> e.val < 256)
      && LengthMode(e.op, e.val) == AfterLength(s)
      && ModeOk(AfterLength(s))
  {
    hide SymbolEntry, Pow2;
    LengthKind(s);
  }

  lemma DistModeOf(s: nat, length: nat)
    requires InAlphabet(DISTS, s + 1) && 3 <= length <= 258
    ensures var e := SymbolEntry(DISTS, s, 0);
      DistMode(length, e.op, e.val) == AfterDistance(length, s) && ModeOk(AfterDistance(length, s))
  {
    hide SymbolEntry, Pow2;
    DistKind(s);
  }

  /** A decided length code: the state it leads to continues with the same result. */
  lemma LengthKeeps(c: Codes, tab: Table, r: Reader, input: seq<byte>, future: seq<byte>, hist: seq<byte>)
    requires ValidCodes(c) && TableOk(tab, LENS, c.ll) && Ok(r, input)
    requires var f := Lookup(tab.t, tab.root, r.hold); f.Found? && f.drop <= r.bits
    ensures var f := Lookup(tab.t, tab.root, r.hold);
      && (f.op == 0 ==> f.val < 256)
      && ModeOk(LengthMode(f.op, f.val)) && !LengthMode(f.op, f.val).LEN?
      && Eval(c, LengthMode(f.op, f.val), Stream(DropBits(r, f.drop), input, future), hist)
         == Eval(c, LEN, Stream(r, input, future), hist)
  {
    hide Lookup, Usable, Decodes, Stream, Pow2, Meaning, SymbolEntry;
    var ents := Meaning(LENS, |c.ll|);
    var f := Lookup(tab.t, tab.root, r.hold);
    var bits := Stream(r, input, future);
    HitIsSymbol(tab.t, tab.root, c.ll, ents, r, input, future);
    DropKeeps(r, f.drop, input, future);
    match Decode(c.ll, bits)
    case Symbol(s) =>
      LengthModeOf(s);
    case NoCode =>
    case TooShort =>
  }

  lemma DistKeeps(c: Codes, tab: Table, r: Reader, input: seq<byte>, future: seq<byte>, hist: seq<byte>, length: nat)
    requires ValidCodes(c) && TableOk(tab, DISTS, c.dl) && Ok(r, input) && 3 <= length <= 258
    requires var f := Lookup(tab.t, tab.root, r.hold); f.Found? && f.drop <= r.bits
    ensures var f := Lookup(tab.t, tab.root, r.hold);
      && ModeOk(DistMode(length, f.op, f.val))
      && Eval(c, DistMode(length, f.op, f.val), Stream(DropBits(r, f.drop), input, future), hist)
         == Eval(c, DIST(length), Stream(r, input, future), hist)
  {
    hide Lookup, Usable, Decodes, Stream, Pow2, Meaning, SymbolEntry;
    var ents := Meaning(DISTS, |c.dl|);
    var f := Lookup(tab.t, tab.root, r.hold);
    var bits := Stream(r, input, future);
    HitIsSymbol(tab.t, tab.root, c.dl, ents, r, input, future);
    DropKeeps(r, f.drop, input, future);
    match Decode(c.dl, bits)
    case Symbol(s) =>
      DistModeOf(s, length);
    case NoCode =>
    case TooShort =>
  }

  /** LEN: decode a literal/length code, or stop in the same state when the input runs out. */
  method StepLen(tab: Table, ghost c: Codes, r: Reader, input: seq<byte>, ghost future: seq<byte>,
                 ghost hist: seq<byte>)
    returns (go: bool, m: Mode, r': Reader)
    requires ValidCodes(c) && TableOk(tab, LENS, c.ll) && Ok(r, input)
    requires r.bits < 8 || Undecided(tab, r, r.bits)
    ensures Ok(r', input) && r.pos <= r'.pos && ModeOk(m)
    ensures Eval(c, m, Stream(r', input, future), hist) == Eval(c, LEN, Stream(r, input, future), hist)
    ensures !go ==> m == LEN && r'.pos == |input| && Undecided(tab, r', r'.bits)
    ensures !go ==> r'.bits == r.bits + 8 * (|input| - r.pos)
    ensures go ==> !m.LEN? && Left(r', input) < Left(r, input) && r'.bits < 8
    ensures Decode(c.ll, Stream(r, input, future)).TooShort? ==> !go
  {
    hide Lookup, Usable, Decodes, Stream, Pow2, Meaning, Eval, Decode;
    var ok, f, r1 := FetchCode(tab, r, input, future, c.ll, Meaning(LENS, |c.ll|));
    if !ok { return false, LEN, r1; }
    HitIsSymbol(tab.t, tab.root, c.ll, Meaning(LENS, |c.ll|), r1, input, future);
    FoundCases(tab.t, tab.root, c.ll, Meaning(LENS, |c.ll|), r1.hold);
    LengthKeeps(c, tab, r1, input, future, hist);
    DropKeeps(r1, f.drop, input, future);
    return true, LengthMode(f.op, f.val), DropBits(r1, f.drop);
  }

  /** DIST: decode a distance code. */
  method StepDist(tab: Table, ghost c: Codes, length: nat, r: Reader, input: seq<byte>, ghost future: seq<byte>,
                  ghost hist: seq<byte>)
    returns (go: bool, m: Mode, r': Reader)
    requires ValidCodes(c) && TableOk(tab, DISTS, c.dl) && Ok(r, input) && 3 <= length <= 258
    requires r.bits < 8 || Undecided(tab, r, r.bits)
    ensures Ok(r', input) && r.pos <= r'.pos && ModeOk(m)
    ensures Eval(c, m, Stream(r', input, future), hist) == Eval(c, DIST(length), Stream(r, input, future), hist)
    ensures !go ==> m == DIST(length) && r'.pos == |input| && Undecided(tab, r', r'.bits)
    ensures Left(r', input) <= Left(r, input)
    ensures go ==> Left(r', input) < Left(r, input) && r'.bits < 8
    ensures go ==> m == BAD || m.DISTEXT?
  {
    hide Lookup, Usable, Decodes, Stream, Pow2, Meaning, Eval;
    var ok, f, r1 := FetchCode(tab, r, input, future, c.dl, Meaning(DISTS, |c.dl|));
    if !ok { return false, DIST(length), r1; }
    FoundCases(tab.t, tab.root, c.dl, Meaning(DISTS, |c.dl|), r1.hold);
    DistKeeps(c, tab, r1, input, future, hist, length);
    DropKeeps(r1, f.drop, input, future);
    return true, DistMode(length, f.op, f.val), DropBits(r1, f.drop);
  }

  /** The state once the extra bits x are known. */
  function AddExtra(m: Mode, x: nat): Mode
    requires m.LENEXT? || m.DISTEXT?
  {
    if m.LENEXT? then DIST(m.length + x) else MATCH(m.length, m.offset + x)
  }

  lemma ExtraKeeps(c: Codes, m: Mode, r: Reader, input: seq<byte>, future: seq<byte>, hist: seq<byte>)
    requires ValidCodes(c) && (m.LENEXT? || m.DISTEXT?) && ModeOk(m) && Ok(r, input) && m.extra <= r.bits
    ensures ModeOk(AddExtra(m, Low(r.hold, m.extra))) && Ok(DropBits(r, m.extra), input)
    ensures Eval(c, AddExtra(m, Low(r.hold, m.extra)), Stream(DropBits(r, m.extra), input, future), hist)
         == Eval(c, m, Stream(r, input, future), hist)
  {
    hide Stream, Pow2, Low;
    DropKeeps(r, m.extra, input, future);
  }

  /** LENEXT and DISTEXT: add the extra bits. */
  method StepExtra(ghost c: Codes, m: Mode, r: Reader, input: seq<byte>, ghost future: seq<byte>, ghost hist: seq<byte>)
    returns (go: bool, m': Mode, r': Reader)
    requires ValidCodes(c) && (m.LENEXT? || m.DISTEXT?) && ModeOk(m) && Ok(r, input)
    requires r.bits < 8 || r.bits < m.extra
    ensures Ok(r', input) && r.pos <= r'.pos && ModeOk(m')
    ensures Eval(c, m', Stream(r', input, future), hist) == Eval(c, m, Stream(r, input, future), hist)
    ensures !go ==> m' == m && r'.pos == |input| && r'.bits < m.extra
    ensures Left(r', input) <= Left(r, input)
    ensures go ==> Left(r', input) <= Left(r, input) && r'.bits < 8
    ensures go ==> m'.DIST? == m.LENEXT? && m'.MATCH? == m.DISTEXT?
  {
    hide Stream, Pow2, Low, Eval;
    var ok, r1 := NeedBits(r, m.extra, input, future);
    if !ok { return false, m, r1; }
    ExtraKeeps(c, m, r1, input, future, hist);
    return true, AddExtra(m, Low(r1.hold, m.extra)), DropBits(r1, m.extra);
  }
}
