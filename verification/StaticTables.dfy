/** tr_static_init() of zlib/trees.c: the maps from match lengths and distances to their codes.
    They are the inverse of the base and extra-bits tables that inflate uses. */
module StaticTables {
  import opened Bits
  import opened InflateTable

  const LENGTH_CODES: nat := 29
  const D_CODES: nat := 30
  const EXTRA_LBITS: seq<nat> :=
    [0, 0, 0, 0, 0, 0, 0, 0, 1, 1, 1, 1, 2, 2, 2, 2, 3, 3, 3, 3, 4, 4, 4, 4, 5, 5, 5, 5, 0]
  const EXTRA_DBITS: seq<nat> :=
    [0, 0, 0, 0, 1, 1, 2, 2, 3, 3, 4, 4, 5, 5, 6, 6, 7, 7, 8, 8, 9, 9, 10, 10, 11, 11, 12, 12, 13, 13]

  function ExtraL(k: nat): nat requires k < LENGTH_CODES { EXTRA_LBITS[k] }
  function BaseL(k: nat): nat requires k < LENGTH_CODES { LBASE[k] }
  function ExtraD(k: nat): nat requires k < D_CODES { EXTRA_DBITS[k] }
  function BaseD(k: nat): nat requires k < D_CODES { DBASE[k] }

  /** Row k of the length tables: the bases follow each other without gaps up to the special code
      for 258, which has no extra bits. */
  lemma LengthStep(k: nat)
    requires k < LENGTH_CODES
    ensures LEXT[k] == 16 + ExtraL(k) && BaseL(k) >= 3 && ExtraL(k) <= 5
    ensures k == 0 ==> BaseL(k) == 3
    ensures k + 2 < LENGTH_CODES ==> BaseL(k + 1) == BaseL(k) + Pow2(ExtraL(k))
    ensures k + 2 == LENGTH_CODES ==> BaseL(k) - 3 + Pow2(ExtraL(k)) == 256
    ensures k + 1 == LENGTH_CODES ==> BaseL(k) == 258 && ExtraL(k) == 0
  {
    if k < 9 { LengthRowA(k); } else if k < 18 { LengthRowB(k); } else { LengthRowC(k); }
  }

  lemma LengthRowA(k: nat)
    requires k < 9
    ensures LEXT[k] == 16 + ExtraL(k) && BaseL(k) >= 3 && ExtraL(k) <= 5 && (k == 0 ==> BaseL(k) == 3)
    ensures BaseL(k + 1) == BaseL(k) + Pow2(ExtraL(k))
  {
    hide Pow2;
    SmallPowers();
  }

  lemma LengthRowB(k: nat)
    requires 9 <= k < 18
    ensures LEXT[k] == 16 + ExtraL(k) && BaseL(k) >= 3 && ExtraL(k) <= 5
    ensures BaseL(k + 1) == BaseL(k) + Pow2(ExtraL(k))
  {
    hide Pow2;
    SmallPowers();
  }

  lemma LengthRowC(k: nat)
    requires 18 <= k < LENGTH_CODES
    ensures LEXT[k] == 16 + ExtraL(k) && BaseL(k) >= 3 && ExtraL(k) <= 5
    ensures k + 2 < LENGTH_CODES ==> BaseL(k + 1) == BaseL(k) + Pow2(ExtraL(k))
    ensures k + 2 == LENGTH_CODES ==> BaseL(k) - 3 + Pow2(ExtraL(k)) == 256
    ensures k + 1 == LENGTH_CODES ==> BaseL(k) == 258 && ExtraL(k) == 0
  {
    hide Pow2;
    SmallPowers();
  }

  lemma {:induction false} LengthBound(k: nat)
    requires k < LENGTH_CODES - 1
    ensures BaseL(k) - 3 + Pow2(ExtraL(k)) <= 256
    decreases LENGTH_CODES - k
  {
    hide Pow2, BaseL, ExtraL;
    LengthStep(k);
    if k + 2 < LENGTH_CODES { LengthBound(k + 1); }
  }

  lemma {:induction false} DistBound(k: nat)
    requires k < D_CODES
    ensures BaseD(k) - 1 + Pow2(ExtraD(k)) <= 32768
    decreases D_CODES - k
  {
    hide Pow2, BaseD, ExtraD;
    DistStep(k);
    if k + 1 < D_CODES { DistBound(k + 1); }
  }

  /** Row k of the distance tables. */
  lemma DistStep(k: nat)
    requires k < D_CODES
    ensures DEXT[k] == 16 + ExtraD(k) && BaseD(k) >= 1 && ExtraD(k) <= 13
    ensures k == 0 ==> BaseD(k) == 1
    ensures k + 1 < D_CODES ==> BaseD(k + 1) == BaseD(k) + Pow2(ExtraD(k))
    ensures k + 1 == D_CODES ==> BaseD(k) - 1 + Pow2(ExtraD(k)) == 32768
    ensures k == 16 ==> BaseD(k) - 1 == 256
    ensures k >= 16 ==> ExtraD(k) >= 7
  {
    if k < 8 { DistRowA(k); } else if k < 15 { DistRowB(k); } else { DistRowHigh(k); }
  }

  lemma DistRowA(k: nat)
    requires k < 8
    ensures DEXT[k] == 16 + ExtraD(k) && BaseD(k) >= 1 && ExtraD(k) <= 13 && (k == 0 ==> BaseD(k) == 1)
    ensures BaseD(k + 1) == BaseD(k) + Pow2(ExtraD(k)) <= 257
  {
    hide Pow2;
    SmallPowers();
  }

  lemma DistRowB(k: nat)
    requires 8 <= k < 15
    ensures DEXT[k] == 16 + ExtraD(k) && BaseD(k) >= 1 && ExtraD(k) <= 13
    ensures BaseD(k + 1) == BaseD(k) + Pow2(ExtraD(k)) <= 257
  {
    hide Pow2;
    SmallPowers();
  }

  lemma DistRowHigh(k: nat)
    requires 15 <= k < D_CODES
    ensures DEXT[k] == 16 + ExtraD(k) && BaseD(k) >= 1 && ExtraD(k) <= 13
    ensures k + 1 < D_CODES ==> BaseD(k + 1) == BaseD(k) + Pow2(ExtraD(k))
    ensures k + 1 == D_CODES ==> BaseD(k) - 1 + Pow2(ExtraD(k)) == 32768
    ensures k == 16 ==> BaseD(k) - 1 == 256
    ensures k == 15 ==> BaseD(k + 1) == 257
    ensures k >= 16 ==> ExtraD(k) >= 7
  {
    hide Pow2;
    SmallPowers();
  }

  /** lc is a match length minus 3; code k with lc - base as extra bits decodes to the same length. */
  ghost predicate LengthCodeOk(k: nat, base: nat, lc: nat) {
    && k < LENGTH_CODES
    && if ExtraL(k) == 0 then BaseL(k) == lc + 3
       else base <= lc && lc - base < Pow2(ExtraL(k)) && BaseL(k) + (lc - base) == lc + 3
  }

  /** The same for a distance minus 1. */
  ghost predicate DistCodeOk(k: nat, base: nat, d: nat) {
    && k < D_CODES
    && base <= d && d - base < Pow2(ExtraD(k)) && BaseD(k) + (d - base) == d + 1
  }

  ghost predicate LengthTables(lengthCode: seq<nat>, baseLength: seq<nat>) {
    && |lengthCode| == 256 && |baseLength| == LENGTH_CODES
    && forall lc: nat :: lc < 256 ==>
         lengthCode[lc] < LENGTH_CODES && LengthCodeOk(lengthCode[lc], baseLength[lengthCode[lc]], lc)
  }

  /** d_code */
  function DCode(distCode: seq<nat>, d: nat): nat
    requires |distCode| == 512 && d < 32768
  {
    if d < 256 then distCode[d] else distCode[256 + d / 128]
  }

  ghost predicate DistTables(distCode: seq<nat>, baseDist: seq<nat>) {
    && |distCode| == 512 && |baseDist| == D_CODES
    && forall d: nat :: d < 32768 ==>
         DCode(distCode, d) < D_CODES && DistCodeOk(DCode(distCode, d), baseDist[DCode(distCode, d)], d)
  }

  /** The entries of _length_code below `length` are right. */
  ghost predicate LengthsUpTo(lengthCode: seq<nat>, length: nat, code: nat) {
    && length <= |lengthCode| && code <= LENGTH_CODES
    && forall lc: nat :: lc < length ==>
         lengthCode[lc] < code && BaseL(lengthCode[lc]) >= 3 &&
           LengthCodeOk(lengthCode[lc], BaseL(lengthCode[lc]) - 3, lc)
  }

  /** _length_code and base_length */
  method InitLengths() returns (lengthCode: array<nat>, baseLength: array<nat>)
    ensures fresh(lengthCode) && fresh(baseLength) && LengthTables(lengthCode[..], baseLength[..])
  {
    hide Pow2, ExtraL, BaseL;
    lengthCode := new nat[256](_ => 0);
    baseLength := new nat[LENGTH_CODES](_ => 0);
    var length := 0;
    LengthStep(0);
    for code := 0 to LENGTH_CODES - 1
      invariant length == (if code < LENGTH_CODES - 1 then BaseL(code) - 3 else 256)
      invariant forall i: nat :: i < code ==> baseLength[i] == BaseL(i) - 3
      invariant LengthsUpTo(lengthCode[..], length, code)
    {
      LengthStep(code);
      LengthStep(code + 1);
      LengthBound(code);
      baseLength[code] := length;
      length := FillLengths(lengthCode, length, code);
    }
    LengthStep(LENGTH_CODES - 1);
    LengthsEnd(lengthCode[..], baseLength[..]);
    ghost var was: seq<nat> := lengthCode[..];
    lengthCode[length - 1] := LENGTH_CODES - 1;
    assert lengthCode[..] == was[255 := LENGTH_CODES - 1];
  }

  /** The longest length gets a code of its own. */
  lemma LengthsEnd(lengthCode: seq<nat>, baseLength: seq<nat>)
    requires |lengthCode| == 256 && |baseLength| == LENGTH_CODES && LengthsUpTo(lengthCode, 256, LENGTH_CODES - 1)
    requires forall i: nat :: i < LENGTH_CODES - 1 ==> baseLength[i] == BaseL(i) - 3
    requires BaseL(LENGTH_CODES - 1) == 258 && ExtraL(LENGTH_CODES - 1) == 0
    ensures LengthTables(lengthCode[255 := LENGTH_CODES - 1], baseLength)
  {
    hide Pow2, ExtraL, BaseL;
  }

  /** The inner loop: 2^extra consecutive lengths get the same code. */
  method FillLengths(lengthCode: array<nat>, start: nat, code: nat) returns (length: nat)
    requires code < LENGTH_CODES - 1 && BaseL(code) >= 3 && start == BaseL(code) - 3
    requires start + Pow2(ExtraL(code)) <= lengthCode.Length && LengthsUpTo(lengthCode[..], start, code)
    modifies lengthCode
    ensures length == start + Pow2(ExtraL(code)) && LengthsUpTo(lengthCode[..], length, code + 1)
  {
    hide Pow2, ExtraL, BaseL;
    length := start;
    assert ExtraL(code) == 0 ==> Pow2(ExtraL(code)) == 1 by { SmallPowers(); }
    for n := 0 to Pow2(ExtraL(code))
      invariant length == start + n
      invariant LengthsUpTo(lengthCode[..], length, code + 1)
    {
      lengthCode[length] := code;
      length := length + 1;
    }
  }

  ghost predicate DistsUpTo(distCode: seq<nat>, dist: nat, code: nat) {
    && dist <= |distCode| && code <= D_CODES
    && forall d: nat :: d < dist ==>
         distCode[d] < code && BaseD(distCode[d]) >= 1 && DistCodeOk(distCode[d], BaseD(distCode[d]) - 1, d)
  }

  /** Entries 256 + q of _dist_code for 2 <= q < top: all distances with those top bits. */
  ghost predicate FarDistsUpTo(distCode: seq<nat>, top: nat, code: nat) {
    && |distCode| == 512 && top <= 256 && code <= D_CODES
    && forall q: nat :: 2 <= q < top ==> FarAt(distCode, q, code)
  }

  ghost predicate FarAt(distCode: seq<nat>, q: nat, code: nat) {
    256 + q < |distCode| && FarOk(distCode[256 + q], q, code)
  }

  ghost predicate FarOk(k: nat, q: nat, code: nat) {
    && k < code <= D_CODES && ExtraD(k) >= 7 && BaseD(k) >= 1
    && BaseD(k) - 1 <= 128 * q && 128 * q + 127 < BaseD(k) - 1 + Pow2(ExtraD(k))
  }

  /** Distances up to 256: one entry each. */
  method InitNear(distCode: array<nat>, baseDist: array<nat>)
    requires distCode.Length == 512 && baseDist.Length == D_CODES && distCode != baseDist
    modifies distCode, baseDist
    ensures forall i: nat :: i < 16 ==> baseDist[i] == BaseD(i) - 1
    ensures DistsUpTo(distCode[..256], 256, 16)
  {
    hide Pow2, ExtraD, BaseD;
    var dist := 0;
    DistStep(0);
    for code := 0 to 16
      invariant dist == BaseD(code) - 1 <= 256
      invariant forall i: nat :: i < code ==> baseDist[i] == BaseD(i) - 1
      invariant DistsUpTo(distCode[..], dist, code)
    {
      NearRow(code);
      baseDist[code] := dist;
      dist := FillDists(distCode, dist, code);
    }
    DistStep(16);
  }

  /** Larger distances: one entry for each value of their top bits. */
  method InitFar(distCode: array<nat>, baseDist: array<nat>)
    requires distCode.Length == 512 && baseDist.Length == D_CODES && distCode != baseDist
    requires forall i: nat :: i < 16 ==> baseDist[i] == BaseD(i) - 1
    modifies distCode, baseDist
    ensures distCode[..256] == old(distCode[..256]) && FarDistsUpTo(distCode[..], 256, D_CODES)
    ensures forall i: nat :: i < D_CODES ==> baseDist[i] == BaseD(i) - 1
  {
    hide Pow2, ExtraD, BaseD;
    DistStep(16);
    var dist := 2;
    for code := 16 to D_CODES
      invariant 128 * dist == (if code < D_CODES then BaseD(code) - 1 else 32768)
      invariant forall i: nat :: i < code ==> baseDist[i] == BaseD(i) - 1
      invariant distCode[..256] == old(distCode[..256]) && FarDistsUpTo(distCode[..], dist, code)
    {
      DistStep(code);
      DistBound(code);
      if code + 1 < D_CODES { DistStep(code + 1); }
      baseDist[code] := 128 * dist;
      dist := FillFar(distCode, dist, code);
    }
  }

  /** _dist_code and base_dist */
  method InitDists() returns (distCode: array<nat>, baseDist: array<nat>)
    ensures fresh(distCode) && fresh(baseDist) && DistTables(distCode[..], baseDist[..])
  {
    hide *;
    distCode := new nat[512](_ => 0);
    baseDist := new nat[D_CODES](_ => 0);
    InitNear(distCode, baseDist);
    InitFar(distCode, baseDist);
    assert distCode[..][..256] == distCode[..256];
    AllDists(distCode[..], baseDist[..]);
  }

  lemma NearRow(k: nat)
    requires k < 16
    ensures BaseD(k) >= 1 && BaseD(k + 1) == BaseD(k) + Pow2(ExtraD(k)) && BaseD(k + 1) <= 257
  {
    hide Pow2;
    if k < 8 { DistRowA(k); } else if k < 15 { DistRowB(k); } else { DistRowHigh(k); }
  }

  method FillDists(distCode: array<nat>, start: nat, code: nat) returns (dist: nat)
    requires code < 16 && BaseD(code) >= 1 && start == BaseD(code) - 1
    requires start + Pow2(ExtraD(code)) <= distCode.Length && DistsUpTo(distCode[..], start, code)
    modifies distCode
    ensures dist == start + Pow2(ExtraD(code)) && DistsUpTo(distCode[..], dist, code + 1)
  {
    hide Pow2, ExtraD, BaseD;
    dist := start;
    for n := 0 to Pow2(ExtraD(code))
      invariant dist == start + n
      invariant DistsUpTo(distCode[..], dist, code + 1)
    {
      distCode[dist] := code;
      dist := dist + 1;
    }
  }

  lemma SevenLess(e: nat)
    requires e >= 7
    ensures 128 * Pow2(e - 7) == Pow2(e)
  {
    ShlPow(e - 7, 7);
    ShlMul(Pow2(e - 7), 7);
    SmallPowers();
  }

  method FillFar(distCode: array<nat>, start: nat, code: nat) returns (dist: nat)
    requires 16 <= code < D_CODES && ExtraD(code) >= 7 && BaseD(code) >= 1 && 128 * start == BaseD(code) - 1
    requires 128 * start + Pow2(ExtraD(code)) <= 32768 && FarDistsUpTo(distCode[..], start, code)
    modifies distCode
    ensures 128 * dist == 128 * start + Pow2(ExtraD(code))
    ensures distCode[..256] == old(distCode[..256]) && FarDistsUpTo(distCode[..], dist, code + 1)
  {
    hide Pow2, ExtraD, BaseD;
    dist := start;
    SevenLess(ExtraD(code));
    ghost var end := code + 1;
    forall q: nat | 2 <= q < start ensures FarAt(distCode[..], q, end) { assert FarAt(distCode[..], q, code); }
    for n := 0 to Pow2(ExtraD(code) - 7)
      invariant dist == start + n
      invariant distCode[..256] == old(distCode[..256])
      invariant FarDistsUpTo(distCode[..], dist, code + 1)
    {
      ghost var t := distCode[..];
      distCode[256 + dist] := code;
      dist := dist + 1;
      forall q: nat | 2 <= q < dist ensures FarAt(distCode[..], q, end) {
        if q < dist - 1 { assert FarAt(t, q, end); }
      }
    }
  }

  lemma AllDists(distCode: seq<nat>, baseDist: seq<nat>)
    requires |distCode| == 512 && |baseDist| == D_CODES
    requires forall i: nat :: i < D_CODES ==> baseDist[i] == BaseD(i) - 1
    requires DistsUpTo(distCode[..256], 256, 16) && FarDistsUpTo(distCode, 256, D_CODES)
    ensures DistTables(distCode, baseDist)
  {
    hide Pow2, ExtraD, BaseD;
    forall d: nat | d < 32768
      ensures DCode(distCode, d) < D_CODES && DistCodeOk(DCode(distCode, d), baseDist[DCode(distCode, d)], d)
    {
      if d < 256 {
        assert distCode[..256][d] == distCode[d];
      } else {
        assert FarAt(distCode, d / 128, D_CODES);
      }
    }
  }
}
