/** The header of a dynamic block: send_all_trees() of zlib/trees.c against the TABLE, LENLENS and
    CODELENS states of zlib/inflate.c. */
module Header {
  import opened Bits
  import opened Huffman
  import opened InflateTable
  import opened InflateSpec
  import opened Block
  import opened CodeLengths

  /** bl_order in trees.c, order in inflate.c */
  const ORDER: seq<nat> := [16, 17, 18, 0, 8, 7, 9, 6, 10, 5, 11, 4, 12, 3, 13, 2, 14, 1, 15]

  function OrderAt(k: nat): (s: nat)
    requires k < BL_CODES
    ensures s < BL_CODES
  {
    ORDER[k]
  }

  /** The rank of a code length symbol in the order. */
  function Place(s: nat): nat {
    if s == 0 then 3 else if s >= 16 then s - 16 else if s == 8 then 4 else if s < 8 then 19 - 2 * s else 2 * s - 12
  }

  /** The order is a permutation. */
  lemma OrderPlace(s: nat, k: nat)
    requires s < BL_CODES && k < BL_CODES
    ensures Place(s) < BL_CODES && OrderAt(Place(s)) == s && Place(OrderAt(k)) == k
  {
  }

  // ----- the lengths of the code length code -----

  ghost predicate BlLengths(bl: seq<nat>) {
    |bl| == BL_CODES && forall s :: 0 <= s < BL_CODES ==> bl[s] <= 7
  }

  /** The lengths for the ranks from k to n - 1, three bits each. */
  ghost function LenLensBits(bl: seq<nat>, k: nat, n: nat): (r: seq<bool>)
    requires BlLengths(bl) && k <= n <= BL_CODES
    ensures |r| == 3 * (n - k)
    decreases n - k
  {
    if k == n then [] else ToBits(bl[OrderAt(k)], 3) + LenLensBits(bl, k + 1, n)
  }

  /** LENLENS from rank k on. */
  ghost function ReadLenLens(k: nat, n: nat, lens: seq<nat>, bits: seq<bool>): (r: seq<nat>)
    requires k <= n <= BL_CODES == |lens| && |bits| >= 3 * (n - k)
    ensures |r| == BL_CODES
    decreases n - k
  {
    if k == n then lens else ReadLenLens(k + 1, n, lens[OrderAt(k) := FromBits(bits[..3])], bits[3..])
  }

  /** The lengths of the ranks below k. */
  ghost function Ranked(bl: seq<nat>, k: nat): (r: seq<nat>)
    requires |bl| == BL_CODES
    ensures |r| == BL_CODES
  {
    seq(BL_CODES, s requires 0 <= s < BL_CODES => if Place(s) < k then bl[s] else 0)
  }

  lemma RankedNext(bl: seq<nat>, k: nat)
    requires |bl| == BL_CODES && k < BL_CODES
    ensures Ranked(bl, k)[OrderAt(k) := bl[OrderAt(k)]] == Ranked(bl, k + 1)
  {
    hide OrderAt;
    var a, b := Ranked(bl, k)[OrderAt(k) := bl[OrderAt(k)]], Ranked(bl, k + 1);
    forall s | 0 <= s < BL_CODES ensures a[s] == b[s] { OrderPlace(s, k); }
  }

  lemma {:induction false} LenLensRoundTrip(bl: seq<nat>, k: nat, n: nat, rest: seq<bool>)
    requires BlLengths(bl) && k <= n <= BL_CODES
    ensures ReadLenLens(k, n, Ranked(bl, k), LenLensBits(bl, k, n) + rest) == Ranked(bl, n)
    decreases n - k
  {
    hide ToBits, FromBits, Pow2, Ranked, OrderAt;
    if k < n {
      SmallPowers();
      var v, tail := bl[OrderAt(k)], LenLensBits(bl, k + 1, n) + rest;
      assert LenLensBits(bl, k, n) + rest == ToBits(v, 3) + tail;
      ReadValue(v, 3, tail);
      RankedNext(bl, k);
      LenLensRoundTrip(bl, k + 1, n, rest);
    }
  }

  // ----- the header -----

  /** What send_all_trees() sends, with n code length codes. */
  ghost predicate Headed(bl: seq<nat>, n: nat, ll: seq<nat>, dl: seq<nat>) {
    && BlLengths(bl) && 4 <= n <= BL_CODES && 257 <= |ll| <= 286 && 1 <= |dl| <= 30 && ValidLengths(ll) &&
      ValidLengths(dl)
    && ItemsCoded(bl, TreeItems(ll)) && ItemsCoded(bl, TreeItems(dl))
  }

  ghost function CountBits(n: nat, ll: seq<nat>, dl: seq<nat>): (r: seq<bool>)
    requires 4 <= n && 257 <= |ll| && 1 <= |dl|
    ensures |r| == 14
  {
    ToBits(|ll| - 257, 5) + (ToBits(|dl| - 1, 5) + ToBits(n - 4, 4))
  }

  ghost function HeaderBits(bl: seq<nat>, n: nat, ll: seq<nat>, dl: seq<nat>): seq<bool>
    requires Headed(bl, n, ll, dl)
  {
    CountBits(n, ll, dl) + (LenLensBits(bl, 0, n) + (ItemsBits(bl, TreeItems(ll)) + ItemsBits(bl, TreeItems(dl))))
  }

  datatype HeaderOutcome = Header(c: Codes, rest: seq<bool>) | HeaderBad | HeaderShort

  /** TABLE, LENLENS and CODELENS over the whole stream, up to the tables for the block. */
  ghost function ReadHeader(bits: seq<bool>): (r: HeaderOutcome)
    ensures r.Header? ==> ValidCodes(r.c)
  {
    if |bits| < 14 then HeaderShort
    else
      var nlen, ndist, ncode := FromBits(bits[..5]) + 257, FromBits(bits[5..10]) + 1, FromBits(bits[10..14]) + 4;
      FieldBounds(bits[..5], bits[5..10], bits[10..14]);
      if nlen > 286 || ndist > 30 then HeaderBad
      else if |bits| < 14 + 3 * ncode then HeaderShort
      else
        var bl := ReadLenLens(0, ncode, Times(0, BL_CODES), bits[14..]);
        if Refused(CODES, bl) then HeaderBad
        else ReadTables(bl, nlen, ndist, bits[14 + 3 * ncode..])
  }

  lemma FieldBounds(a: seq<bool>, b: seq<bool>, c: seq<bool>)
    requires |a| == 5 && |b| == 5 && |c| == 4
    ensures FromBits(a) < 32 && FromBits(b) < 32 && FromBits(c) < 16
  {
    hide Pow2, FromBits;
    SmallPowers();
  }

  /** CODELENS and the checks behind it. */
  ghost function ReadTables(bl: seq<nat>, nlen: nat, ndist: nat, bits: seq<bool>): (r: HeaderOutcome)
    requires |bl| == BL_CODES && 257 <= nlen <= 286 && 1 <= ndist <= 30
    ensures r.Header? ==> ValidCodes(r.c)
  {
    match ReadLens(bl, nlen + ndist, [], bits)
    case LensBad => HeaderBad
    case LensShort => HeaderShort
    case Lens(lens, rest) =>
      if lens[256] == 0 || Refused(LENS, lens[..nlen]) || Refused(DISTS, lens[nlen..]) then HeaderBad
      else Header(Codes(lens[..nlen], lens[nlen..]), rest)
  }

  /** A complete code is accepted. */
  lemma CompleteAccepted(ty: CodeType, lens: seq<nat>)
    requires Kraft(lens) == Pow2(MAXBITS)
    ensures !Refused(ty, lens)
  {
  }

  lemma CountsRoundTrip(n: nat, ll: seq<nat>, dl: seq<nat>, rest: seq<bool>)
    requires 4 <= n <= BL_CODES && 257 <= |ll| <= 286 && 1 <= |dl| <= 30
    ensures var bits := CountBits(n, ll, dl) + rest;
      FromBits(bits[..5]) == |ll| - 257 && FromBits(bits[5..10]) == |dl| - 1 && FromBits(bits[10..14]) == n - 4
      && bits[14..] == rest
  {
    hide ToBits, FromBits, Pow2;
    SmallPowers();
    var a, b, c := ToBits(|ll| - 257, 5), ToBits(|dl| - 1, 5), ToBits(n - 4, 4);
    var bits := CountBits(n, ll, dl) + rest;
    assert bits == a + (b + (c + rest));
    ReadValue(|ll| - 257, 5, b + (c + rest));
    ReadValue(|dl| - 1, 5, c + rest);
    ReadValue(n - 4, 4, rest);
    assert bits[5..10] == bits[5..][..5] && bits[10..14] == bits[5..][5..][..4] && bits[14..] == bits[5..][5..][4..];
  }

  /** Round trip of the trees of a dynamic block: the decoder rebuilds all three sets of lengths, accepts
      them, and goes on behind the header. */
  lemma HeaderRoundTrip(bl: seq<nat>, n: nat, ll: seq<nat>, dl: seq<nat>, rest: seq<bool>)
    requires Headed(bl, n, ll, dl) && Ranked(bl, n) == bl && ll[256] > 0
    requires Kraft(bl) == Pow2(MAXBITS) && Kraft(ll) == Pow2(MAXBITS) && Kraft(dl) == Pow2(MAXBITS)
    ensures ReadHeader(HeaderBits(bl, n, ll, dl) + rest) == Header(Codes(ll, dl), rest)
  {
    hide ToBits, FromBits, Pow2, CountBits, LenLensBits, ItemsBits, TreeItems, Kraft, Refused, ItemsCoded, ReadLens,
         ReadLenLens, Ranked;
    var a, b := ItemsBits(bl, TreeItems(ll)), ItemsBits(bl, TreeItems(dl));
    var k := LenLensBits(bl, 0, n);
    var tail := k + (a + (b + rest));
    var bits := HeaderBits(bl, n, ll, dl) + rest;
    assert bits == CountBits(n, ll, dl) + tail;
    CountsRoundTrip(n, ll, dl, tail);
    LenLensRoundTrip(bl, 0, n, a + (b + rest));
    NoneRanked(bl);
    assert bits[14..] == tail && bits[14 + 3 * n..] == tail[3 * n..] == a + (b + rest);
    CompleteAccepted(CODES, bl);
    LengthsRoundTrip(bl, ll, dl, rest);
    assert (ll + dl)[..|ll|] == ll && (ll + dl)[|ll|..] == dl;
    CompleteAccepted(LENS, ll);
    CompleteAccepted(DISTS, dl);
  }

  lemma NoneRanked(bl: seq<nat>)
    requires |bl| == BL_CODES
    ensures Ranked(bl, 0) == Times(0, BL_CODES)
  {
  }
}
