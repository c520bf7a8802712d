/** Run-length coding of code lengths (section 3.2.7 of RFC 1951): scan_tree() and send_tree() of
    zlib/trees.c against the CODELENS state of zlib/inflate.c. */
module CodeLengths {
  import opened Bits
  import opened Huffman
  import opened InflateSpec
  import opened BitWriter
  import opened Block

  const BL_CODES: nat := 19
  const REP_3_6: nat := 16
  const REPZ_3_10: nat := 17
  const REPZ_11_138: nat := 18

  /** One symbol of the code length alphabet with its repeat count. */
  datatype Item = One(len: nat) | Again(n: nat) | Zeros(n: nat) | ManyZeros(n: nat)

  predicate ItemOk(i: Item) {
    match i
    case One(len) => len <= 15
    case Again(n) => 3 <= n <= 6
    case Zeros(n) => 3 <= n <= 10
    case ManyZeros(n) => 11 <= n <= 138
  }

  function ItemSym(i: Item): nat {
    match i
    case One(len) => len
    case Again(_) => REP_3_6
    case Zeros(_) => REPZ_3_10
    case ManyZeros(_) => REPZ_11_138
  }

  function ItemExtra(i: Item): nat {
    match i
    case One(_) => 0
    case Again(_) => 2
    case Zeros(_) => 3
    case ManyZeros(_) => 7
  }

  function ItemValue(i: Item): nat
    requires ItemOk(i)
  {
    match i
    case One(_) => 0
    case Again(n) => n - 3
    case Zeros(n) => n - 3
    case ManyZeros(n) => n - 11
  }

  function Times(v: nat, n: nat): (s: seq<nat>)
    ensures |s| == n && forall i :: 0 <= i < n ==> s[i] == v
  {
    seq(n, _ => v)
  }

  /** What the decoder appends for an item; Again needs a previous length. */
  predicate ItemFits(have: seq<nat>, i: Item) { i.Again? ==> have != [] }

  function Apply(have: seq<nat>, i: Item): seq<nat>
    requires ItemFits(have, i)
  {
    match i
    case One(len) => have + [len]
    case Again(n) => have + Times(have[|have| - 1], n)
    case Zeros(n) => have + Times(0, n)
    case ManyZeros(n) => have + Times(0, n)
  }

  ghost predicate ItemsFit(have: seq<nat>, items: seq<Item>)
    decreases |items|
  {
    items == [] || (ItemFits(have, items[0]) && ItemsFit(Apply(have, items[0]), items[1..]))
  }

  ghost function ApplyAll(have: seq<nat>, items: seq<Item>): (r: seq<nat>)
    requires ItemsFit(have, items)
    ensures have <= r
    decreases |items|
  {
    if items == [] then have else ApplyAll(Apply(have, items[0]), items[1..])
  }

  lemma {:induction false} ApplyConcat(have: seq<nat>, a: seq<Item>, b: seq<Item>)
    requires ItemsFit(have, a) && ItemsFit(ApplyAll(have, a), b)
    ensures ItemsFit(have, a + b) && ApplyAll(have, a + b) == ApplyAll(ApplyAll(have, a), b)
    decreases |a|
  {
    if a == [] {
      assert a + b == b;
    } else {
      assert (a + b)[1..] == a[1..] + b;
      ApplyConcat(Apply(have, a[0]), a[1..], b);
    }
  }

  // ----- the encoder's choice of items -----

  /** max_count and min_count for a run of `cur` after `prev` was the last length emitted. */
  function MaxCount(prev: int, cur: nat): nat { if cur == 0 then 138 else if cur == prev then 6 else 7 }
  function MinCount(prev: int, cur: nat): nat { if cur == 0 then 3 else if cur == prev then 3 else 4 }

  /** The items for `count` copies of cur. */
  function Emit(prev: int, cur: nat, count: nat): (r: seq<Item>)
    requires 1 <= count <= MaxCount(prev, cur) && cur <= 15
    ensures forall i :: 0 <= i < |r| ==> ItemOk(r[i])
  {
    if count < MinCount(prev, cur) then seq(count, _ => One(cur))
    else if cur != 0 then
      if cur != prev then [One(cur), Again(count - 1)] else [Again(count)]
    else if count <= 10 then [Zeros(count)]
    else [ManyZeros(count)]
  }

  /** The length after position n, with the guard value behind the last one. */
  function NextLen(lens: seq<nat>, n: nat): nat
    requires n < |lens|
  {
    if n + 1 < |lens| then lens[n + 1] else 0xffff
  }

  /** The items for lens from position n on, when `count` copies of lens[n] are still to be sent. */
  function Rle(lens: seq<nat>, n: nat, prev: int, count: nat): (r: seq<Item>)
    requires n <= |lens| && ValidLengths(lens) && (n < |lens| ==> count < MaxCount(prev, lens[n]))
    ensures forall i :: 0 <= i < |r| ==> ItemOk(r[i])
    decreases |lens| - n
  {
    if n == |lens| then []
    else
      var cur, next := lens[n], NextLen(lens, n);
      if count + 1 < MaxCount(prev, cur) && cur == next then Rle(lens, n + 1, prev, count + 1)
      else Emit(prev, cur, count + 1) + Rle(lens, n + 1, cur, 0)
  }

  lemma ApplyOne(have: seq<nat>, i: Item)
    requires ItemFits(have, i)
    ensures ItemsFit(have, [i]) && ApplyAll(have, [i]) == Apply(have, i)
  {
    hide Apply, ItemFits;
    assert [i][1..] == [];
  }

  lemma TimesMore(have: seq<nat>, cur: nat, a: nat, b: nat)
    ensures (have + Times(cur, a)) + Times(cur, b) == have + Times(cur, a + b)
    ensures have + [cur] == have + Times(cur, 1) && have + Times(cur, 0) == have
  {
    assert Times(cur, a) + Times(cur, b) == Times(cur, a + b);
  }

  lemma OneThenAgain(have: seq<nat>, cur: nat, n: nat)
    ensures ItemsFit(have, [One(cur), Again(n)])
    ensures ApplyAll(have, [One(cur), Again(n)]) == have + Times(cur, n + 1)
  {
    hide ApplyAll, ItemsFit, Times;
    ApplyOne(have, One(cur));
    ApplyOne(have + [cur], Again(n));
    ApplyConcat(have, [One(cur)], [Again(n)]);
    assert [One(cur)] + [Again(n)] == [One(cur), Again(n)];
    TimesMore(have, cur, 1, n);
  }

  /** Emitting a run appends exactly its copies. */
  lemma EmitApplies(have: seq<nat>, prev: int, cur: nat, count: nat)
    requires 1 <= count <= MaxCount(prev, cur) && cur <= 15
    requires prev >= 0 ==> have != [] && have[|have| - 1] == prev
    ensures ItemsFit(have, Emit(prev, cur, count))
    ensures ApplyAll(have, Emit(prev, cur, count)) == have + Times(cur, count)
  {
    hide ApplyAll, ItemsFit, Times;
    var items := Emit(prev, cur, count);
    if count < MinCount(prev, cur) {
      OnesApply(have, cur, count);
    } else if cur != 0 && cur != prev {
      OneThenAgain(have, cur, count - 1);
    } else {
      ApplyOne(have, items[0]);
    }
  }

  lemma {:induction false} OnesApply(have: seq<nat>, cur: nat, n: nat)
    ensures var items := seq(n, _ => One(cur));
      ItemsFit(have, items) && ApplyAll(have, items) == have + Times(cur, n)
    decreases n
  {
    var items := seq(n, _ => One(cur));
    if n == 0 {
      assert have + Times(cur, 0) == have;
    } else {
      assert items[1..] == seq(n - 1, _ => One(cur));
      OnesApply(have + [cur], cur, n - 1);
      assert (have + [cur]) + Times(cur, n - 1) == have + Times(cur, n);
    }
  }

  /** The pending copies of lens[n] and the lengths from n on. */
  ghost function Remaining(lens: seq<nat>, n: nat, count: nat): seq<nat>
    requires n <= |lens|
  {
    if n < |lens| then Times(lens[n], count) + lens[n..] else []
  }

  lemma RemainingStep(lens: seq<nat>, n: nat, count: nat)
    requires n < |lens|
    ensures Remaining(lens, n, count) == Times(lens[n], count + 1) + Remaining(lens, n + 1, 0)
    ensures n + 1 < |lens| && lens[n] == lens[n + 1] ==> Remaining(lens, n, count) == Remaining(lens, n + 1, count + 1)
  {
    assert lens[n..] == [lens[n]] + lens[n + 1..];
    assert Times(lens[n], count) + [lens[n]] == Times(lens[n], count + 1);
    assert Times(lens[n], count) + ([lens[n]] + lens[n + 1..]) == (Times(lens[n], count) + [lens[n]]) + lens[n + 1..];
    assert Remaining(lens, n + 1, 0) == lens[n + 1..];
  }

  /** The run-length code is lossless: applying the items rebuilds the lengths. */
  lemma {:induction false} RleApplies(lens: seq<nat>, n: nat, prev: int, count: nat, have: seq<nat>)
    requires n <= |lens| && ValidLengths(lens) && (n < |lens| ==> count < MaxCount(prev, lens[n]))
    requires prev >= 0 ==> have != [] && have[|have| - 1] == prev
    ensures ItemsFit(have, Rle(lens, n, prev, count))
    ensures ApplyAll(have, Rle(lens, n, prev, count)) == have + Remaining(lens, n, count)
    decreases |lens| - n
  {
    hide Times, Remaining, Emit, Apply, ItemFits;
    if n < |lens| {
      var cur, next := lens[n], NextLen(lens, n);
      RemainingStep(lens, n, count);
      if count + 1 < MaxCount(prev, cur) && cur == next {
        RleApplies(lens, n + 1, prev, count + 1, have);
      } else {
        EmitApplies(have, prev, cur, count + 1);
        var h := have + Times(cur, count + 1);
        RleApplies(lens, n + 1, cur, 0, h);
        ApplyConcat(have, Emit(prev, cur, count + 1), Rle(lens, n + 1, cur, 0));
        assert h + Remaining(lens, n + 1, 0) == have + (Times(cur, count + 1) + Remaining(lens, n + 1, 0));
      }
    } else {
      NothingLeft(lens, count, have);
    }
  }

  lemma NothingLeft(lens: seq<nat>, count: nat, have: seq<nat>)
    ensures have + Remaining(lens, |lens|, count) == have
  {
  }

  // ----- the bits of the items -----

  ghost predicate ItemsCoded(bl: seq<nat>, items: seq<Item>) {
    forall i :: 0 <= i < |items| ==> ItemOk(items[i]) && IsSymbol(bl, ItemSym(items[i]))
  }

  ghost function ItemBits(bl: seq<nat>, i: Item): seq<bool>
    requires ItemOk(i) && IsSymbol(bl, ItemSym(i))
  {
    CodeBits(bl, ItemSym(i)) + ToBits(ItemValue(i), ItemExtra(i))
  }

  ghost function ItemsBits(bl: seq<nat>, items: seq<Item>): seq<bool>
    requires ItemsCoded(bl, items)
  {
    if items == [] then [] else ItemBits(bl, items[0]) + ItemsBits(bl, items[1..])
  }

  lemma {:induction false} ItemsBitsConcat(bl: seq<nat>, a: seq<Item>, b: seq<Item>)
    requires ItemsCoded(bl, a) && ItemsCoded(bl, b)
    ensures ItemsCoded(bl, a + b) && ItemsBits(bl, a + b) == ItemsBits(bl, a) + ItemsBits(bl, b)
  {
    hide ItemBits, IsSymbol;
    if a == [] {
      assert a + b == b;
      assert [] + ItemsBits(bl, b) == ItemsBits(bl, b);
    } else {
      assert (a + b)[1..] == a[1..] + b;
      ItemsBitsConcat(bl, a[1..], b);
      Append(ItemBits(bl, a[0]), ItemsBits(bl, a[1..]), ItemsBits(bl, b));
    }
  }

  // ----- what the decoder reads -----

  datatype LensOutcome = Lens(lens: seq<nat>, rest: seq<bool>) | LensBad | LensShort

  /** How many extra bits follow a code length symbol, and the smallest count they stand for. */
  function RepeatBits(s: nat): nat { if s == 16 then 2 else if s == 17 then 3 else 7 }
  function RepeatBase(s: nat): nat { if s == 18 then 11 else 3 }

  /** The CODELENS state over the whole stream: read symbols until `total` lengths are there.  The
      state does not look at op, so the invalid marker of an empty code reads as a zero length. */
  ghost function ReadLens(bl: seq<nat>, total: nat, have: seq<nat>, bits: seq<bool>): (r: LensOutcome)
    requires |bl| <= BL_CODES
    ensures r.Lens? && |have| <= total ==> |r.lens| == total
    decreases |bits|
  {
    if |have| >= total then Lens(have, bits)
    else match Decode(bl, bits)
      case TooShort => LensShort
      case NoCode => ReadLens(bl, total, have + [0], bits[1..])
      case Symbol(s) =>
        var rest := bits[bl[s]..];
        if s < 16 then ReadLens(bl, total, have + [s], rest)
        else ReadRepeat(bl, total, have, s, rest)
  }

  ghost function ReadRepeat(bl: seq<nat>, total: nat, have: seq<nat>, s: nat, rest: seq<bool>): (r: LensOutcome)
    requires |bl| <= BL_CODES && 16 <= s <= 18
    ensures r.Lens? ==> |r.lens| == total
    decreases |rest|, 0
  {
    var x := RepeatBits(s);
    if |rest| < x then LensShort
    else if s == 16 && have == [] then LensBad
    else
      var n := RepeatBase(s) + FromBits(rest[..x]);
      if |have| + n > total then LensBad
      else
        var len := if s == 16 then have[|have| - 1] else 0;
        ReadLens(bl, total, have + Times(len, n), rest[x..])
  }

  /** One item at the start of the stream is read back and applied. */
  lemma ReadItem(bl: seq<nat>, total: nat, have: seq<nat>, i: Item, rest: seq<bool>)
    requires |bl| <= BL_CODES && Decodable(bl) && ItemOk(i) && IsSymbol(bl, ItemSym(i)) && ItemFits(have, i)
    requires |Apply(have, i)| <= total
    ensures |have| < |Apply(have, i)|
    ensures ReadLens(bl, total, have, ItemBits(bl, i) + rest) == ReadLens(bl, total, Apply(have, i), rest)
  {
    hide CodeBits, Decodable, Decode, ToBits, FromBits, Pow2;
    var s, v, x := ItemSym(i), ItemValue(i), ItemExtra(i);
    var tail := ToBits(v, x) + rest;
    assert ItemBits(bl, i) + rest == CodeBits(bl, s) + tail;
    DecodeCode(bl, s, tail);
    SkipCode(bl, s, tail);
    ValueFits(i);
    ReadValue(v, x, rest);
    if i.One? {
      assert tail == rest by { NoExtra(v, rest); }
    } else {
      assert ReadLens(bl, total, have, CodeBits(bl, s) + tail) == ReadRepeat(bl, total, have, s, tail);
    }
  }

  lemma NoExtra(v: nat, rest: seq<bool>)
    ensures ToBits(v, 0) + rest == rest
  {
  }

  lemma ValueFits(i: Item)
    requires ItemOk(i)
    ensures ItemValue(i) < Pow2(ItemExtra(i))
  {
    assert Pow2(2) == 4 && Pow2(3) == 8 && Pow2(7) == 128;
  }

  lemma {:induction false} ReadItems(bl: seq<nat>, total: nat, have: seq<nat>, items: seq<Item>, rest: seq<bool>)
    requires |bl| <= BL_CODES && Decodable(bl) && ItemsCoded(bl, items) && ItemsFit(have, items)
    requires |ApplyAll(have, items)| <= total
    ensures ReadLens(bl, total, have, ItemsBits(bl, items) + rest) == ReadLens(bl, total, ApplyAll(have, items), rest)
    decreases |items|
  {
    hide ItemBits, Decodable, Decode, Apply, ReadLens, IsSymbol;
    if items == [] {
      assert [] + rest == rest;
    } else {
      var a, b := ItemBits(bl, items[0]), ItemsBits(bl, items[1..]);
      assert (a + b) + rest == a + (b + rest);
      ReadItem(bl, total, have, items[0], b + rest);
      ReadItems(bl, total, Apply(have, items[0]), items[1..], rest);
    }
  }

  /** The items of a whole tree. */
  function TreeItems(lens: seq<nat>): (r: seq<Item>)
    requires ValidLengths(lens)
    ensures forall i :: 0 <= i < |r| ==> ItemOk(r[i])
  {
    Rle(lens, 0, -1, 0)
  }

  lemma TreeApplies(lens: seq<nat>, have: seq<nat>)
    requires ValidLengths(lens)
    ensures ItemsFit(have, TreeItems(lens)) && ApplyAll(have, TreeItems(lens)) == have + lens
  {
    RleApplies(lens, 0, -1, 0, have);
    assert Remaining(lens, 0, 0) == lens;
  }

  /** Round trip of the two trees of a block: the decoder rebuilds exactly the literal/length and
      distance code lengths, without an error, and leaves the rest of the stream. */
  lemma LengthsRoundTrip(bl: seq<nat>, ll: seq<nat>, dl: seq<nat>, rest: seq<bool>)
    requires |bl| <= BL_CODES && Decodable(bl) && ValidLengths(ll) && ValidLengths(dl)
    requires ItemsCoded(bl, TreeItems(ll)) && ItemsCoded(bl, TreeItems(dl))
    ensures ReadLens(bl, |ll| + |dl|, [], ItemsBits(bl, TreeItems(ll)) + (ItemsBits(bl, TreeItems(dl)) + rest))
         == Lens(ll + dl, rest)
  {
    hide TreeItems, ItemsBits, Decodable, ApplyAll, ItemsCoded, ItemsFit, ValidLengths;
    TreeApplies(ll, []);
    assert [] + ll == ll;
    TreeApplies(dl, ll);
    ReadItems(bl, |ll| + |dl|, [], TreeItems(ll), ItemsBits(bl, TreeItems(dl)) + rest);
    ReadItems(bl, |ll| + |dl|, ll, TreeItems(dl), rest);
  }

  // ----- runs of equal lengths -----

  /** The items for k zeros. */
  ghost function ZeroItems(k: nat): seq<Item> {
    if k >= 138 then [ManyZeros(138)] + ZeroItems(k - 138)
    else if k >= 11 then [ManyZeros(k)] else if k >= 3 then [Zeros(k)] else seq(k, _ => One(0))
  }

  /** The items for k more of the length before them. */
  ghost function AgainItems(v: nat, k: nat): seq<Item> {
    if k >= 6 then [Again(6)] + AgainItems(v, k - 6) else if k >= 3 then [Again(k)] else seq(k, _ => One(v))
  }

  /** The length v stands at all positions from n to m and not behind them. */
  ghost predicate RunOf(lens: seq<nat>, n: nat, m: nat, v: nat) {
    n < m <= |lens| && (forall i :: n <= i < m ==> lens[i] == v) && (m < |lens| ==> lens[m] != v)
  }

  /** Nothing is sent until the longest count or the end of the run. */
  lemma {:induction false} RleSkips(lens: seq<nat>, n: nat, m: nat, v: nat, prev: int, count: nat)
    requires RunOf(lens, n, m, v) && ValidLengths(lens) && count < MaxCount(prev, v)
    ensures var k := if count + (m - n) <= MaxCount(prev, v) then m - n else MaxCount(prev, v) - count;
      Rle(lens, n, prev, count) == Emit(prev, v, count + k) + Rle(lens, n + k, v, 0)
    decreases m - n
  {
    hide Emit;
    if count + 1 < MaxCount(prev, v) && n + 1 < m { RleSkips(lens, n + 1, m, v, prev, count + 1); }
  }

  lemma {:induction false} ZeroRun(lens: seq<nat>, n: nat, m: nat, prev: int)
    requires RunOf(lens, n, m, 0) && ValidLengths(lens)
    ensures Rle(lens, n, prev, 0) == ZeroItems(m - n) + Rle(lens, m, 0, 0)
    decreases m - n
  {
    hide Rle;
    RleSkips(lens, n, m, 0, prev, 0);
    if m - n > 138 {
      ZeroRun(lens, n + 138, m, 0);
      Joins([ManyZeros(138)], ZeroItems(m - n - 138), Rle(lens, m, 0, 0));
    } else if m - n == 138 {
      assert ZeroItems(0) == [];
    }
  }

  lemma {:induction false} AgainRun(lens: seq<nat>, n: nat, m: nat, v: nat)
    requires RunOf(lens, n, m, v) && ValidLengths(lens) && v != 0
    ensures Rle(lens, n, v, 0) == AgainItems(v, m - n) + Rle(lens, m, v, 0)
    decreases m - n
  {
    hide Rle;
    RleSkips(lens, n, m, v, v, 0);
    if m - n > 6 {
      AgainRun(lens, n + 6, m, v);
      Joins([Again(6)], AgainItems(v, m - n - 6), Rle(lens, m, v, 0));
    } else if m - n == 6 {
      assert AgainItems(v, 0) == [];
    }
  }

  lemma Joins(a: seq<Item>, b: seq<Item>, c: seq<Item>)
    ensures a + (b + c) == (a + b) + c
  {
  }

  /** One run: zeros in lots of 138, then 11 to 138 or 3 to 10 at once, fewer one by one; another length once, and again
      in sixes, then 3 to 5 at once, fewer one by one. */
  ghost function RunItems(v: nat, k: nat): seq<Item>
    requires k >= 1
  {
    if v == 0 then ZeroItems(k) else [One(v)] + AgainItems(v, k - 1)
  }

  lemma RunSent(lens: seq<nat>, n: nat, m: nat, v: nat, prev: int)
    requires RunOf(lens, n, m, v) && ValidLengths(lens) && prev != v
    ensures Rle(lens, n, prev, 0) == RunItems(v, m - n) + Rle(lens, m, v, 0)
  {
    hide Rle;
    if v == 0 {
      ZeroRun(lens, n, m, prev);
    } else {
      assert lens[n] == v;
      RleSkips(lens, n, m, v, prev, 0);
      FirstItems(v, m - n);
      if m - n > 7 {
        AgainRun(lens, n + 7, m, v);
        Joins([One(v), Again(6)], AgainItems(v, m - n - 7), Rle(lens, m, v, 0));
      }
    }
  }

  lemma FirstItems(v: nat, k: nat)
    requires k >= 1 && v <= 15
    ensures k > 7 ==> [One(v)] + AgainItems(v, k - 1) == [One(v), Again(6)] + AgainItems(v, k - 7)
    ensures k <= 7 ==> forall prev: int :: prev != v && v != 0 ==> Emit(prev, v, k) == [One(v)] + AgainItems(v, k - 1)
  {
    if k > 7 {
      assert AgainItems(v, k - 1) == [Again(6)] + AgainItems(v, k - 7);
      Joins([One(v)], [Again(6)], AgainItems(v, k - 7));
    } else if k == 7 {
      assert AgainItems(v, 6) == [Again(6)] + AgainItems(v, 0) == [Again(6)];
    }
  }

  /** One past the run that starts at n. */
  ghost function RunEnd(lens: seq<nat>, n: nat): (m: nat)
    requires n < |lens|
    ensures RunOf(lens, n, m, lens[n])
    decreases |lens| - n
  {
    if n + 1 < |lens| && lens[n + 1] == lens[n] then RunEnd(lens, n + 1) else n + 1
  }

  /** The items of all runs from n on. */
  ghost function ByRuns(lens: seq<nat>, n: nat): seq<Item>
    requires n <= |lens|
    decreases |lens| - n
  {
    if n == |lens| then [] else var m := RunEnd(lens, n); RunItems(lens[n], m - n) + ByRuns(lens, m)
  }

  lemma {:induction false} RleByRuns(lens: seq<nat>, n: nat, prev: int)
    requires n <= |lens| && ValidLengths(lens) && (n < |lens| ==> lens[n] != prev)
    ensures Rle(lens, n, prev, 0) == ByRuns(lens, n)
    decreases |lens| - n
  {
    hide RunItems;
    if n < |lens| {
      var m := RunEnd(lens, n);
      RunSent(lens, n, m, lens[n], prev);
      RleByRuns(lens, m, lens[n]);
    }
  }

  /** What scan_tree() counts and send_tree() sends, run by run. */
  lemma TreeByRuns(lens: seq<nat>)
    requires ValidLengths(lens)
    ensures TreeItems(lens) == ByRuns(lens, 0)
  {
    RleByRuns(lens, 0, -1);
  }
}
