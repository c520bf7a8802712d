/** scan_tree() and send_tree() of zlib/trees.c and the CODELENS state of zlib/inflate.c as code:
    the scan counts precisely the symbols that are sent, and the resumable reader follows the
    specification of the stream. */
module TreeCoding {
  import opened Bits
  import opened Huffman
  import opened DecodeTable
  import opened InflateTable
  import opened InflateSpec
  import opened BitReader
  import opened InflateSteps
  import opened BitWriter
  import opened Block
  import opened CodeLengths

  /** How often symbol s occurs among the items. */
  ghost function Occurs(items: seq<Item>, s: nat): nat {
    if items == [] then 0 else (if ItemSym(items[0]) == s then 1 else 0) + Occurs(items[1..], s)
  }

  lemma {:induction false} OccursConcat(a: seq<Item>, b: seq<Item>, s: nat)
    ensures Occurs(a + b, s) == Occurs(a, s) + Occurs(b, s)
  {
    if a == [] {
      assert a + b == b;
    } else {
      assert (a + b)[1..] == a[1..] + b;
      OccursConcat(a[1..], b, s);
    }
  }

  lemma {:induction false} OccursOnes(n: nat, cur: nat, s: nat)
    ensures Occurs(seq(n, _ => One(cur)), s) == if cur == s then n else 0
    decreases n
  {
    if n > 0 {
      assert seq(n, _ => One(cur))[1..] == seq(n - 1, _ => One(cur));
      OccursOnes(n - 1, cur, s);
    }
  }

  lemma OccursFew(a: Item, b: Item, s: nat)
    ensures Occurs([a], s) == if ItemSym(a) == s then 1 else 0
    ensures Occurs([a, b], s) == (if ItemSym(a) == s then 1 else 0) + (if ItemSym(b) == s then 1 else 0)
  {
    assert [a][1..] == [] && [a, b][1..] == [b] && [b][1..] == [];
  }

  /** The frequency after the items have been counted. */
  ghost predicate Counts(freq: seq<nat>, freq0: seq<nat>, items: seq<Item>) {
    |freq| == |freq0| >= BL_CODES && forall s: nat :: s < |freq| ==> freq[s] == freq0[s] + Occurs(items, s)
  }

  /** Counting one run; the branches are those of scan_tree(). */
  method ScanRun(freq: array<nat>, prevlen: int, curlen: nat, count: nat, minCount: nat)
    requires freq.Length >= BL_CODES && curlen <= 15 && 1 <= count <= MaxCount(prevlen, curlen)
    requires minCount == MinCount(prevlen, curlen)
    modifies freq
    ensures Counts(freq[..], old(freq[..]), Emit(prevlen, curlen, count))
  {
    hide Occurs;
    ghost var items := Emit(prevlen, curlen, count);
    ghost var f := freq[..];
    if count < minCount {
      freq[curlen] := freq[curlen] + count;
      forall s: nat | s < freq.Length ensures freq[s] == f[s] + Occurs(items, s) { OccursOnes(count, curlen, s); }
    } else if curlen != 0 {
      if curlen != prevlen { freq[curlen] := freq[curlen] + 1; }
      freq[REP_3_6] := freq[REP_3_6] + 1;
      forall s: nat | s < freq.Length ensures freq[s] == f[s] + Occurs(items, s) {
        OccursFew(One(curlen), Again(count - 1), s);
        OccursFew(Again(count), Again(count), s);
      }
    } else if count <= 10 {
      freq[REPZ_3_10] := freq[REPZ_3_10] + 1;
      forall s: nat | s < freq.Length ensures freq[s] == f[s] + Occurs(items, s) { OccursFew(items[0], items[0], s); }
    } else {
      freq[REPZ_11_138] := freq[REPZ_11_138] + 1;
      forall s: nat | s < freq.Length ensures freq[s] == f[s] + Occurs(items, s) { OccursFew(items[0], items[0], s); }
    }
  }

  lemma CountsConcat(f0: seq<nat>, f1: seq<nat>, f2: seq<nat>, a: seq<Item>, b: seq<Item>)
    requires Counts(f1, f0, a) && Counts(f2, f1, b)
    ensures Counts(f2, f0, a + b)
  {
    hide Occurs;
    forall s: nat | s < |f2| ensures f2[s] == f0[s] + Occurs(a + b, s) { OccursConcat(a, b, s); }
  }

  /** The loop variables of scan_tree() and send_tree(): the items of the tree are those already
      handled and those of the lengths still to come. */
  ghost predicate AtLength(lens: seq<nat>, n: nat, prevlen: int, nextlen: nat, count: nat, maxCount: nat, minCount: nat,
                           done: seq<Item>)
  {
    && n <= |lens| && ValidLengths(lens)
    && (n < |lens| ==> nextlen == lens[n] && maxCount == MaxCount(prevlen, nextlen)
                       && minCount == MinCount(prevlen, nextlen) && count < maxCount)
    && (n == |lens| ==> count == 0)
    && TreeItems(lens) == done + Rle(lens, n, prevlen, count)
  }

  lemma StartLengths(lens: seq<nat>)
    requires |lens| >= 1 && ValidLengths(lens)
    ensures AtLength(lens, 0, -1, lens[0], 0, MaxCount(-1, lens[0]), MinCount(-1, lens[0]), [])
  {
    assert [] + TreeItems(lens) == TreeItems(lens);
  }

  lemma NextLength(lens: seq<nat>, n: nat, prevlen: int, count: nat, done: seq<Item>)
    requires n < |lens|
    requires AtLength(lens, n, prevlen, lens[n], count, MaxCount(prevlen, lens[n]), MinCount(prevlen, lens[n]), done)
    ensures var cur, next := lens[n], NextLen(lens, n);
      if count + 1 < MaxCount(prevlen, cur) && cur == next
      then AtLength(lens, n + 1, prevlen, next, count + 1, MaxCount(prevlen, cur), MinCount(prevlen, cur), done)
      else AtLength(lens, n + 1, cur, next, 0, MaxCount(cur, next), MinCount(cur, next),
                    done + Emit(prevlen, cur, count + 1))
  {
    hide Emit;
    var cur, next := lens[n], NextLen(lens, n);
    if !(count + 1 < MaxCount(prevlen, cur) && cur == next) {
      var e, rest := Emit(prevlen, cur, count + 1), Rle(lens, n + 1, cur, 0);
      assert done + (e + rest) == (done + e) + rest;
    }
  }

  lemma EndLengths(lens: seq<nat>, prevlen: int, nextlen: nat, count: nat, maxCount: nat, minCount: nat,
                   done: seq<Item>)
    requires AtLength(lens, |lens|, prevlen, nextlen, count, maxCount, minCount, done)
    ensures done == TreeItems(lens)
  {
    assert done + [] == done;
  }

  /** Determine the frequencies of the codes in the bit length tree. */
  method ScanTree(freq: array<nat>, lens: seq<nat>)
    requires freq.Length >= BL_CODES && |lens| >= 1 && ValidLengths(lens)
    modifies freq
    ensures Counts(freq[..], old(freq[..]), TreeItems(lens))
  {
    hide Rle, TreeItems, Emit, AtLength, Occurs, Counts;
    var prevlen: int := -1;
    var nextlen, count, maxCount, minCount := lens[0], 0, 7, 4;
    if nextlen == 0 { maxCount, minCount := 138, 3; }
    ghost var done: seq<Item> := [];
    ghost var f0 := freq[..];
    StartLengths(lens);
    NoneCounted(f0);
    for n := 0 to |lens|
      invariant AtLength(lens, n, prevlen, nextlen, count, maxCount, minCount, done)
      invariant Counts(freq[..], f0, done)
    {
      LengthAt(lens, n, prevlen, nextlen, count, maxCount, minCount, done);
      NextLength(lens, n, prevlen, count, done);
      var curlen := nextlen;
      nextlen := NextLen(lens, n);
      count := count + 1;
      if !(count < maxCount && curlen == nextlen) {
        ghost var f1 := freq[..];
        ScanRun(freq, prevlen, curlen, count, minCount);
        CountsConcat(f0, f1, freq[..], done, Emit(prevlen, curlen, count));
        done := done + Emit(prevlen, curlen, count);
        count, prevlen := 0, curlen;
        if nextlen == 0 { maxCount, minCount := 138, 3; }
        else if curlen == nextlen { maxCount, minCount := 6, 3; }
        else { maxCount, minCount := 7, 4; }
      }
    }
    EndLengths(lens, prevlen, nextlen, count, maxCount, minCount, done);
  }

  lemma NoneCounted(f: seq<nat>)
    requires |f| >= BL_CODES
    ensures Counts(f, f, [])
  {
  }

  lemma LengthAt(lens: seq<nat>, n: nat, prevlen: int, nextlen: nat, count: nat, maxCount: nat, minCount: nat,
                 done: seq<Item>)
    requires n < |lens| && AtLength(lens, n, prevlen, nextlen, count, maxCount, minCount, done)
    ensures nextlen == lens[n] <= 15 && maxCount == MaxCount(prevlen, nextlen) && minCount == MinCount(prevlen, nextlen)
    ensures count < maxCount
  {
  }

  // ----- sending -----

  /** Sending one run, with the codes of the bit length tree. */
  method SendRun(w: Writer, blTree: seq<Ct>, prevlen: int, curlen: nat, count: nat, minCount: nat, ghost bl: seq<nat>)
    requires w.Valid() && Coded(blTree, bl) && curlen <= 15 && 1 <= count <= MaxCount(prevlen, curlen)
    requires minCount == MinCount(prevlen, curlen) && ItemsCoded(bl, Emit(prevlen, curlen, count))
    modifies w
    ensures w.Valid() && w.Sent() == old(w.Sent()) + ItemsBits(bl, Emit(prevlen, curlen, count))
  {
    hide ItemsBits, Coded, CodeBits, ToBits, BytesToBits, Pow2, ItemBits;
    ghost var items := Emit(prevlen, curlen, count);
    ghost var sent := w.Sent();
    if count < minCount {
      var k := 0;
      NoItems(bl, sent);
      assert seq(0, _ => One(curlen)) == [];
      while k < count
        invariant 0 <= k <= count && w.Valid() && ItemsCoded(bl, seq(k, _ => One(curlen)))
        invariant w.Sent() == sent + ItemsBits(bl, seq(k, _ => One(curlen)))
      {
        assert items[0] == One(curlen);
        SendItem(w, blTree, One(curlen), bl);
        OneMore(bl, curlen, k);
        Append(sent, ItemsBits(bl, seq(k, _ => One(curlen))), ItemBits(bl, One(curlen)));
        k := k + 1;
      }
    } else if curlen != 0 {
      if curlen != prevlen {
        assert items[0] == One(curlen) && items[1] == Again(count - 1);
        SendItem(w, blTree, One(curlen), bl);
        SendItem(w, blTree, Again(count - 1), bl);
        PairBits(bl, items[0], items[1]);
        Append(sent, ItemBits(bl, items[0]), ItemBits(bl, items[1]));
      } else {
        assert items[0] == Again(count);
        SendItem(w, blTree, Again(count), bl);
        SingleBits(bl, items[0]);
      }
    } else if count <= 10 {
      assert items[0] == Zeros(count);
      SendItem(w, blTree, Zeros(count), bl);
      SingleBits(bl, items[0]);
    } else {
      assert items[0] == ManyZeros(count);
      SendItem(w, blTree, ManyZeros(count), bl);
      SingleBits(bl, items[0]);
    }
  }

  /** send_code for the symbol, then send_bits for the repeat count if it has one. */
  method SendItem(w: Writer, blTree: seq<Ct>, i: Item, ghost bl: seq<nat>)
    requires w.Valid() && Coded(blTree, bl) && ItemOk(i) && IsSymbol(bl, ItemSym(i))
    modifies w
    ensures w.Valid() && w.Sent() == old(w.Sent()) + ItemBits(bl, i)
  {
    hide Coded, CodeBits, ToBits, BytesToBits, Pow2;
    ghost var sent := w.Sent();
    SendCode(w, blTree, ItemSym(i), bl);
    if i.One? {
      NoExtra(0, []);
      assert ToBits(0, 0) == [];
      assert CodeBits(bl, ItemSym(i)) + [] == CodeBits(bl, ItemSym(i));
    } else {
      ValueFits(i);
      w.SendBits(ItemValue(i), ItemExtra(i));
      Append(sent, CodeBits(bl, ItemSym(i)), ToBits(ItemValue(i), ItemExtra(i)));
    }
  }

  lemma NoItems(bl: seq<nat>, sent: seq<bool>)
    ensures ItemsCoded(bl, []) && sent + ItemsBits(bl, []) == sent
  {
  }

  lemma SingleBits(bl: seq<nat>, i: Item)
    requires ItemOk(i) && IsSymbol(bl, ItemSym(i))
    ensures ItemsCoded(bl, [i]) && ItemsBits(bl, [i]) == ItemBits(bl, i)
  {
    hide ItemBits;
    assert [i][1..] == [];
    assert ItemBits(bl, i) + [] == ItemBits(bl, i);
  }

  lemma PairBits(bl: seq<nat>, i: Item, j: Item)
    requires ItemOk(i) && ItemOk(j) && IsSymbol(bl, ItemSym(i)) && IsSymbol(bl, ItemSym(j))
    ensures ItemsCoded(bl, [i, j]) && ItemsBits(bl, [i, j]) == ItemBits(bl, i) + ItemBits(bl, j)
  {
    hide ItemBits, ItemsBits, IsSymbol;
    SingleBits(bl, i);
    SingleBits(bl, j);
    ItemsBitsConcat(bl, [i], [j]);
    assert [i] + [j] == [i, j];
  }

  lemma OneMore(bl: seq<nat>, cur: nat, k: nat)
    requires ItemsCoded(bl, seq(k, _ => One(cur))) && ItemOk(One(cur)) && IsSymbol(bl, cur)
    ensures ItemsCoded(bl, seq(k + 1, _ => One(cur)))
    ensures ItemsBits(bl, seq(k + 1, _ => One(cur))) == ItemsBits(bl, seq(k, _ => One(cur))) + ItemBits(bl, One(cur))
  {
    hide ItemBits, ItemsBits, IsSymbol;
    SingleBits(bl, One(cur));
    ItemsBitsConcat(bl, seq(k, _ => One(cur)), [One(cur)]);
    assert seq(k, _ => One(cur)) + [One(cur)] == seq(k + 1, _ => One(cur));
  }

  lemma CodedSplit(bl: seq<nat>, a: seq<Item>, b: seq<Item>)
    requires ItemsCoded(bl, a + b)
    ensures ItemsCoded(bl, a) && ItemsCoded(bl, b)
  {
    hide IsSymbol;
    assert forall i :: 0 <= i < |a| ==> a[i] == (a + b)[i];
    assert forall i :: 0 <= i < |b| ==> b[i] == (a + b)[|a| + i];
  }

  /** Send a literal or distance tree in compressed form. */
  method SendTree(w: Writer, lens: seq<nat>, blTree: seq<Ct>, ghost bl: seq<nat>)
    requires w.Valid() && |lens| >= 1 && ValidLengths(lens) && Coded(blTree, bl) && ItemsCoded(bl, TreeItems(lens))
    modifies w
    ensures w.Valid() && w.Sent() == old(w.Sent()) + ItemsBits(bl, TreeItems(lens))
  {
    hide Rle, TreeItems, Emit, AtLength, ItemsBits, ItemsCoded, Coded;
    var prevlen: int := -1;
    var nextlen, count, maxCount, minCount := lens[0], 0, 7, 4;
    if nextlen == 0 { maxCount, minCount := 138, 3; }
    ghost var done: seq<Item> := [];
    ghost var sent := w.Sent();
    StartLengths(lens);
    NoItems(bl, sent);
    for n := 0 to |lens|
      invariant AtLength(lens, n, prevlen, nextlen, count, maxCount, minCount, done)
      invariant w.Valid() && ItemsCoded(bl, done) && w.Sent() == sent + ItemsBits(bl, done)
    {
      LengthAt(lens, n, prevlen, nextlen, count, maxCount, minCount, done);
      NextLength(lens, n, prevlen, count, done);
      var curlen := nextlen;
      nextlen := NextLen(lens, n);
      count := count + 1;
      if !(count < maxCount && curlen == nextlen) {
        ghost var e := Emit(prevlen, curlen, count);
        RunCoded(lens, n + 1, curlen, nextlen, bl, done + e);
        CodedSplit(bl, done, e);
        SendRun(w, blTree, prevlen, curlen, count, minCount, bl);
        ItemsBitsConcat(bl, done, e);
        Append(sent, ItemsBits(bl, done), ItemsBits(bl, e));
        done := done + e;
        count, prevlen := 0, curlen;
        if nextlen == 0 { maxCount, minCount := 138, 3; }
        else if curlen == nextlen { maxCount, minCount := 6, 3; }
        else { maxCount, minCount := 7, 4; }
      }
    }
    EndLengths(lens, prevlen, nextlen, count, maxCount, minCount, done);
  }

  /** What has been handled is a prefix of the items of the tree, so it has codes. */
  lemma RunCoded(lens: seq<nat>, n: nat, cur: nat, next: nat, bl: seq<nat>, done: seq<Item>)
    requires ValidLengths(lens) && ItemsCoded(bl, TreeItems(lens))
    requires AtLength(lens, n, cur, next, 0, MaxCount(cur, next), MinCount(cur, next), done)
    ensures ItemsCoded(bl, done)
  {
    hide Rle, TreeItems, ItemsCoded;
    CodedSplit(bl, done, Rle(lens, n, cur, 0));
  }

  // ----- reading -----

  datatype Status = Complete | Failed | NeedInput

  /** The held bits are too few for the next code length symbol with its repeat count. */
  ghost predicate LensStarved(bl: seq<nat>, r: Reader) {
    match Decode(bl, ToBits(r.hold, r.bits))
    case TooShort => true
    case NoCode => false
    case Symbol(s) => 16 <= s <= 18 && s < |bl| && r.bits < bl[s] + RepeatBits(s)
  }

  /** At the end of the input that is an incomplete header. */
  lemma LensStarvedShort(bl: seq<nat>, total: nat, have: seq<nat>, r: Reader)
    requires |bl| <= BL_CODES && |have| < total && LensStarved(bl, r)
    ensures ReadLens(bl, total, have, ToBits(r.hold, r.bits)) == LensShort
  {
    hide Decode, ToBits, FromBits;
  }

  /** The CODELENS loop.  It can stop for lack of input before any symbol and go on later; `have`
      holds the lengths read so far. */
  method ReadCodeLens(tab: Table, total: nat, have: seq<nat>, r: Reader, input: seq<byte>, ghost future: seq<byte>,
                      ghost bl: seq<nat>)
    returns (status: Status, have': seq<nat>, r': Reader)
    requires TableOk(tab, CODES, bl) && Ok(r, input) && |have| <= total && ValidLengths(have)
    requires forall s :: 0 <= s < |bl| ==> bl[s] <= 7
    requires r.bits < 8 || (|have| < total && LensStarved(bl, r))
    ensures Ok(r', input) && |have'| <= total && ValidLengths(have') && have <= have'
    ensures status == Complete ==> |have'| == total && r'.bits < 8
    ensures status == NeedInput ==> r'.pos == |input| && |have'| < total && LensStarved(bl, r')
    ensures Left(r', input) <= Left(r, input)
    ensures ReadLens(bl, total, have, Stream(r, input, future))
         == if status == Failed then LensBad else ReadLens(bl, total, have', Stream(r', input, future))
  {
    hide TableOk, Stream, ReadLens, Pow2, Times, LensStarved;
    TableParts(tab, bl);
    have', r' := have, r;
    while |have'| < total
      invariant Ok(r', input) && |have'| <= total && ValidLengths(have') && have <= have'
      invariant r'.bits < 8 || (|have'| < total && LensStarved(bl, r'))
      invariant Left(r', input) <= Left(r, input)
      invariant ReadLens(bl, total, have', Stream(r', input, future)) ==
        ReadLens(bl, total, have, Stream(r, input, future))
      decreases total - |have'|
    {
      var st, h, q := ReadOne(tab, total, have', r', input, future, bl);
      if st != Complete { return st, have', q; }
      have', r' := h, q;
    }
    status := Complete;
  }

  /** One symbol with its repeat count. */
  method ReadOne(tab: Table, total: nat, have: seq<nat>, r: Reader, input: seq<byte>, ghost future: seq<byte>,
                 ghost bl: seq<nat>)
    returns (status: Status, have': seq<nat>, r': Reader)
    requires TableOk(tab, CODES, bl) && Ok(r, input) && |have| < total && ValidLengths(have)
    requires forall s :: 0 <= s < |bl| ==> bl[s] <= 7
    requires r.bits < 8 || LensStarved(bl, r)
    ensures Ok(r', input) && ValidLengths(have') && Left(r', input) <= Left(r, input)
    ensures status == Complete ==> have < have' && |have'| <= total && r'.bits < 8
    ensures status == NeedInput ==> r'.pos == |input| && Stream(r', input, future) == Stream(r, input, future)
    ensures status == NeedInput ==> LensStarved(bl, r')
    ensures status == Complete ==>
      ReadLens(bl, total, have, Stream(r, input, future)) == ReadLens(bl, total, have', Stream(r', input, future))
    ensures status == Failed ==> ReadLens(bl, total, have, Stream(r, input, future)) == LensBad
  {
    hide TableOk, Stream, ReadLens, ReadRepeat, Pow2, Low, Lookup, Meaning, ToBits, FromBits, LensStarved, Decode,
         Agrees;
    TableParts(tab, bl);
    ghost var ents := Meaning(CODES, |bl|);
    var ok, f, r1 := FetchCode(tab, r, input, future, bl, ents);
    if !ok {
      Undecides(tab, bl, r1);
      return NeedInput, have, r1;
    }
    HitIsSymbol(tab.t, tab.root, bl, ents, r1, input, future);
    FetchedCode(bl, ents, f, total, have, Stream(r1, input, future));
    if r1 == r && r.bits >= 8 { Resumed(tab, bl, ents, r); }
    if f.val < 16 {
      DropKeeps(r1, f.drop, input, future);
      return Complete, have + [f.val], DropBits(r1, f.drop);
    }
    status, have', r' := ReadCount(f, total, have, r1, input, future, bl, ents);
  }

  /** The repeat count behind a decided symbol. */
  method ReadCount(f: Found, total: nat, have: seq<nat>, r: Reader, input: seq<byte>, ghost future: seq<byte>,
                   ghost bl: seq<nat>, ghost ents: seq<Entry>)
    returns (status: Status, have': seq<nat>, r': Reader)
    requires |bl| <= BL_CODES && Usable(bl) && Meanings(bl, ents) && Ok(r, input)
    requires |have| < total && ValidLengths(have)
    requires forall s :: 0 <= s < |bl| ==> ents[s].val == s && bl[s] <= 7
    requires Agrees(f, bl, ents, Decode(bl, Stream(r, input, future)))
    requires f.Found? && f.drop <= 7 && f.drop <= r.bits && 16 <= f.val <= 18
    requires r.bits < f.drop + 8 || r.bits < f.drop + RepeatBits(f.val)
    ensures Ok(r', input) && ValidLengths(have') && Left(r', input) <= Left(r, input)
    ensures status == Complete ==> have < have' && |have'| <= total && r'.bits < 8
    ensures status == NeedInput ==> r'.pos == |input| && Stream(r', input, future) == Stream(r, input, future)
    ensures status == NeedInput ==> LensStarved(bl, r')
    ensures var rest := Stream(r, input, future)[f.drop..];
      match status
      case Complete => ReadRepeat(bl, total, have, f.val, rest) == ReadLens(bl, total, have', Stream(r', input, future))
      case Failed => ReadRepeat(bl, total, have, f.val, rest) == LensBad
      case NeedInput => true
  {
    hide Stream, ReadLens, ReadRepeat, Pow2, Low, ToBits, FromBits, LensStarved, Decode, Usable;
    var x := RepeatBits(f.val);
    var ok2, r2 := NeedBits(r, f.drop + x, input, future);
    if !ok2 {
      CountShort(bl, ents, f, r2, input, future);
      return NeedInput, have, r2;
    }
    DropKeeps(r2, f.drop, input, future);
    var r3 := DropBits(r2, f.drop);
    DropKeeps(r3, x, input, future);
    RepeatRead(bl, total, have, f.val, Stream(r3, input, future));
    r' := DropBits(r3, x);
    if f.val == 16 && have == [] { return Failed, have, r'; }
    var len := if f.val == 16 then have[|have| - 1] else 0;
    var copy := RepeatBase(f.val) + Low(r3.hold, x);
    if |have| + copy > total { return Failed, have, r'; }
    return Complete, have + Times(len, copy), r';
  }

  /** A code that needs more bits than are held starves the reader. */
  lemma Undecides(tab: Table, bl: seq<nat>, r: Reader)
    requires TableOk(tab, CODES, bl) && r.hold < Pow2(r.bits)
    requires var f := Lookup(tab.t, tab.root, r.hold); f.Found? && f.drop > r.bits
    ensures LensStarved(bl, r)
  {
    hide Lookup, Pow2, Decode, ToBits, Meaning;
    MissNeedsBits(tab.t, tab.root, bl, Meaning(CODES, |bl|), r.hold, r.bits);
  }

  /** A repeat count that is not all there starves the reader. */
  lemma CountShort(bl: seq<nat>, ents: seq<Entry>, f: Found, r: Reader, input: seq<byte>, future: seq<byte>)
    requires |bl| <= BL_CODES && Usable(bl) && Meanings(bl, ents) && Ok(r, input) && r.pos == |input|
    requires forall s :: 0 <= s < |bl| ==> ents[s].val == s
    requires Agrees(f, bl, ents, Decode(bl, Stream(r, input, future)))
    requires f.Found? && f.drop <= r.bits < f.drop + RepeatBits(f.val) && 16 <= f.val <= 18
    ensures LensStarved(bl, r)
  {
    hide Pow2, ToBits, Kraft, Decode;
    var bits := Stream(r, input, future);
    assert bits[..r.bits] == ToBits(r.hold, r.bits);
    DecodePrefix(bl, bits, r.bits);
  }

  /** Going on with held bits that were too few before, or fewer than eight. */
  lemma Resumed(tab: Table, bl: seq<nat>, ents: seq<Entry>, r: Reader)
    requires TableOk(tab, CODES, bl) && ents == Meaning(CODES, |bl|) && |bl| <= BL_CODES && r.hold < Pow2(r.bits)
    requires forall s :: 0 <= s < |bl| ==> ents[s].val == s
    requires var f := Lookup(tab.t, tab.root, r.hold); f.Found? && f.drop <= r.bits
    requires LensStarved(bl, r)
    ensures var f := Lookup(tab.t, tab.root, r.hold); 16 <= f.val <= 18 && r.bits < f.drop + RepeatBits(f.val)
  {
    hide Lookup, Pow2, Decode, ToBits, Meaning, Decodes, Usable;
    HeldSymbol(tab.t, tab.root, bl, ents, r.hold, r.bits);
  }

  lemma TableParts(tab: Table, bl: seq<nat>)
    requires TableOk(tab, CODES, bl)
    ensures |bl| <= BL_CODES && Usable(bl) && Meanings(bl, Meaning(CODES, |bl|))
    ensures Decodes(tab.t, tab.root, bl, Meaning(CODES, |bl|))
    ensures forall s :: 0 <= s < |bl| ==> Meaning(CODES, |bl|)[s].val == s
  {
    hide Decodes, Usable, Meaning;
  }

  /** What the fetched entry says about the next step of the specification. */
  lemma FetchedCode(bl: seq<nat>, ents: seq<Entry>, f: Found, total: nat, have: seq<nat>, bits: seq<bool>)
    requires |bl| <= BL_CODES && Meanings(bl, ents) && forall s :: 0 <= s < |bl| ==> ents[s].val == s && bl[s] <= 7
    requires Agrees(f, bl, ents, Decode(bl, bits)) && |have| < total
    ensures f.Found? && f.drop <= 7 && f.drop <= |bits| && f.val <= 18
    ensures f.val < 16 ==> ReadLens(bl, total, have, bits) == ReadLens(bl, total, have + [f.val], bits[f.drop..])
    ensures f.val >= 16 ==> ReadLens(bl, total, have, bits) == ReadRepeat(bl, total, have, f.val, bits[f.drop..])
  {
  }

  lemma RepeatRead(bl: seq<nat>, total: nat, have: seq<nat>, s: nat, rest: seq<bool>)
    requires |bl| <= BL_CODES && 16 <= s <= 18 && RepeatBits(s) <= |rest|
    ensures var n := RepeatBase(s) + FromBits(rest[..RepeatBits(s)]);
      ReadRepeat(bl, total, have, s, rest)
      == if (s == 16 && have == []) || |have| + n > total then LensBad
         else ReadLens(bl, total, have + Times(if s == 16 then have[|have| - 1] else 0, n), rest[RepeatBits(s)..])
  {
  }
}
