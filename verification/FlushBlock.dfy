/** _tr_flush_block() of zlib/trees.c: build the trees, predict the sizes, choose the kind of block and
    send it. The predictions are exact and whatever is sent decodes to the tallied symbols' expansion. */
module FlushBlock {
  import opened Bits
  import opened Huffman
  import opened Sums
  import opened BitLengths
  import opened TreeCost
  import opened TreeBuild
  import opened InflateSpec
  import opened BitWriter
  import opened StaticTables
  import opened Block
  import opened CodeLengths
  import opened TreeCoding
  import opened BlockCost
  import opened BestCodes
  import opened Header
  import opened BlockTypes
  import opened Deflate

  // ----- from frequencies to sizes -----

  lemma {:induction false} LitBounds(t: Maps, syms: seq<Sym>)
    requires MapsOk(t) && AllCoding(t, syms)
    ensures forall i :: 0 <= i < |syms| ==> LitSyms(t, syms)[i] < L_CODES && LitSyms(t, syms)[i] == LitSym(t, syms[i])
    decreases |syms|
  {
    hide DistTables;
    if syms != [] { LitBounds(t, syms[..|syms| - 1]); }
  }

  lemma DCodeBound(t: Maps, d: nat)
    requires MapsOk(t) && d < 32768
    ensures DCode(t.distCode, d) < D_CODES
  {
    hide LengthTables;
  }

  lemma {:induction false} DistBounds(t: Maps, syms: seq<Sym>)
    requires MapsOk(t) && AllCoding(t, syms)
    ensures forall i :: 0 <= i < |DistSyms(t, syms)| ==> DistSyms(t, syms)[i] < D_CODES
    ensures forall i :: 0 <= i < |syms| && syms[i].Pair? ==> DCode(t.distCode, syms[i].dist - 1) in DistSyms(t, syms)
    decreases |syms|
  {
    hide MapsOk, DCode;
    if syms != [] {
      var init, last := syms[..|syms| - 1], syms[|syms| - 1];
      DistBounds(t, init);
      if last.Pair? { DCodeBound(t, last.dist - 1); }
      forall i | 0 <= i < |init| && syms[i].Pair? ensures DCode(t.distCode, syms[i].dist - 1) in DistSyms(t, syms) {
        assert init[i] == syms[i];
      }
    }
  }

  /** The frequencies of the literal/length and distance symbols of the entries. */
  ghost predicate LitCounted(t: Maps, syms: seq<Sym>, freq: seq<nat>) {
    && MapsOk(t) && AllCoding(t, syms) && |freq| >= L_CODES
    && (forall i :: 0 <= i < |syms| ==> LitSyms(t, syms)[i] < L_CODES)
    && freq[..L_CODES] == Bumped(EndOnly(L_CODES), LitSyms(t, syms))
  }

  ghost predicate DistCounted(t: Maps, syms: seq<Sym>, freq: seq<nat>) {
    && MapsOk(t) && AllCoding(t, syms) && |freq| >= D_CODES
    && (forall i :: 0 <= i < |DistSyms(t, syms)| ==> DistSyms(t, syms)[i] < D_CODES)
    && freq[..D_CODES] == Bumped(NoneYet(D_CODES), DistSyms(t, syms))
  }

  /** Every symbol in use has a code and is priced right, in the tree built and in the static one. */
  lemma UsedPriced(d: Desc, freq: seq<nat>, lens: seq<nat>, bl: seq<nat>, list: seq<nat>)
    requires DescOk(d) && Built(d, freq, lens, bl)
    requires forall i :: 0 <= i < |list| ==> list[i] < d.elems && freq[list[i]] >= 1
    ensures forall i :: 0 <= i < |list| ==> list[i] < |lens| && IsSymbol(lens, list[i])
    ensures Priced(d, lens, Per(d, lens), list)
    ensures d.hasStatic ==> Priced(d, d.stree, StaticPer(d, lens), list)
  {
    hide Kraft, CountsOf, Pow2;
  }

  lemma LitUsed(t: Maps, syms: seq<Sym>, freq: seq<nat>)
    requires LitCounted(t, syms, freq)
    ensures freq[END_BLOCK] >= 1 && forall i :: 0 <= i < |syms| ==> freq[LitSyms(t, syms)[i]] >= 1
  {
    hide MapsOk, LitSyms;
    var list := LitSyms(t, syms);
    forall i | 0 <= i < |list| ensures freq[list[i]] >= 1 {
      BumpedUsed(EndOnly(L_CODES), list, i);
      assert freq[list[i]] == freq[..L_CODES][list[i]];
    }
    BumpedMore(EndOnly(L_CODES), list, END_BLOCK);
    assert freq[END_BLOCK] == freq[..L_CODES][END_BLOCK];
  }

  /** The literal/length part of opt_len and static_len. */
  lemma LitCost(t: Maps, syms: seq<Sym>, freq: seq<nat>, ll: seq<nat>, bl: seq<nat>)
    requires LitCounted(t, syms, freq) && Built(LDesc(), freq, ll, bl)
    ensures DescOk(LDesc()) && END_BLOCK < |ll| <= L_CODES && IsSymbol(ll, END_BLOCK)
    ensures Priced(LDesc(), ll, Per(LDesc(), ll), LitSyms(t, syms))
    ensures Priced(LDesc(), StaticLengths(), StaticPer(LDesc(), ll), LitSyms(t, syms))
    ensures forall i :: 0 <= i < |syms| ==> LitSyms(t, syms)[i] < |ll| && IsSymbol(ll, LitSyms(t, syms)[i])
    ensures Bill(freq[..|ll|], Per(LDesc(), ll)) == ll[END_BLOCK] + SumAt(Per(LDesc(), ll), LitSyms(t, syms))
    ensures Bill(freq[..|ll|], StaticPer(LDesc(), ll)) == 7 + SumAt(StaticPer(LDesc(), ll), LitSyms(t, syms))
  {
    hide MapsOk, LitSyms, Bill, SumAt, Bumped, Kraft, CountsOf, Pow2;
    DescsOk();
    var d, list := LDesc(), LitSyms(t, syms);
    LitUsed(t, syms, freq);
    UsedPriced(d, freq, ll, bl, list);
    UsedPriced(d, freq, ll, bl, [END_BLOCK]);
    assert [END_BLOCK][0] == END_BLOCK;
    assert freq[..|ll|] == freq[..L_CODES][..|ll|];
    FrequencyCost(L_CODES, list, Per(d, ll));
    FrequencyCost(L_CODES, list, StaticPer(d, ll));
    assert StaticLengths()[END_BLOCK] == 7;
  }

  lemma DistUsed(t: Maps, syms: seq<Sym>, freq: seq<nat>)
    requires DistCounted(t, syms, freq)
    ensures forall i :: 0 <= i < |DistSyms(t, syms)| ==> freq[DistSyms(t, syms)[i]] >= 1
  {
    hide MapsOk, DistSyms;
    var list := DistSyms(t, syms);
    forall i | 0 <= i < |list| ensures freq[list[i]] >= 1 {
      BumpedUsed(NoneYet(D_CODES), list, i);
      assert freq[list[i]] == freq[..D_CODES][list[i]];
    }
  }

  /** The distance part of opt_len and static_len. */
  lemma DistCost(t: Maps, syms: seq<Sym>, freq: seq<nat>, dl: seq<nat>, bl: seq<nat>)
    requires DistCounted(t, syms, freq) && Built(DDesc(), freq, dl, bl)
    ensures DescOk(DDesc()) && |dl| <= D_CODES
    ensures Priced(DDesc(), dl, Per(DDesc(), dl), DistSyms(t, syms))
    ensures Priced(DDesc(), StaticDistances(), StaticPer(DDesc(), dl), DistSyms(t, syms))
    ensures forall i :: 0 <= i < |DistSyms(t, syms)| ==>
      DistSyms(t, syms)[i] < |dl| && IsSymbol(dl, DistSyms(t, syms)[i])
    ensures Bill(freq[..|dl|], Per(DDesc(), dl)) == SumAt(Per(DDesc(), dl), DistSyms(t, syms))
    ensures Bill(freq[..|dl|], StaticPer(DDesc(), dl)) == SumAt(StaticPer(DDesc(), dl), DistSyms(t, syms))
  {
    hide MapsOk, DistSyms, Bill, SumAt, Bumped, Kraft, CountsOf, Pow2;
    DescsOk();
    var d, list := DDesc(), DistSyms(t, syms);
    DistUsed(t, syms, freq);
    UsedPriced(d, freq, dl, bl, list);
    assert freq[..|dl|] == freq[..D_CODES][..|dl|];
    PlainCost(D_CODES, list, Per(d, dl));
    PlainCost(D_CODES, list, StaticPer(d, dl));
  }

  /** If all symbols of the entries have codes, the entries can be sent. */
  lemma EntriesCoded(t: Maps, syms: seq<Sym>, c: Codes)
    requires MapsOk(t) && AllCoding(t, syms)
    requires forall i :: 0 <= i < |syms| ==> IsSymbol(c.ll, LitSyms(t, syms)[i])
    requires forall i :: 0 <= i < |DistSyms(t, syms)| ==> IsSymbol(c.dl, DistSyms(t, syms)[i])
    ensures AllCoded(c, t, syms)
  {
    hide LitSyms, DistSyms, DCode, LengthTables, DistTables, IsSymbol;
    LitBounds(t, syms);
    DistBounds(t, syms);
    forall i | 0 <= i < |syms| ensures HasCodes(c, t, syms[i]) {
      assert IsSymbol(c.ll, LitSyms(t, syms)[i]);
    }
  }

  lemma FixedCoded(t: Maps, syms: seq<Sym>)
    requires MapsOk(t) && AllCoding(t, syms)
    ensures AllCoded(Fixed(), t, syms) && IsSymbol(Fixed().ll, END_BLOCK)
  {
    hide LitSyms, DistSyms;
    LitBounds(t, syms);
    DistBounds(t, syms);
    EntriesCoded(t, syms, Fixed());
  }

  /** The block data takes exactly the bits that building the two trees added to opt_len, and with the
      fixed trees what it added to static_len. */
  lemma BodySize(t: Maps, syms: seq<Sym>, lf: seq<nat>, df: seq<nat>, ll: seq<nat>, dl: seq<nat>, bl: seq<nat>,
                 bl': seq<nat>)
    requires LitCounted(t, syms, lf) && Built(LDesc(), lf, ll, bl) && DistCounted(t, syms, df)
    requires Built(DDesc(), df, dl, bl')
    ensures DescOk(LDesc()) && DescOk(DDesc()) && END_BLOCK < |ll| && IsSymbol(ll, END_BLOCK)
    ensures AllCoded(Codes(ll, dl), t, syms) && AllCoded(Fixed(), t, syms) && IsSymbol(Fixed().ll, END_BLOCK)
    ensures |BlockBits(Codes(ll, dl), t, syms)| ==
      Bill(lf[..|ll|], Per(LDesc(), ll)) + Bill(df[..|dl|], Per(DDesc(), dl))
    ensures |BlockBits(Fixed(), t, syms)| == Bill(lf[..|ll|], StaticPer(LDesc(), ll)) +
      Bill(df[..|dl|], StaticPer(DDesc(), dl))
  {
    hide LitSyms, DistSyms, Bill, SumAt, Bumped, Kraft, CountsOf, Pow2, Per, StaticPer, DescOk, BlockBits, HasCodes,
         PricedAt;
    LitCost(t, syms, lf, ll, bl);
    DistCost(t, syms, df, dl, bl');
    EntriesCoded(t, syms, Codes(ll, dl));
    FixedCoded(t, syms);
    BlockSize(Codes(ll, dl), t, syms, Per(LDesc(), ll), Per(DDesc(), dl));
    BlockSize(Fixed(), t, syms, StaticPer(LDesc(), ll), StaticPer(DDesc(), dl));
    assert StaticLengths()[END_BLOCK] == 7;
  }

  // ----- least cost -----

  /** No prefix code is cheaper, unless some code has the maximal length. */
  ghost predicate Economic(freq: seq<nat>, lens: seq<nat>) {
    Reaching(lens, MAXBITS) || Cheapest(freq, Fit(lens, |freq|))
  }

  lemma OptimalEconomic(d: Desc, freq: seq<nat>, padded: seq<nat>, m: nat)
    requires d.maxLength == MAXBITS && d.elems <= |freq| && Optimal(d, freq, padded)
    requires |padded| == d.elems && m <= d.elems && ValidLengths(padded)
    requires forall k :: m <= k < d.elems ==> padded[k] == 0
    ensures Economic(freq[..d.elems], padded[..m])
  {
    hide Cheapest, RarerNoShorter;
    assert Fit(padded[..m], d.elems) == padded;
    if Reaching(padded, MAXBITS) {
      var n :| 0 <= n < |padded| && padded[n] == MAXBITS;
      assert padded[..m][n] == MAXBITS;
    }
  }

  /** What build_tree() promises for both trees makes them the best codes for the entries. */
  lemma EconomicBest(c: Codes, t: Maps, syms: seq<Sym>, lf: seq<nat>, df: seq<nat>)
    requires LitCounted(t, syms, lf) && DistCounted(t, syms, df) && AllCoded(c, t, syms) && IsSymbol(c.ll, END_BLOCK)
    requires Economic(lf[..L_CODES], c.ll) && Economic(df[..D_CODES], c.dl)
    ensures Reaching(c.ll, MAXBITS) || Reaching(c.dl, MAXBITS) || FewestBits(c, t, syms)
  {
    hide FewestBits, Cheapest, LitSyms, DistSyms, Bumped, MapsOk, HasCodes, Fit, Reaching;
    if !Reaching(c.ll, MAXBITS) && !Reaching(c.dl, MAXBITS) {
      CheapestBest(c, t, syms, lf[..L_CODES], df[..D_CODES]);
    }
  }

  // ----- the bit length tree -----

  lemma {:induction false} CountPad(lens: seq<nat>, padded: seq<nat>, n: nat, l: nat)
    requires lens <= padded && n <= |padded| && l >= 1 && forall i :: |lens| <= i < |padded| ==> padded[i] == 0
    ensures Count(padded, n, l) == Count(lens, if n <= |lens| then n else |lens|, l)
    decreases n
  {
    if n > 0 { CountPad(lens, padded, n - 1, l); }
  }

  lemma {:induction false} BelowPad(lens: seq<nat>, padded: seq<nat>, l: nat)
    requires l <= MAXBITS + 1 && forall k :: 0 <= k <= MAXBITS ==> BlCount(padded, k) == BlCount(lens, k)
    ensures Below(padded, l) == Below(lens, l)
    decreases l
  {
    hide BlCount, Shl;
    if l > 1 { BelowPad(lens, padded, l - 1); }
  }

  /** Symbols without a code behind the others change nothing. */
  lemma PadKeeps(lens: seq<nat>, padded: seq<nat>, bl: seq<nat>)
    requires lens <= padded && CountsOf(bl, lens) && forall i :: |lens| <= i < |padded| ==> padded[i] == 0
    ensures CountsOf(bl, padded) && Kraft(padded) == Kraft(lens)
  {
    hide Count, Below;
    forall k | 0 <= k <= MAXBITS ensures BlCount(padded, k) == BlCount(lens, k) {
      if k >= 1 { CountPad(lens, padded, |padded|, k); }
    }
    BelowPad(lens, padded, MAXBITS + 1);
  }

  /** The trees take exactly the bits that building the bit length tree added to opt_len. */
  lemma TreesSize(ll: seq<nat>, dl: seq<nat>, freq: seq<nat>, lens: seq<nat>, bl: seq<nat>, counts: seq<nat>)
    requires ValidLengths(ll) && ValidLengths(dl) && Built(BLDesc(), freq, lens, counts) && |freq| >= BL_CODES
    requires freq[..BL_CODES] == Bumped(NoneYet(BL_CODES), ItemSyms(TreeItems(ll) + TreeItems(dl)))
    requires lens <= bl && |bl| == BL_CODES && forall i :: |lens| <= i < |bl| ==> bl[i] == 0
    ensures DescOk(BLDesc()) && BlLengths(bl) && ItemsCoded(bl, TreeItems(ll)) && ItemsCoded(bl, TreeItems(dl))
    ensures |ItemsBits(bl, TreeItems(ll))| + |ItemsBits(bl, TreeItems(dl))| == Bill(freq[..|lens|], Per(BLDesc(), lens))
  {
    hide TreeItems, Bill, SumAt, Bumped, Kraft, CountsOf, Pow2;
    DescsOk();
    var d, a, b := BLDesc(), TreeItems(ll), TreeItems(dl);
    var items := a + b;
    var list := ItemSyms(items);
    forall i | 0 <= i < |list| ensures list[i] < BL_CODES && freq[list[i]] >= 1 {
      BumpedUsed(NoneYet(BL_CODES), list, i);
      assert freq[list[i]] == freq[..BL_CODES][list[i]];
    }
    UsedPriced(d, freq, lens, counts, list);
    assert ItemsCoded(bl, items) by { ItemsHaveCodes(lens, bl, items); }
    CodedSplit(bl, a, b);
    ItemsBitsConcat(bl, a, b);
    PricedPad(d, lens, bl, Per(d, lens), list);
    ItemsSize(bl, items, Per(d, lens));
    assert freq[..|lens|] == freq[..BL_CODES][..|lens|];
    PlainCost(BL_CODES, list, Per(d, lens));
  }

  lemma ItemsHaveCodes(lens: seq<nat>, bl: seq<nat>, items: seq<Item>)
    requires lens <= bl && forall i :: 0 <= i < |items| ==> ItemOk(items[i]) && IsSymbol(lens, ItemSyms(items)[i])
    ensures ItemsCoded(bl, items)
  {
    forall i | 0 <= i < |items| ensures IsSymbol(bl, ItemSym(items[i])) {
      assert ItemSyms(items)[i] == ItemSym(items[i]);
    }
  }

  lemma PricedPad(d: Desc, lens: seq<nat>, bl: seq<nat>, per: seq<nat>, list: seq<nat>)
    requires lens <= bl && Priced(d, lens, per, list)
    ensures Priced(d, bl, per, list)
  {
  }

  // ----- the coder -----

  /** The trees of a block: code lengths of both alphabets and of the code length alphabet, how many of
      those are sent, and the code words. */
  datatype Trees = Trees(c: Codes, bl: seq<nat>, n: nat, ltree: seq<Ct>, dtree: seq<Ct>, bltree: seq<Ct>)

  ghost predicate TreesReady(r: Trees) {
    Sendable(r.bl, r.n, r.c) && TreesOk(r.c, r.ltree, r.dtree) && Coded(r.bltree, r.bl)
  }

  /** gen_codes() on the lengths of a tree. */
  method MakeTree(lens: seq<nat>, blCount: seq<nat>) returns (tree: seq<Ct>)
    requires ValidLengths(lens) && CountsOf(blCount, lens)
    ensures Coded(tree, lens)
  {
    hide BlCount, Code;
    var a := new Ct[|lens|](i requires 0 <= i < |lens| => Ct(0, lens[i]));
    GenCodes(a, lens, blCount);
    tree := a[..];
  }

  /** max_blindex + 1: one past the last rank with a code. */
  method LastRank(bl: seq<nat>) returns (n: nat)
    requires BlLengths(bl) && exists s :: 0 <= s < 16 && bl[s] > 0
    ensures 4 <= n <= BL_CODES && Ranked(bl, n) == bl && bl[OrderAt(n - 1)] != 0
  {
    hide OrderAt;
    var k := BL_CODES - 1;
    ghost var u :| 0 <= u < 16 && bl[u] > 0;
    OrderPlace(u, 0);
    while k >= 3 && bl[OrderAt(k)] == 0
      invariant Place(u) <= k < BL_CODES
      invariant forall i :: k < i < BL_CODES ==> bl[OrderAt(i)] == 0
    {
      OrderPlace(u, k);
      k := k - 1;
    }
    n := k + 1;
    forall s | 0 <= s < BL_CODES && Place(s) >= n ensures bl[s] == 0 { OrderPlace(s, 0); }
  }

  /** Without a length above zero among the items, all lengths are zero. */
  lemma {:induction false} OnlyZeros(have: seq<nat>, items: seq<Item>)
    requires ItemsFit(have, items) && forall i :: 0 <= i < |have| ==> have[i] == 0
    requires forall i :: 0 <= i < |items| && items[i].One? ==> items[i].len == 0
    ensures forall i :: 0 <= i < |ApplyAll(have, items)| ==> ApplyAll(have, items)[i] == 0
    decreases |items|
  {
    if items != [] { OnlyZeros(Apply(have, items[0]), items[1..]); }
  }

  /** A tree with a code has a code length symbol below 16. */
  lemma PlainLength(bl: seq<nat>, ll: seq<nat>, s: nat)
    requires ValidLengths(ll) && IsSymbol(ll, s) && ItemsCoded(bl, TreeItems(ll)) && |bl| == BL_CODES
    ensures exists k :: 0 <= k < 16 && bl[k] > 0
  {
    hide TreeItems, ApplyAll, ItemsFit;
    var items := TreeItems(ll);
    TreeApplies(ll, []);
    assert [] + ll == ll;
    if forall i :: 0 <= i < |items| && items[i].One? ==> items[i].len == 0 {
      OnlyZeros([], items);
    } else {
      var i :| 0 <= i < |items| && items[i].One? && items[i].len != 0;
      assert ItemOk(items[i]) && IsSymbol(bl, ItemSym(items[i]));
    }
  }

  /** The static trees of tr_static_init(). */
  method StaticTrees() returns (l: seq<Ct>, d: seq<Ct>)
    ensures Coded(l, StaticLengths()) && Coded(d, StaticDistances())
  {
    hide Count, Code;
    var counts: seq<nat> := seq(MAXBITS + 1, _ => 0);
    for n := 0 to 288
      invariant |counts| == MAXBITS + 1 && forall k :: 0 <= k <= MAXBITS ==> counts[k] == StaticCount(n, k)
    {
      var len := StaticLength(n);
      counts := counts[len := counts[len] + 1];
    }
    forall k | 0 <= k <= MAXBITS ensures counts[k] == BlCount(StaticLengths(), k) { CountStatic(288, k); }
    l := MakeTree(StaticLengths(), counts);
    d := [];
    for n := 0 to 32
      invariant |d| == n && forall k: nat :: k < n ==> d[k].len == 5 && d[k].code == Code(StaticDistances(), k)
    {
      FiveBits(n);
      var code := BiReverse(n, 5);
      d := d + [Ct(code, 5)];
    }
  }

  /** The canonical codes of 32 symbols of five bits are the symbols themselves. */
  lemma FiveBits(n: nat)
    requires n < 32
    ensures Code(StaticDistances(), n) == Rev(n, 5)
  {
    hide Count, Rev;
    var lens := StaticDistances();
    CountFives(n, 5);
    forall l | 0 <= l < 5 ensures BlCount(lens, l) == 0 { CountFives(32, l); }
    assert FirstCode(lens, 1) == 0 && FirstCode(lens, 2) == 0 && FirstCode(lens, 3) == 0 && FirstCode(lens, 4) == 0;
  }

  class Coder {
    const b: Builder
    const w: Writer
    const maps: Maps
    const staticL: seq<Ct>
    const staticD: seq<Ct>
    const lfreq: array<nat>
    const llen: array<nat>
    const dfreq: array<nat>
    const dlen: array<nat>
    const blfreq: array<nat>
    const bllen: array<nat>

    constructor (maps: Maps, staticL: seq<Ct>, staticD: seq<Ct>)
      requires MapsOk(maps) && Coded(staticL, StaticLengths()) && Coded(staticD, StaticDistances())
      ensures Ok() && fresh(b) && fresh(w) && w.Valid() && w.Sent() == []
      ensures fresh(lfreq) && fresh(llen) && fresh(dfreq) && fresh(dlen) && fresh(blfreq) && fresh(bllen)
      ensures fresh(b.heap) && fresh(b.depth) && fresh(b.blCount)
    {
      hide MapsOk, Coded, BytesToBits, ToBits, Pow2;
      this.maps, this.staticL, this.staticD := maps, staticL, staticD;
      b := new Builder();
      w := new Writer();
      lfreq, llen := new nat[2 * L_CODES + 1], new nat[2 * L_CODES + 1];
      dfreq, dlen := new nat[2 * D_CODES + 1], new nat[2 * D_CODES + 1];
      blfreq, bllen := new nat[2 * BL_CODES + 1], new nat[2 * BL_CODES + 1];
    }

    ghost predicate Apart() {
      var all := [lfreq, llen, dfreq, dlen, blfreq, bllen, b.heap, b.depth, b.blCount];
      forall i, j :: 0 <= i < j < |all| ==> all[i] != all[j]
    }

    ghost predicate Ok() {
      && MapsOk(maps) && Coded(staticL, StaticLengths()) && Coded(staticD, StaticDistances()) && Apart()
      && lfreq.Length == llen.Length == 2 * L_CODES + 1 && dfreq.Length == dlen.Length == 2 * D_CODES + 1
      && blfreq.Length == bllen.Length == 2 * BL_CODES + 1
      && b.heap.Length == b.depth.Length == HEAP_SIZE && b.blCount.Length == MAXBITS + 1
    }

    lemma Arrays()
      requires Ok()
      ensures b.Arrays(lfreq, llen) && b.Arrays(dfreq, dlen) && b.Arrays(blfreq, bllen)
      ensures {lfreq, llen, b.heap, b.depth, b.blCount} !! {dfreq, dlen, blfreq, bllen}
      ensures {dfreq, dlen, b.heap, b.depth, b.blCount} !! {lfreq, llen, blfreq, bllen}
      ensures {blfreq, bllen, b.heap, b.depth, b.blCount} !! {lfreq, llen, dfreq, dlen}
    {
      hide MapsOk, Coded;
      var all := [lfreq, llen, dfreq, dlen, blfreq, bllen, b.heap, b.depth, b.blCount];
      assert all[0] == lfreq && all[1] == llen && all[2] == dfreq && all[3] == dlen && all[4] == blfreq &&
        all[5] == bllen;
      assert all[6] == b.heap && all[7] == b.depth && all[8] == b.blCount;
    }

    /** The symbols tallied so far are counted. */
    ghost predicate Counting(syms: seq<Sym>)
      reads lfreq, dfreq, blfreq
    {
      && LitCounted(maps, syms, lfreq[..]) && DistCounted(maps, syms, dfreq[..])
      && blfreq.Length >= BL_CODES && forall s :: 0 <= s < BL_CODES ==> blfreq[s] == 0
    }

    /** init_block() */
    method InitBlock()
      requires Ok()
      modifies b`optLen, b`staticLen, lfreq, dfreq, blfreq
      ensures Counting([]) && b.optLen == 0 && b.staticLen == 0
    {
      hide MapsOk, Coded, Bumped;
      Arrays();
      for n := 0 to L_CODES
        invariant forall i :: 0 <= i < n ==> lfreq[i] == 0
        modifies lfreq
      {
        lfreq[n] := 0;
      }
      for n := 0 to D_CODES
        invariant forall i :: 0 <= i < n ==> dfreq[i] == 0
        modifies dfreq
      {
        dfreq[n] := 0;
      }
      for n := 0 to BL_CODES
        invariant forall i :: 0 <= i < n ==> blfreq[i] == 0
        modifies blfreq
      {
        blfreq[n] := 0;
      }
      lfreq[END_BLOCK] := 1;
      b.optLen, b.staticLen := 0, 0;
      NothingBumped();
      assert lfreq[..L_CODES] == EndOnly(L_CODES) && dfreq[..D_CODES] == NoneYet(D_CODES);
    }

    /** The counting part of _tr_tally(). */
    method Tally(sym: Sym, ghost syms: seq<Sym>)
      requires Ok() && Counting(syms) && Coding(maps, sym)
      modifies lfreq, dfreq
      ensures Counting(syms + [sym])
    {
      hide MapsOk, Coded, Bumped, DCode;
      Arrays();
      ghost var lf: seq<nat>, df: seq<nat>, more := lfreq[..], dfreq[..], syms + [sym];
      assert more[..|syms|] == syms;
      LitBounds(maps, more);
      DistBounds(maps, more);
      var s := LitSym(maps, sym);
      LitBounds(maps, [sym]);
      assert LitSyms(maps, more)[|syms|] == s;
      lfreq[s] := lfreq[s] + 1;
      BumpedPush(EndOnly(L_CODES), LitSyms(maps, syms), s);
      assert lfreq[..L_CODES] == lf[..L_CODES][s := lf[s] + 1];
      if sym.Pair? {
        DCodeBound(maps, sym.dist - 1);
        var d := DCode(maps.distCode, sym.dist - 1);
        dfreq[d] := dfreq[d] + 1;
        BumpedPush(NoneYet(D_CODES), DistSyms(maps, syms), d);
        assert dfreq[..D_CODES] == df[..D_CODES][d := df[d] + 1];
      } else {
        assert DistSyms(maps, syms) + [] == DistSyms(maps, syms);
      }
    }

    /** build_tree() on the literal/length tree. */
    method BuildLit(ghost syms: seq<Sym>) returns (ll: seq<nat>, tree: seq<Ct>, ghost counts: seq<nat>)
      requires Ok() && Counting(syms) && b.optLen == 0 && b.staticLen == 0
      modifies b, b.heap, b.depth, b.blCount, lfreq, llen
      ensures DescOk(LDesc()) && Built(LDesc(), old(lfreq[..]), ll, counts) && Coded(tree, ll) && ValidLengths(ll)
      ensures b.optLen == Bill(old(lfreq[..])[..|ll|], Per(LDesc(), ll))
      ensures b.staticLen == Bill(old(lfreq[..])[..|ll|], StaticPer(LDesc(), ll))
      ensures Economic(old(lfreq[..L_CODES]), ll)
    {
      hide Bill, Per, StaticPer, Pow2, Kraft, Coded, MapsOk, LitCounted, DistCounted, Economic, Optimal, KeepsTo;
      ghost var freq := lfreq[..];
      DescsOk();
      Arrays();
      var max := BuildTree(b, LDesc(), lfreq, llen);
      ll, counts := llen[..max + 1], b.blCount[..];
      OptimalEconomic(LDesc(), freq, llen[..L_CODES], max + 1);
      assert llen[..L_CODES][..max + 1] == ll && freq[..L_CODES] == old(lfreq[..L_CODES]);
      tree := MakeTree(ll, b.blCount[..]);
    }

    method BuildDist(ghost syms: seq<Sym>) returns (dl: seq<nat>, tree: seq<Ct>, ghost counts: seq<nat>)
      requires Ok() && DistCounted(maps, syms, dfreq[..])
      modifies b, b.heap, b.depth, b.blCount, dfreq, dlen
      ensures DescOk(DDesc()) && Built(DDesc(), old(dfreq[..]), dl, counts) && Coded(tree, dl) && ValidLengths(dl)
      ensures b.optLen == old(b.optLen) + Bill(old(dfreq[..])[..|dl|], Per(DDesc(), dl))
      ensures b.staticLen == old(b.staticLen) + Bill(old(dfreq[..])[..|dl|], StaticPer(DDesc(), dl))
      ensures Economic(old(dfreq[..D_CODES]), dl)
    {
      hide Bill, Per, StaticPer, Pow2, Kraft, Coded, MapsOk, LitCounted, DistCounted, Economic, Optimal, KeepsTo;
      ghost var freq := dfreq[..];
      DescsOk();
      Arrays();
      var max := BuildTree(b, DDesc(), dfreq, dlen);
      dl, counts := dlen[..max + 1], b.blCount[..];
      OptimalEconomic(DDesc(), freq, dlen[..D_CODES], max + 1);
      assert dlen[..D_CODES][..max + 1] == dl && freq[..D_CODES] == old(dfreq[..D_CODES]);
      tree := MakeTree(dl, b.blCount[..]);
    }

    /** build_bl_tree(): scan both trees and build the bit length tree. */
    method BuildBl(ll: seq<nat>, dl: seq<nat>) returns (bl: seq<nat>, n: nat, tree: seq<Ct>)
      requires Ok() && ValidLengths(ll) && ValidLengths(dl) && 257 <= |ll| <= L_CODES && 1 <= |dl| <= D_CODES
      requires IsSymbol(ll, END_BLOCK) && forall s :: 0 <= s < BL_CODES ==> blfreq[s] == 0
      modifies b, b.heap, b.depth, b.blCount, blfreq, bllen
      ensures Headed(bl, n, ll, dl) && Ranked(bl, n) == bl && Kraft(bl) == Pow2(MAXBITS) && Coded(tree, bl)
      ensures b.optLen == old(b.optLen) + |HeaderBits(bl, n, ll, dl)| && b.staticLen == old(b.staticLen)
      ensures Optimal(BLDesc(), Bumped(NoneYet(BL_CODES), ItemSyms(TreeItems(ll) + TreeItems(dl))), bl)
    {
      hide Bill, Per, StaticPer, Pow2, Kraft, Coded, MapsOk, TreeItems, Ranked, CountsOf, Counts, Optimal, KeepsTo;
      DescsOk();
      Arrays();
      ghost var freq0, items := blfreq[..], TreeItems(ll) + TreeItems(dl);
      ScanTree(blfreq, ll);
      ghost var freq1 := blfreq[..];
      ScanTree(blfreq, dl);
      CountsConcat(freq0, freq1, blfreq[..], TreeItems(ll), TreeItems(dl));
      CountsAreBumps(blfreq[..], freq0, items);
      ghost var freq := blfreq[..];
      var max := BuildTree(b, BLDesc(), blfreq, bllen);
      ghost var lens := bllen[..max + 1];
      bl := bllen[..BL_CODES];
      ghost var counts := b.blCount[..];
      TreesSize(ll, dl, freq, lens, bl, counts);
      OptimalFrame(BLDesc(), freq, freq[..BL_CODES], bl);
      NoStaticCost(freq[..|lens|], lens);
      PadKeeps(lens, bl, counts);
      PlainLength(bl, ll, END_BLOCK);
      n := LastRank(bl);
      ShortLengths(bl);
      tree := MakeTree(bl, b.blCount[..]);
      b.optLen := b.optLen + 3 * n + 5 + 5 + 4;
    }

    /** The trees of the block, with opt_len and static_len the exact sizes of its two coded forms. No other codes send
        the entries in fewer bits, unless one of these has 15 bits. */
    method BuildTrees(ghost syms: seq<Sym>) returns (r: Trees)
      requires Ok() && Counting(syms) && b.optLen == 0 && b.staticLen == 0
      modifies b, b.heap, b.depth, b.blCount, lfreq, llen, dfreq, dlen, blfreq, bllen
      ensures TreesReady(r) && AllCoded(r.c, maps, syms) && AllCoded(Fixed(), maps, syms)
      ensures IsSymbol(Fixed().ll, END_BLOCK)
      ensures b.optLen == |HeaderBits(r.bl, r.n, r.c.ll, r.c.dl)| + |BlockBits(r.c, maps, syms)|
      ensures b.staticLen == |BlockBits(Fixed(), maps, syms)|
      ensures Reaching(r.c.ll, MAXBITS) || Reaching(r.c.dl, MAXBITS) || FewestBits(r.c, maps, syms)
    {
      hide Bill, Per, StaticPer, Pow2, Kraft, Coded, MapsOk, LitCounted, DistCounted, BlockBits, HeaderBits, Ranked,
        AllCoded, DescOk, ItemsCoded, TreeItems, CountsOf, StaticLengths, StaticDistances, Economic, FewestBits,
        Reaching;
      Arrays();
      ghost var lf, df := lfreq[..], dfreq[..];
      var ll, ltree, counts := BuildLit(syms);
      var dl, dtree, counts' := BuildDist(syms);
      BodySize(maps, syms, lf, df, ll, dl, counts, counts');
      EconomicBest(Codes(ll, dl), maps, syms, lf, df);
      var bl, n, bltree := BuildBl(ll, dl);
      r := Trees(Codes(ll, dl), bl, n, ltree, dtree, bltree);
    }
  }

  /** The bits carry out to out', whatever follows them, `at` bits into the stream. */
  ghost predicate Carries(at: nat, bits: seq<bool>, out: seq<byte>, out': seq<byte>) {
    forall rest: seq<bool> :: InflateBlock(at, bits + rest, out) == Done(out', rest)
  }

  datatype Kind = StoredKind | FixedKind | DynamicKind

  /** The form that takes the fewest bytes, counting the three bits of the block type and for a stored block its two
      lengths: stored before fixed before dynamic if they are equal. A stored block needs its bytes at hand, and a
      dynamic one is not sent if only the fixed codes are wanted. */
  ghost predicate Smallest(k: Kind, opt: nat, fixed: nat, raw: Raw, storedLen: nat, fixedOnly: bool) {
    var s, f, d := storedLen + 4, (3 + fixed + 7) / 8, (3 + opt + 7) / 8;
    && (k == StoredKind <==> raw.Bytes? && s <= f && (fixedOnly || s <= d))
    && (k == DynamicKind <==> !fixedOnly && d < f && (raw.Bytes? ==> d < s))
  }

  /** The bits of the block in the form k, `at` bits into the stream. */
  ghost predicate InForm(k: Kind, r: Trees, t: Maps, syms: seq<Sym>, raw: Raw, last: bool, at: nat, bits: seq<bool>)
    requires TreesReady(r) && AllCoded(r.c, t, syms) && AllCoded(Fixed(), t, syms) && IsSymbol(Fixed().ll, END_BLOCK)
  {
    match k
    case StoredKind => raw.Bytes? && |raw.data| <= 65535 && bits == StoredBits(at, last, raw.data)
    case FixedKind => bits == FixedBits(last, t, syms)
    case DynamicKind => bits == DynamicBits(last, r.bl, r.n, r.c, t, syms)
  }

  /** The choice of _tr_flush_block() from the predicted sizes in bits. */
  function Choice(opt: nat, fixed: nat, raw: Raw, storedLen: nat, fixedOnly: bool): (k: Kind)
    ensures Smallest(k, opt, fixed, raw, storedLen, fixedOnly)
  {
    var optb, fixedb := (opt + 3 + 7) / 8, (fixed + 3 + 7) / 8;
    var best := if fixedb <= optb || fixedOnly then fixedb else optb;
    if storedLen + 4 <= best && raw.Bytes? then StoredKind else if fixedb == best then FixedKind else DynamicKind
  }

  /** Sends the block in the chosen form. */
  method SendBlock(c: Coder, kind: Kind, r: Trees, syms: seq<Sym>, raw: Raw, last: bool, ghost out: seq<byte>)
    returns (ghost bits: seq<bool>)
    requires c.Ok() && c.w.Valid() && TreesReady(r) && AllCoded(r.c, c.maps, syms)
    requires AllCoded(Fixed(), c.maps, syms) && IsSymbol(Fixed().ll, END_BLOCK) && SymsOk(out, syms)
    requires kind == StoredKind ==> raw.Bytes? && |raw.data| <= 65535 && Expand(out, syms) == out + raw.data
    modifies c.w
    ensures c.w.Valid() && c.w.Sent() == old(c.w.Sent()) + bits
    ensures Carries(|old(c.w.Sent())|, bits, out, Expand(out, syms))
    ensures InForm(kind, r, c.maps, syms, raw, last, |old(c.w.Sent())|, bits)
    ensures |bits| >= 1 && bits[0] == last
  {
    hide ToBits, BytesToBits, Pow2, Kraft, Coded, HeaderBits, BlockBits, AllCoded, SymsOk, Expand, InflateBlock,
         Headed, Ranked,
      StaticLengths, StaticDistances, MapsOk;
    ghost var sent, at := c.w.Sent(), |c.w.Sent()|;
    SmallPowers();
    match kind {
      case StoredKind =>
        StoredBlock(c.w, raw.data, last);
        bits := StoredBits(at, last, raw.data);
        forall rest ensures InflateBlock(at, bits + rest, out) == Done(Expand(out, syms), rest) {
          StoredRoundTrip(at, last, raw.data, rest, out);
        }
        TypeRoundTrip(0, last, bits[3..]);
      case FixedKind =>
        c.w.SendBits(if last then 3 else 2, 3);
        FixedTrees(c);
        CompressBlock(c.w, c.maps, c.staticL, c.staticD, syms, Fixed());
        bits := FixedBits(last, c.maps, syms);
        Append(sent, TypeBits(1, last), BlockBits(Fixed(), c.maps, syms));
        forall rest ensures InflateBlock(at, bits + rest, out) == Done(Expand(out, syms), rest) {
          FixedRoundTrip(at, last, c.maps, syms, rest, out);
        }
        TypeRoundTrip(1, last, bits[3..]);
      case DynamicKind =>
        c.w.SendBits(if last then 5 else 4, 3);
        SendAllTrees(c.w, r);
        CompressBlock(c.w, c.maps, r.ltree, r.dtree, syms, r.c);
        bits := DynamicBits(last, r.bl, r.n, r.c, c.maps, syms);
        Gather(sent, TypeBits(2, last), HeaderBits(r.bl, r.n, r.c.ll, r.c.dl), BlockBits(r.c, c.maps, syms), []);
        forall rest ensures InflateBlock(at, bits + rest, out) == Done(Expand(out, syms), rest) {
          DynamicRoundTrip(at, last, r.bl, r.n, r.c, c.maps, syms, rest, out);
        }
        TypeRoundTrip(2, last, bits[3..]);
    }
  }

  /** _tr_flush_block(): both predictions are exact whatever is sent, the form sent takes no more bytes than the others,
      and it decodes to the expansion of the symbols; the counters are ready for the next block. */
  method TrFlushBlock(c: Coder, syms: seq<Sym>, raw: Raw, storedLen: nat, last: bool, fixedOnly: bool,
                      ghost out: seq<byte>)
    returns (kind: Kind, opt: nat, fixed: nat, ghost r: Trees, ghost bits: seq<bool>)
    requires c.Ok() && c.Counting(syms) && c.b.optLen == 0 && c.b.staticLen == 0 && c.w.Valid() && SymsOk(out, syms)
    requires raw.Bytes? ==> |raw.data| == storedLen <= 65535 && Expand(out, syms) == out + raw.data
    modifies c.b, c.b.heap, c.b.depth, c.b.blCount, c.lfreq, c.llen, c.dfreq, c.dlen, c.blfreq, c.bllen, c.w
    ensures c.Counting([]) && c.b.optLen == 0 && c.b.staticLen == 0 && c.w.Valid()
    ensures TreesReady(r) && AllCoded(r.c, c.maps, syms) && AllCoded(Fixed(), c.maps, syms)
    ensures IsSymbol(Fixed().ll, END_BLOCK)
    ensures opt == |HeaderBits(r.bl, r.n, r.c.ll, r.c.dl)| + |BlockBits(r.c, c.maps, syms)|
    ensures fixed == |BlockBits(Fixed(), c.maps, syms)|
    ensures Reaching(r.c.ll, MAXBITS) || Reaching(r.c.dl, MAXBITS) || FewestBits(r.c, c.maps, syms)
    ensures Smallest(kind, opt, fixed, raw, storedLen, fixedOnly)
    ensures InForm(kind, r, c.maps, syms, raw, last, |old(c.w.Sent())|, bits)
    ensures |bits| >= 1 && bits[0] == last && Carries(|old(c.w.Sent())|, bits, out, Expand(out, syms))
    ensures c.w.Sent() == old(c.w.Sent()) + bits + if last then ToBits(0, Pad(|old(c.w.Sent()) + bits|)) else []
    ensures last ==> c.w.Sent() == BytesToBits(c.w.pending)
  {
    hide ToBits, BytesToBits, Pow2, Coded, HeaderBits, BlockBits, AllCoded, SymsOk, Expand, Carries, MapsOk, TreesReady,
      LitCounted, DistCounted, StaticLengths, StaticDistances, Pad, FewestBits, Reaching;
    ghost var sent := c.w.Sent();
    var trees := c.BuildTrees(syms);
    r := trees;
    opt, fixed := c.b.optLen, c.b.staticLen;
    kind := Choice(opt, fixed, raw, storedLen, fixedOnly);
    bits := SendBlock(c, kind, trees, syms, raw, last, out);
    c.InitBlock();
    if last { c.w.Windup(); } else { assert sent + bits + [] == sent + bits; }
  }

  lemma FixedTrees(c: Coder)
    requires c.Ok()
    ensures TreesOk(Fixed(), c.staticL, c.staticD)
  {
    hide MapsOk, Coded;
  }

  /** _tr_init() */
  method TrInit() returns (c: Coder)
    ensures fresh(c) && c.Ok() && c.Counting([]) && c.w.Valid() && c.w.Sent() == [] && c.b.optLen == 0
    ensures c.b.staticLen == 0
    ensures fresh(c.b) && fresh(c.w) && fresh(c.b.heap) && fresh(c.b.depth) && fresh(c.b.blCount)
    ensures fresh(c.lfreq) && fresh(c.llen) && fresh(c.dfreq) && fresh(c.dlen) && fresh(c.blfreq) && fresh(c.bllen)
  {
    hide LengthTables, DistTables, Coded, LitCounted, DistCounted, BytesToBits, ToBits, Pow2;
    var lc, bl := InitLengths();
    var dc, bd := InitDists();
    var l, d := StaticTrees();
    c := new Coder(Maps(lc[..], bl[..], dc[..], bd[..]), l, d);
    c.InitBlock();
  }

  lemma ShortLengths(bl: seq<nat>)
    requires BlLengths(bl)
    ensures ValidLengths(bl)
  {
  }

  lemma NoStaticCost(freq: seq<nat>, lens: seq<nat>)
    requires DescOk(BLDesc()) && |freq| == |lens| <= BL_CODES
    ensures Bill(freq, StaticPer(BLDesc(), lens)) == 0
  {
    hide DescOk;
    BillFree(freq, StaticPer(BLDesc(), lens));
  }

  lemma NothingBumped()
    ensures Bumped(EndOnly(L_CODES), []) == EndOnly(L_CODES) && Bumped(NoneYet(D_CODES), []) == NoneYet(D_CODES)
  {
  }

  lemma BumpedPush(freq: seq<nat>, list: seq<nat>, s: nat)
    requires s < |freq| && forall i :: 0 <= i < |list| ==> list[i] < |freq|
    ensures Bumped(freq, list + [s]) == Bumped(freq, list)[s := Bumped(freq, list)[s] + 1]
  {
    assert (list + [s])[..|list|] == list;
  }

  // ----- sending -----

  /** send_all_trees() */
  method SendAllTrees(w: Writer, r: Trees)
    requires w.Valid() && TreesReady(r)
    modifies w
    ensures w.Valid() && w.Sent() == old(w.Sent()) + HeaderBits(r.bl, r.n, r.c.ll, r.c.dl)
  {
    hide ToBits, BytesToBits, Pow2, Kraft, Coded, ItemsBits, TreeItems, ItemsCoded, Ranked, LenLensBits, OrderAt;
    ghost var sent := w.Sent();
    var bl, n, ll, dl := r.bl, r.n, r.c.ll, r.c.dl;
    SmallPowers();
    w.SendBits(|ll| - 257, 5);
    w.SendBits(|dl| - 1, 5);
    w.SendBits(n - 4, 4);
    assert w.Sent() == sent + CountBits(n, ll, dl);
    LenLensNone(bl);
    for rank := 0 to n
      invariant w.Valid() && w.Sent() == sent + CountBits(n, ll, dl) + LenLensBits(bl, 0, rank)
    {
      w.SendBits(bl[OrderAt(rank)], 3);
      LenLensPush(bl, 0, rank);
      Append(sent + CountBits(n, ll, dl), LenLensBits(bl, 0, rank), ToBits(bl[OrderAt(rank)], 3));
    }
    SendTree(w, ll, r.bltree, bl);
    SendTree(w, dl, r.bltree, bl);
    Gather(sent, CountBits(n, ll, dl), LenLensBits(bl, 0, n), ItemsBits(bl, TreeItems(ll)),
      ItemsBits(bl, TreeItems(dl)));
  }

  lemma Gather(a: seq<bool>, b: seq<bool>, c: seq<bool>, d: seq<bool>, e: seq<bool>)
    ensures a + b + c + d + e == a + (b + (c + (d + e)))
  {
  }

  lemma LenLensNone(bl: seq<nat>)
    requires BlLengths(bl)
    ensures LenLensBits(bl, 0, 0) == []
  {
  }

  lemma {:induction false} LenLensPush(bl: seq<nat>, k: nat, n: nat)
    requires BlLengths(bl) && k <= n < BL_CODES
    ensures LenLensBits(bl, k, n + 1) == LenLensBits(bl, k, n) + ToBits(bl[OrderAt(n)], 3)
    decreases n - k
  {
    hide OrderAt, ToBits;
    if k < n {
      LenLensPush(bl, k + 1, n);
      Append(ToBits(bl[OrderAt(k)], 3), LenLensBits(bl, k + 1, n), ToBits(bl[OrderAt(n)], 3));
    } else {
      assert LenLensBits(bl, n + 1, n + 1) == [];
    }
  }

  /** _tr_stored_block() */
  method StoredBlock(w: Writer, data: seq<byte>, last: bool)
    requires w.Valid() && |data| <= 65535
    modifies w
    ensures w.Valid() && w.Sent() == old(w.Sent()) + StoredBits(|old(w.Sent())|, last, data)
  {
    hide ToBits, BytesToBits, Pow2, Pad;
    ghost var sent, v := w.Sent(), if last then 1 else 0;
    SmallPowers();
    w.SendBits(if last then 1 else 0, 3);
    ghost var pad := Pad(|sent| + 3);
    w.Windup();
    ghost var before := w.pending;
    w.PutShort(|data|);
    w.PutShort(65535 - |data|);
    w.pending := w.pending + data;
    PowerFacts();
    Two(|data|);
    Two(65535 - |data|);
    ghost var n, m := |data|, 65535 - |data|;
    assert w.pending == before + ([n % 256, n / 256] + ([m % 256, m / 256] + data));
    BytesToBitsConcat(before, [n % 256, n / 256] + ([m % 256, m / 256] + data));
    BytesToBitsConcat([n % 256, n / 256], [m % 256, m / 256] + data);
    BytesToBitsConcat([m % 256, m / 256], data);
    NoBitsLeft();
    assert w.Sent() == BytesToBits(w.pending) + [] == BytesToBits(w.pending);
    Gather(sent, ToBits(v, 3), ToBits(0, pad), ToBits(n, 16), ToBits(m, 16) + BytesToBits(data));
  }

  lemma Two(n: nat)
    requires n < 65536
    ensures BytesToBits([n % 256, n / 256]) == ToBits(n, 16)
  {
    hide ToBits, BytesToBits, Pow2;
    PowerFacts();
    ShortBits(n);
    LowSmall(n, 16);
  }
}
