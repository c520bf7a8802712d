/** The sizes that opt_len and static_len of zlib/trees.c predict: how many bits a block and its trees
    take, from the frequencies that _tr_tally() and scan_tree() count. */
module BlockCost {
  import opened Bits
  import opened Huffman
  import opened Sums
  import opened BitLengths
  import opened TreeBuild
  import opened InflateSpec
  import opened StaticTables
  import opened Block
  import opened CodeLengths
  import opened TreeCoding

  const L_CODES: nat := 286

  /** static_ltree: 8 bits up to 143, 9 up to 255, 7 up to 279, 8 for the rest. */
  function StaticLength(n: nat): nat {
    if n <= 143 then 8 else if n <= 255 then 9 else if n <= 279 then 7 else 8
  }

  function StaticLengths(): (r: seq<nat>)
    ensures |r| == 288
  {
    seq(288, n requires 0 <= n => StaticLength(n))
  }

  function StaticDistances(): (r: seq<nat>)
    ensures |r| == 32
  {
    seq(32, _ => 5)
  }

  /** The code of a block with fixed trees; two distance codes are never sent. */
  function Fixed(): Codes { Codes(StaticLengths(), StaticDistances()) }

  function LDesc(): Desc { Desc(L_CODES, LITERALS + 1, EXTRA_LBITS, MAXBITS, true, StaticLengths()) }
  function DDesc(): Desc { Desc(D_CODES, 0, EXTRA_DBITS, MAXBITS, true, StaticDistances()) }
  function BLDesc(): Desc { Desc(BL_CODES, 0, seq(16, _ => 0) + [2, 3, 7], 7, false, []) }

  lemma DescsOk()
    ensures DescOk(LDesc()) && DescOk(DDesc()) && DescOk(BLDesc())
  {
    hide Pow2;
    SmallPowers();
    hide StaticLengths, StaticDistances;
    assert EXTRA_DBITS[0] == 0 && EXTRA_DBITS[1] == 0 && EXTRA_DBITS[2] == 0;
  }

  // ----- symbols and their frequencies -----

  function LitSym(t: Maps, sym: Sym): nat
    requires |t.lengthCode| == 256 && (sym.Pair? ==> sym.lc <= 255)
  {
    match sym
    case Lit(b) => b
    case Pair(_, lc) => LengthSym(t, lc)
  }

  predicate Coding(t: Maps, sym: Sym) {
    |t.lengthCode| == 256 && |t.distCode| == 512 && (sym.Pair? ==> sym.lc <= 255 && 1 <= sym.dist <= 32768)
  }

  ghost predicate AllCoding(t: Maps, syms: seq<Sym>) {
    forall i :: 0 <= i < |syms| ==> Coding(t, syms[i])
  }

  /** The literal/length symbols and the distance symbols of the entries, in order. */
  ghost function LitSyms(t: Maps, syms: seq<Sym>): (r: seq<nat>)
    requires AllCoding(t, syms)
    ensures |r| == |syms|
  {
    if syms == [] then [] else LitSyms(t, syms[..|syms| - 1]) + [LitSym(t, syms[|syms| - 1])]
  }

  ghost function DistSyms(t: Maps, syms: seq<Sym>): seq<nat>
    requires AllCoding(t, syms)
  {
    if syms == [] then []
    else
      var last := syms[|syms| - 1];
      DistSyms(t, syms[..|syms| - 1]) + if last.Pair? then [DCode(t.distCode, last.dist - 1)] else []
  }

  /** The bits per symbol in `per` are the code length and the extra bits of the symbol. */
  ghost predicate PricedAt(d: Desc, lens: seq<nat>, per: seq<nat>, s: nat) {
    && |d.extra| + d.extraBase == d.elems
    && s < |lens| && s < |per| && s < d.elems && per[s] == lens[s] + Extra(d, s)
  }

  ghost predicate Priced(d: Desc, lens: seq<nat>, per: seq<nat>, list: seq<nat>) {
    forall i :: 0 <= i < |list| ==> PricedAt(d, lens, per, list[i])
  }

  lemma PricedSplit(d: Desc, lens: seq<nat>, per: seq<nat>, a: seq<nat>, b: seq<nat>)
    requires Priced(d, lens, per, a + b)
    ensures Priced(d, lens, per, a) && Priced(d, lens, per, b)
  {
    assert forall i :: 0 <= i < |a| ==> a[i] == (a + b)[i];
    assert forall i :: 0 <= i < |b| ==> b[i] == (a + b)[|a| + i];
  }

  lemma SumAtPush(per: seq<nat>, a: seq<nat>, s: nat)
    requires s < |per| && forall i :: 0 <= i < |a| ==> a[i] < |per|
    ensures SumAt(per, a + [s]) == SumAt(per, a) + per[s]
  {
    assert (a + [s])[..|a|] == a;
  }

  lemma LengthSize(c: Codes, t: Maps, lc: nat, per: seq<nat>)
    requires MapsOk(t) && lc <= 255 && IsSymbol(c.ll, LengthSym(t, lc))
    requires PricedAt(LDesc(), c.ll, per, LengthSym(t, lc))
    ensures |LengthBits(c, t, lc)| == per[LengthSym(t, lc)]
  {
    hide CodeBits, ToBits, Pow2, BaseL, StaticLengths, DistTables;
    var k := t.lengthCode[lc];
    LengthStep(k);
    assert Extra(LDesc(), LengthSym(t, lc)) == ExtraL(k);
  }

  lemma DistSize(c: Codes, t: Maps, d: nat, per: seq<nat>)
    requires MapsOk(t) && d < 32768 && IsSymbol(c.dl, DCode(t.distCode, d))
    requires PricedAt(DDesc(), c.dl, per, DCode(t.distCode, d))
    ensures |DistBits(c, t, d)| == per[DCode(t.distCode, d)]
  {
    hide CodeBits, ToBits, Pow2, BaseD, StaticDistances, LengthTables;
    var k := DCode(t.distCode, d);
    DistStep(k);
    assert Extra(DDesc(), k) == ExtraD(k);
  }

  /** One entry of sym_buf takes what its symbols are priced. */
  lemma SymSize(c: Codes, t: Maps, sym: Sym, perL: seq<nat>, perD: seq<nat>)
    requires MapsOk(t) && Coding(t, sym) && HasCodes(c, t, sym) && PricedAt(LDesc(), c.ll, perL, LitSym(t, sym))
    requires sym.Pair? ==> PricedAt(DDesc(), c.dl, perD, DCode(t.distCode, sym.dist - 1))
    ensures |SymBits(c, t, sym)| == perL[LitSym(t, sym)] + if sym.Pair? then perD[DCode(t.distCode, sym.dist - 1)]
      else 0
  {
    hide LengthBits, DistBits, StaticLengths, StaticDistances, DCode, LengthTables, DistTables;
    match sym
    case Lit(b) =>
    case Pair(dist, lc) =>
      LengthSize(c, t, lc, perL);
      DistSize(c, t, dist - 1, perD);
  }

  lemma {:induction false} SymsSize(c: Codes, t: Maps, syms: seq<Sym>, perL: seq<nat>, perD: seq<nat>)
    requires MapsOk(t) && AllCoding(t, syms) && AllCoded(c, t, syms)
    requires Priced(LDesc(), c.ll, perL, LitSyms(t, syms)) && Priced(DDesc(), c.dl, perD, DistSyms(t, syms))
    ensures |SymsBits(c, t, syms)| == SumAt(perL, LitSyms(t, syms)) + SumAt(perD, DistSyms(t, syms))
    decreases |syms|
  {
    hide HasCodes, MapsOk, SymBits, PricedAt, LitSym, DCode;
    if syms != [] {
      var init, last := syms[..|syms| - 1], syms[|syms| - 1];
      var s := LitSym(t, last);
      PricedSplit(LDesc(), c.ll, perL, LitSyms(t, init), [s]);
      PricedIndex(LDesc(), c.ll, perL, LitSyms(t, init));
      PricedIndex(LDesc(), c.ll, perL, [s]);
      assert [s][0] == s;
      SumAtPush(perL, LitSyms(t, init), s);
      var d := if last.Pair? then [DCode(t.distCode, last.dist - 1)] else [];
      PricedSplit(DDesc(), c.dl, perD, DistSyms(t, init), d);
      PricedIndex(DDesc(), c.dl, perD, DistSyms(t, init));
      PricedIndex(DDesc(), c.dl, perD, d);
      if last.Pair? {
        assert d[0] == DCode(t.distCode, last.dist - 1);
        SumAtPush(perD, DistSyms(t, init), d[0]);
      } else {
        assert DistSyms(t, init) + [] == DistSyms(t, init);
      }
      SymsSize(c, t, init, perL, perD);
      SymSize(c, t, last, perL, perD);
    }
  }

  lemma PricedIndex(d: Desc, lens: seq<nat>, per: seq<nat>, list: seq<nat>)
    requires Priced(d, lens, per, list)
    ensures forall i :: 0 <= i < |list| ==> list[i] < |per|
  {
  }

  /** The whole block: the entries and the end-of-block code. */
  lemma BlockSize(c: Codes, t: Maps, syms: seq<Sym>, perL: seq<nat>, perD: seq<nat>)
    requires MapsOk(t) && AllCoding(t, syms) && AllCoded(c, t, syms) && IsSymbol(c.ll, END_BLOCK)
    requires Priced(LDesc(), c.ll, perL, LitSyms(t, syms)) && Priced(DDesc(), c.dl, perD, DistSyms(t, syms))
    ensures |BlockBits(c, t, syms)| == c.ll[END_BLOCK] + SumAt(perL, LitSyms(t, syms)) + SumAt(perD, DistSyms(t, syms))
  {
    hide HasCodes, MapsOk, SymBits, PricedAt, CodeBits;
    SymsSize(c, t, syms, perL, perD);
    BlockIsSyms(c, t, syms, |syms|);
    assert syms[..|syms|] == syms && syms[|syms|..] == [];
    EmptyBlock(c, t);
  }

  // ----- frequencies -----

  /** init_block(): only END_BLOCK has been counted. */
  ghost function EndOnly(n: nat): (r: seq<nat>)
    ensures |r| == n
  {
    seq(n, i => if i == END_BLOCK then 1 else 0)
  }

  ghost function NoneYet(n: nat): (r: seq<nat>)
    ensures |r| == n
  {
    seq(n, _ => 0)
  }

  lemma {:induction false} BillEnd(n: nat, per: seq<nat>)
    requires |per| == n
    ensures Bill(EndOnly(n), per) == if END_BLOCK < n then per[END_BLOCK] else 0
    decreases n
  {
    if n > 0 {
      assert EndOnly(n)[..n - 1] == EndOnly(n - 1);
      BillEnd(n - 1, per[..n - 1]);
    }
  }

  /** What the frequencies cost is what the symbols cost. */
  lemma FrequencyCost(n: nat, list: seq<nat>, per: seq<nat>)
    requires END_BLOCK < |per| <= n && forall i :: 0 <= i < |list| ==> list[i] < |per|
    ensures Bill(Bumped(EndOnly(n), list)[..|per|], per) == per[END_BLOCK] + SumAt(per, list)
  {
    hide Bill, SumAt, Bumped;
    BillBumped(EndOnly(n), list, per);
    assert EndOnly(n)[..|per|] == EndOnly(|per|);
    BillEnd(|per|, per);
  }

  lemma PlainCost(n: nat, list: seq<nat>, per: seq<nat>)
    requires |per| <= n && forall i :: 0 <= i < |list| ==> list[i] < |per|
    ensures Bill(Bumped(NoneYet(n), list)[..|per|], per) == SumAt(per, list)
  {
    hide Bill, SumAt, Bumped;
    BillBumped(NoneYet(n), list, per);
    assert NoneYet(n)[..|per|] == NoneYet(|per|);
    NoCost(NoneYet(|per|), per);
  }

  lemma {:induction false} NoCost(freq: seq<nat>, per: seq<nat>)
    requires |freq| == |per| && forall i :: 0 <= i < |freq| ==> freq[i] == 0
    ensures Bill(freq, per) == 0
    decreases |freq|
  {
    if freq != [] { NoCost(freq[..|freq| - 1], per[..|per| - 1]); }
  }

  /** A listed symbol has a frequency. */
  lemma {:induction false} BumpedUsed(freq: seq<nat>, list: seq<nat>, i: nat)
    requires i < |list| && forall j :: 0 <= j < |list| ==> list[j] < |freq|
    ensures Bumped(freq, list)[list[i]] >= 1
    decreases |list|
  {
    if i < |list| - 1 { BumpedUsed(freq, list[..|list| - 1], i); }
  }

  // ----- the trees -----

  ghost function ItemSyms(items: seq<Item>): (r: seq<nat>)
    ensures |r| == |items| && forall i :: 0 <= i < |items| && ItemOk(items[i]) ==> r[i] < BL_CODES
  {
    seq(|items|, i requires 0 <= i < |items| => ItemSym(items[i]))
  }

  lemma ItemSize(bl: seq<nat>, i: Item, per: seq<nat>)
    requires ItemOk(i) && IsSymbol(bl, ItemSym(i)) && PricedAt(BLDesc(), bl, per, ItemSym(i))
    ensures |ItemBits(bl, i)| == per[ItemSym(i)]
  {
    hide CodeBits, ToBits, Pow2;
    var x := seq(16, _ => 0) + [2, 3, 7];
    assert forall k :: 0 <= k < 16 ==> x[k] == 0;
    assert x[16] == 2 && x[17] == 3 && x[18] == 7;
  }

  lemma {:induction false} ItemsSize(bl: seq<nat>, items: seq<Item>, per: seq<nat>)
    requires ItemsCoded(bl, items) && Priced(BLDesc(), bl, per, ItemSyms(items))
    ensures |ItemsBits(bl, items)| == SumAt(per, ItemSyms(items))
    decreases |items|
  {
    hide ItemBits, PricedAt, IsSymbol;
    if items != [] {
      var n := |items| - 1;
      var init, last := items[..n], items[n];
      assert items == init + [last] && ItemSyms(items) == ItemSyms(init) + [ItemSym(last)];
      CodedSplit(bl, init, [last]);
      PricedSplit(BLDesc(), bl, per, ItemSyms(init), [ItemSym(last)]);
      PricedIndex(BLDesc(), bl, per, ItemSyms(init));
      assert [ItemSym(last)][0] == ItemSym(last) && [last][0] == last;
      PricedIndex(BLDesc(), bl, per, [ItemSym(last)]);
      SumAtPush(per, ItemSyms(init), ItemSym(last));
      ItemsSize(bl, init, per);
      ItemsBitsConcat(bl, init, [last]);
      SingleBits(bl, last);
      ItemSize(bl, last, per);
    }
  }

  lemma {:induction false} BumpedItems(freq: seq<nat>, items: seq<Item>, s: nat)
    requires s < |freq| && forall i :: 0 <= i < |items| ==> ItemSym(items[i]) < |freq|
    ensures Bumped(freq, ItemSyms(items))[s] == freq[s] + Occurs(items, s)
    decreases |items|
  {
    if items != [] {
      var n := |items| - 1;
      var init, last := items[..n], items[n];
      assert items == init + [last] && ItemSyms(items)[..n] == ItemSyms(init);
      BumpedItems(freq, init, s);
      OccursConcat(init, [last], s);
      OccursFew(last, last, s);
    }
  }

  /** scan_tree() counts the items that send_tree() sends. */
  lemma CountsAreBumps(freq: seq<nat>, freq0: seq<nat>, items: seq<Item>)
    requires Counts(freq, freq0, items) && forall s :: 0 <= s < BL_CODES ==> freq0[s] == 0
    requires forall i :: 0 <= i < |items| ==> ItemOk(items[i])
    ensures freq[..BL_CODES] == Bumped(NoneYet(BL_CODES), ItemSyms(items))
  {
    hide Bumped, Occurs;
    forall s | 0 <= s < BL_CODES ensures freq[s] == Bumped(NoneYet(BL_CODES), ItemSyms(items))[s] {
      BumpedItems(NoneYet(BL_CODES), items, s);
    }
  }
}
