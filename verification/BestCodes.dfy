/** What the trees of zlib/trees.c are good for: no other codes for the two alphabets of DEFLATE send the entries of a
    block in fewer bits. */
module BestCodes {
  import opened Bits
  import opened Huffman
  import opened Sums
  import opened BitLengths
  import opened TreeBuild
  import opened TreeCost
  import opened InflateSpec
  import opened StaticTables
  import opened Block
  import opened BlockCost

  // ----- codes for an alphabet of n symbols -----

  ghost function Fit(lens: seq<nat>, n: nat): (r: seq<nat>)
    ensures |r| == n && forall k :: 0 <= k < n ==> r[k] == if IsSymbol(lens, k) then lens[k] else 0
  {
    seq(n, k requires 0 <= k < n => if IsSymbol(lens, k) then lens[k] else 0)
  }

  lemma {:induction false} FitKraft(lens: seq<nat>, n: nat, nodes: set<nat>)
    requires forall k :: k in nodes ==> k < n && IsSymbol(lens, k)
    ensures Sum(Shares(Fit(lens, n), nodes, MAXBITS)) <= Kraft(lens)
  {
    hide Sum, Pow2, Kraft;
    var m := if n <= |lens| then n else |lens|;
    var a, b := Shares(Fit(lens, n), nodes, MAXBITS), Shares(lens, nodes, MAXBITS);
    SumTail(a, m);
    SumTail(b, m);
    assert a[..m] == b[..m];
    SharesKraft(lens, nodes);
  }

  /** The symbols with a frequency all have codes in lens, and its Kraft sum is at most one. */
  lemma FitCodes(lens: seq<nat>, freq: seq<nat>)
    requires Kraft(lens) <= Pow2(MAXBITS) && forall k :: 0 <= k < |freq| && freq[k] > 0 ==> IsSymbol(lens, k)
    ensures CodeFor(Fit(lens, |freq|), freq, MAXBITS)
  {
    hide Sum, Pow2, Kraft, Shares;
    FitKraft(lens, |freq|, Used(freq, |freq|));
  }

  // ----- sizes -----

  /** The extra bits of each symbol. */
  ghost function Extras(d: Desc): (r: seq<nat>)
    requires |d.extra| + d.extraBase == d.elems
    ensures |r| == d.elems
  {
    seq(d.elems, n requires 0 <= n < d.elems => Extra(d, n))
  }

  /** Extra bits cost the same with any lengths. */
  lemma {:induction false} BillSplit(d: Desc, freq: seq<nat>, lens: seq<nat>, n: nat)
    requires |d.extra| + d.extraBase == d.elems == |freq| == |lens| && n <= d.elems
    requires forall k :: 0 <= k < d.elems && freq[k] > 0 ==> lens[k] > 0
    ensures Bill(freq[..n], Per(d, lens)[..n]) == Bill(freq[..n], lens[..n]) + Bill(freq[..n], Extras(d)[..n])
    decreases n
  {
    if n > 0 {
      var k, p, x := n - 1, Per(d, lens), Extras(d);
      BillSplit(d, freq, lens, k);
      BillPush(freq, p, k);
      BillPush(freq, lens, k);
      BillPush(freq, x, k);
      if freq[k] > 0 { assert freq[k] * p[k] == freq[k] * lens[k] + freq[k] * x[k]; }
    }
  }

  lemma BillPush(freq: seq<nat>, per: seq<nat>, k: nat)
    requires k < |freq| && k < |per|
    ensures Bill(freq[..k + 1], per[..k + 1]) == Bill(freq[..k], per[..k]) + freq[k] * per[k]
  {
    assert freq[..k + 1][..k] == freq[..k] && per[..k + 1][..k] == per[..k];
  }

  /** Cheaper lengths are cheaper with the extra bits too. */
  lemma CheaperPer(d: Desc, freq: seq<nat>, lens: seq<nat>, other: seq<nat>)
    requires |d.extra| + d.extraBase == d.elems == |freq| == |lens| == |other|
    requires forall k :: 0 <= k < d.elems && freq[k] > 0 ==> lens[k] > 0 && other[k] > 0
    requires Bill(freq, lens) <= Bill(freq, other)
    ensures Bill(freq, Per(d, lens)) <= Bill(freq, Per(d, other))
  {
    hide Bill, Extra;
    BillSplit(d, freq, lens, d.elems);
    BillSplit(d, freq, other, d.elems);
    assert freq[..d.elems] == freq && lens[..d.elems] == lens && other[..d.elems] == other;
    assert Per(d, lens)[..d.elems] == Per(d, lens) && Per(d, other)[..d.elems] == Per(d, other);
  }

  lemma {:induction false} EntrySyms(c: Codes, t: Maps, syms: seq<Sym>)
    requires MapsOk(t) && AllCoding(t, syms) && AllCoded(c, t, syms)
    ensures forall i :: 0 <= i < |LitSyms(t, syms)| ==> IsSymbol(c.ll, LitSyms(t, syms)[i])
    ensures forall i :: 0 <= i < |DistSyms(t, syms)| ==> IsSymbol(c.dl, DistSyms(t, syms)[i])
    decreases |syms|
  {
    hide MapsOk, DCode;
    if syms != [] {
      EntrySyms(c, t, syms[..|syms| - 1]);
      assert HasCodes(c, t, syms[|syms| - 1]);
    }
  }

  lemma FitPriced(d: Desc, lens: seq<nat>, list: seq<nat>)
    requires DescOk(d) && forall i :: 0 <= i < |list| ==> list[i] < d.elems && IsSymbol(lens, list[i])
    ensures Priced(d, lens, Per(d, Fit(lens, d.elems)), list)
  {
    hide Pow2, Extra;
  }

  /** Frequencies of the entries' symbols. */
  ghost predicate Frequencies(t: Maps, syms: seq<Sym>, lf: seq<nat>, df: seq<nat>) {
    && MapsOk(t) && AllCoding(t, syms)
    && (forall i :: 0 <= i < |LitSyms(t, syms)| ==> LitSyms(t, syms)[i] < L_CODES)
    && (forall i :: 0 <= i < |DistSyms(t, syms)| ==> DistSyms(t, syms)[i] < D_CODES)
    && lf == Bumped(EndOnly(L_CODES), LitSyms(t, syms)) && df == Bumped(NoneYet(D_CODES), DistSyms(t, syms))
  }

  /** The size of the entries with any codes, from the frequencies. */
  lemma CodesSize(c: Codes, t: Maps, syms: seq<Sym>, lf: seq<nat>, df: seq<nat>)
    requires Frequencies(t, syms, lf, df) && AllCoded(c, t, syms) && IsSymbol(c.ll, END_BLOCK)
    ensures DescOk(LDesc()) && DescOk(DDesc())
    ensures |BlockBits(c, t, syms)| ==
            Bill(lf, Per(LDesc(), Fit(c.ll, L_CODES))) + Bill(df, Per(DDesc(), Fit(c.dl, D_CODES)))
  {
    hide MapsOk, LitSyms, DistSyms, Bill, SumAt, Bumped, BlockBits, HasCodes, PricedAt, DescOk, StaticLengths,
      StaticDistances, Fit;
    DescsOk();
    EntrySyms(c, t, syms);
    var lper, dper := Per(LDesc(), Fit(c.ll, L_CODES)), Per(DDesc(), Fit(c.dl, D_CODES));
    FitPriced(LDesc(), c.ll, LitSyms(t, syms));
    FitPriced(DDesc(), c.dl, DistSyms(t, syms));
    BlockSize(c, t, syms, lper, dper);
    EndPrice(c.ll);
    FrequencyCost(L_CODES, LitSyms(t, syms), lper);
    PlainCost(D_CODES, DistSyms(t, syms), dper);
    assert lf[..L_CODES] == lf && df[..D_CODES] == df;
  }

  lemma EndPrice(lens: seq<nat>)
    requires IsSymbol(lens, END_BLOCK) && DescOk(LDesc())
    ensures Per(LDesc(), Fit(lens, L_CODES))[END_BLOCK] == lens[END_BLOCK]
  {
    hide StaticLengths;
  }

  // ----- the best codes -----

  /** Codes that a decoder takes and that cover all entries and the end of the block. */
  ghost predicate Sends(c: Codes, t: Maps, syms: seq<Sym>) {
    AllCoded(c, t, syms) && IsSymbol(c.ll, END_BLOCK) && Decodable(c.ll) && Decodable(c.dl)
  }

  /** No other codes send the entries in fewer bits. */
  ghost predicate FewestBits(c: Codes, t: Maps, syms: seq<Sym>)
    requires AllCoded(c, t, syms) && IsSymbol(c.ll, END_BLOCK)
  {
    forall other: Codes :: Sends(other, t, syms) ==> |BlockBits(c, t, syms)| <= |BlockBits(other, t, syms)|
  }

  /** The symbols with a frequency are those of the entries and the end of the block. */
  lemma FrequentCoded(c: Codes, t: Maps, syms: seq<Sym>, lf: seq<nat>, df: seq<nat>)
    requires Frequencies(t, syms, lf, df) && AllCoded(c, t, syms) && IsSymbol(c.ll, END_BLOCK)
    ensures forall k :: 0 <= k < |lf| && lf[k] > 0 ==> IsSymbol(c.ll, k)
    ensures forall k :: 0 <= k < |df| && df[k] > 0 ==> IsSymbol(c.dl, k)
  {
    hide MapsOk, LitSyms, DistSyms, Bumped, IsSymbol;
    EntrySyms(c, t, syms);
    forall k | 0 <= k < |lf| && lf[k] > 0 ensures IsSymbol(c.ll, k) {
      BumpedOnly(EndOnly(L_CODES), LitSyms(t, syms), k);
    }
    forall k | 0 <= k < |df| && df[k] > 0 ensures IsSymbol(c.dl, k) {
      BumpedOnly(NoneYet(D_CODES), DistSyms(t, syms), k);
    }
  }

  lemma {:induction false} BumpedOnly(freq: seq<nat>, list: seq<nat>, k: nat)
    requires k < |freq| && forall i :: 0 <= i < |list| ==> list[i] < |freq|
    ensures k !in list ==> Bumped(freq, list)[k] == freq[k]
    decreases |list|
  {
    if list != [] {
      var n := |list| - 1;
      assert list == list[..n] + [list[n]];
      BumpedOnly(freq, list[..n], k);
    }
  }

  /** Lengths that are cheapest for both alphabets are the best codes. */
  lemma CheapestBest(c: Codes, t: Maps, syms: seq<Sym>, lf: seq<nat>, df: seq<nat>)
    requires Frequencies(t, syms, lf, df) && AllCoded(c, t, syms) && IsSymbol(c.ll, END_BLOCK)
    requires Cheapest(lf, Fit(c.ll, L_CODES)) && Cheapest(df, Fit(c.dl, D_CODES))
    ensures FewestBits(c, t, syms)
  {
    hide Frequencies, AllCoded, BlockBits, Bill, Fit, StaticLengths, StaticDistances, CodeFor, Kraft, Pow2, Per;
    CodesSize(c, t, syms, lf, df);
    forall other: Codes | Sends(other, t, syms) ensures |BlockBits(c, t, syms)| <= |BlockBits(other, t, syms)| {
      CodesSize(other, t, syms, lf, df);
      NoCheaper(LDesc(), lf, c.ll, other.ll) by { FrequentBoth(c, other, t, syms, lf, df); }
      NoCheaper(DDesc(), df, c.dl, other.dl) by { FrequentBoth(c, other, t, syms, lf, df); }
    }
  }

  lemma FrequentBoth(c: Codes, other: Codes, t: Maps, syms: seq<Sym>, lf: seq<nat>, df: seq<nat>)
    requires Frequencies(t, syms, lf, df) && AllCoded(c, t, syms) && IsSymbol(c.ll, END_BLOCK)
    requires AllCoded(other, t, syms) && IsSymbol(other.ll, END_BLOCK)
    ensures |lf| == L_CODES && |df| == D_CODES
    ensures forall k :: 0 <= k < |lf| && lf[k] > 0 ==> IsSymbol(c.ll, k) && IsSymbol(other.ll, k)
    ensures forall k :: 0 <= k < |df| && df[k] > 0 ==> IsSymbol(c.dl, k) && IsSymbol(other.dl, k)
  {
    FrequentCoded(c, t, syms, lf, df);
    FrequentCoded(other, t, syms, lf, df);
  }

  lemma NoCheaper(d: Desc, freq: seq<nat>, lens: seq<nat>, other: seq<nat>)
    requires DescOk(d) && |freq| == d.elems && Cheapest(freq, Fit(lens, d.elems)) && Decodable(other)
    requires forall k :: 0 <= k < |freq| && freq[k] > 0 ==> IsSymbol(lens, k) && IsSymbol(other, k)
    ensures Bill(freq, Per(d, Fit(lens, d.elems))) <= Bill(freq, Per(d, Fit(other, d.elems)))
  {
    hide Bill, Per, Kraft, Pow2, Codable;
    FitCodes(other, freq);
    CheaperPer(d, freq, Fit(lens, d.elems), Fit(other, d.elems));
  }
}
