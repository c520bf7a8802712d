/** Whole streams: the blocks that deflate_slow() hands over, coded one after the other by
    _tr_flush_block(), inflate to exactly the input. */
module Stream {
  import opened Bits
  import opened InflateSpec
  import opened BitWriter
  import opened Block
  import opened BitLengths
  import opened BlockCost
  import opened BestCodes
  import opened Huffman
  import opened Header
  import opened BlockTypes
  import opened FlushBlock
  import opened StreamSpec
  import opened Lz77
  import opened Deflate
  import opened Hash
  import opened HashChains
  import L = LazyMatch

  /** The bits sent so far inflate to out and the decoder goes on with whatever follows. */
  ghost predicate Reached(sent: seq<bool>, out: seq<byte>) {
    forall rest: seq<bool> :: Inflated(0, sent + rest, []) == Inflated(|sent|, rest, out)
  }

  lemma ReachedStart()
    ensures Reached([], [])
  {
    hide Inflated;
    forall rest: seq<bool> ensures Inflated(0, [] + rest, []) == Inflated(0, rest, []) { assert [] + rest == rest; }
  }

  lemma BlockStep(at: nat, bits: seq<bool>, out: seq<byte>, out': seq<byte>, rest: seq<bool>)
    requires Carries(at, bits, out, out') && |bits| >= 1
    ensures Inflated(at, bits + rest, out) == if bits[0] then Done(out', rest) else Inflated(at + |bits|, rest, out')
  {
    hide InflateBlock;
    assert InflateBlock(at, bits + rest, out) == Done(out', rest);
  }

  lemma ReachedNext(sent: seq<bool>, out: seq<byte>, bits: seq<bool>, out': seq<byte>)
    requires Reached(sent, out) && Carries(|sent|, bits, out, out') && |bits| >= 1 && !bits[0]
    ensures Reached(sent + bits, out')
  {
    hide Inflated, Carries;
    forall rest: seq<bool> ensures Inflated(0, (sent + bits) + rest, []) == Inflated(|sent + bits|, rest, out') {
      Append(sent, bits, rest);
      BlockStep(|sent|, bits, out, out', rest);
    }
  }

  lemma ReachedEnd(sent: seq<bool>, out: seq<byte>, bits: seq<bool>, out': seq<byte>, rest: seq<bool>)
    requires Reached(sent, out) && Carries(|sent|, bits, out, out') && |bits| >= 1 && bits[0]
    ensures Inflated(0, sent + bits + rest, []) == Done(out', rest)
  {
    hide Inflated, Carries;
    Append(sent, bits, rest);
    BlockStep(|sent|, bits, out, out', rest);
  }

  // ----- coding the blocks -----

  lemma {:induction false} SymsCoding(t: Maps, out: seq<byte>, syms: seq<Sym>, i: nat)
    requires MapsOk(t) && SymsOk(out, syms) && i < |syms|
    ensures Coding(t, syms[i])
    decreases |syms|
  {
    hide ExpandSym;
    if i > 0 { SymsCoding(t, ExpandSym(out, syms[0]), syms[1..], i - 1); }
  }

  /** Counts the symbols of a block, as deflate_slow() does while it tallies them. */
  method TallyAll(c: Coder, syms: seq<Sym>, ghost out: seq<byte>)
    requires c.Ok() && c.Counting([]) && SymsOk(out, syms)
    modifies c.lfreq, c.dfreq
    ensures c.Counting(syms)
  {
    hide MapsOk, Coded, LitCounted, DistCounted, SymsOk;
    assert syms[..0] == [];
    for i := 0 to |syms|
      invariant c.Counting(syms[..i])
    {
      SymsCoding(c.maps, out, syms, i);
      c.Tally(syms[i], syms[..i]);
      assert syms[..i] + [syms[i]] == syms[..i + 1];
    }
    assert syms[..|syms|] == syms;
  }

  /** How a block was sent: its form, the trees that were built for it, and its bits. */
  datatype Form = Form(kind: FlushBlock.Kind, trees: Trees, bits: seq<bool>)

  /** The block was sent, `at` bits into the stream, in the form that takes the fewest bytes; the codes made for it are
      the best there are, unless one has 15 bits. */
  ghost predicate SentAs(t: Maps, b: Flushed, fixedOnly: bool, at: nat, f: Form) {
    && TreesReady(f.trees) && AllCoded(f.trees.c, t, b.syms) && AllCoded(Fixed(), t, b.syms)
    && IsSymbol(Fixed().ll, END_BLOCK) && InForm(f.kind, f.trees, t, b.syms, b.raw, b.last, at, f.bits)
    && (Reaching(f.trees.c.ll, MAXBITS) || Reaching(f.trees.c.dl, MAXBITS) || FewestBits(f.trees.c, t, b.syms))
    && var r := f.trees;
       Smallest(f.kind, |HeaderBits(r.bl, r.n, r.c.ll, r.c.dl)| + |BlockBits(r.c, t, b.syms)|,
         |BlockBits(Fixed(), t, b.syms)|, b.raw, b.len, fixedOnly)
  }

  /** The bits are those of the blocks, one behind the other. */
  ghost predicate Written(t: Maps, blocks: seq<Flushed>, fixedOnly: bool, forms: seq<Form>, bits: seq<bool>)
    decreases |blocks|
  {
    && |forms| == |blocks|
    && if blocks == [] then bits == []
       else
         var n := |blocks| - 1;
         var at := |bits| - |forms[n].bits|;
         && at >= 0 && bits[at..] == forms[n].bits && SentAs(t, blocks[n], fixedOnly, at, forms[n])
         && Written(t, blocks[..n], fixedOnly, forms[..n], bits[..at])
  }

  lemma WrittenNone(t: Maps, fixedOnly: bool)
    ensures Written(t, [], fixedOnly, [], [])
  {
  }

  lemma WrittenNext(t: Maps, blocks: seq<Flushed>, fixedOnly: bool, forms: seq<Form>, bits: seq<bool>, b: Flushed,
                    f: Form)
    requires Written(t, blocks, fixedOnly, forms, bits) && SentAs(t, b, fixedOnly, |bits|, f)
    ensures Written(t, blocks + [b], fixedOnly, forms + [f], bits + f.bits)
  {
    hide SentAs;
    assert (blocks + [b])[..|blocks|] == blocks && (forms + [f])[..|forms|] == forms;
    assert (bits + f.bits)[..|bits|] == bits && (bits + f.bits)[|bits|..] == f.bits;
  }

  /** Codes one block behind what was sent. */
  method EncodeBlock(c: Coder, b: Flushed, fixedOnly: bool, ghost before: seq<Sym>)
    returns (ghost f: Form, ghost bits: seq<bool>)
    requires c.Ok() && c.Counting([]) && c.b.optLen == 0 && c.b.staticLen == 0 && c.w.Valid() && Continues(before, b)
    modifies c.b, c.b.heap, c.b.depth, c.b.blCount, c.lfreq, c.llen, c.dfreq, c.dlen, c.blfreq, c.bllen, c.w
    ensures c.Counting([]) && c.b.optLen == 0 && c.b.staticLen == 0 && c.w.Valid()
    ensures SymsOk([], before) && SymsOk([], before + b.syms) && |bits| >= 1 && bits[0] == b.last
    ensures Carries(|old(c.w.Sent())|, bits, Expand([], before), Expand([], before + b.syms))
    ensures f.bits == bits && SentAs(c.maps, b, fixedOnly, |old(c.w.Sent())|, f)
    ensures c.w.Sent() == old(c.w.Sent()) + bits + if b.last then ToBits(0, Pad(|old(c.w.Sent()) + bits|)) else []
    ensures b.last ==> c.w.Sent() == BytesToBits(c.w.pending)
  {
    hide ToBits, BytesToBits, Pow2, Coded, SymsOk, Expand, Carries, MapsOk, LitCounted, DistCounted, Pad;
    hide TreesReady, AllCoded, InForm, Smallest, HeaderBits, BlockBits, StaticLengths, Reaching, FewestBits;
    ghost var out := Expand([], before);
    c.Arrays();
    TallyAll(c, b.syms, out);
    ghost var r;
    var kind, opt, fixed;
    kind, opt, fixed, r, bits := TrFlushBlock(c, b.syms, b.raw, b.len, b.last, fixedOnly, out);
    f := Form(kind, r, bits);
  }

  lemma RecordedAt(blocks: seq<Flushed>, i: nat)
    requires Recorded(blocks) && i < |blocks|
    ensures Recorded(blocks[..i]) && Continues(Cat(blocks[..i]), blocks[i])
    ensures Cat(blocks[..i + 1]) == Cat(blocks[..i]) + blocks[i].syms
    decreases |blocks|
  {
    hide Continues;
    var n := |blocks| - 1;
    if i < n {
      RecordedAt(blocks[..n], i);
      assert blocks[..n][..i] == blocks[..i] && blocks[..n][..i + 1] == blocks[..i + 1];
    } else {
      assert blocks[..i + 1] == blocks;
    }
  }

  /** The stream is one complete DEFLATE stream for data, up to the padding of its last byte, whatever follows it. */
  ghost predicate Inflates(bits: seq<bool>, data: seq<byte>) {
    forall tail: seq<bool> :: Ends(Inflated(0, bits + tail, []), data, tail)
  }

  /** A finished result that leaves the tail and less than a byte before it. */
  ghost predicate Ends(r: Outcome, data: seq<byte>, tail: seq<bool>) {
    && r.Done? && r.out == data && |tail| <= |r.rest| < |tail| + 8
    && r.rest[|r.rest| - |tail|..] == tail
  }

  /** Codes all blocks of a stream. */
  method EncodeAll(c: Coder, blocks: seq<Flushed>, fixedOnly: bool)
    returns (ghost forms: seq<Form>, ghost all: seq<bool>)
    requires c.Ok() && c.Counting([]) && c.b.optLen == 0 && c.b.staticLen == 0 && c.w.Valid() && c.w.Sent() == []
    requires Recorded(blocks) && Closed(blocks)
    modifies c.b, c.b.heap, c.b.depth, c.b.blCount, c.lfreq, c.llen, c.dfreq, c.dlen, c.blfreq, c.bllen, c.w
    ensures SymsOk([], Cat(blocks)) && Inflates(BytesToBits(c.w.pending), Expand([], Cat(blocks)))
    ensures Written(c.maps, blocks, fixedOnly, forms, all)
    ensures BytesToBits(c.w.pending) == all + ToBits(0, Pad(|all|))
  {
    hide ToBits, BytesToBits, Pow2, Coded, SymsOk, Expand, Carries, MapsOk, LitCounted, DistCounted, Pad, Inflated,
         Recorded, Cat, Continues, Reached, Inflates, SentAs, Written;
    var n := |blocks| - 1;
    ReachedStart();
    NoBlocks(blocks);
    forms, all := [], [];
    WrittenNone(c.maps, fixedOnly);
    assert blocks[..0] == [];
    for i := 0 to n
      invariant c.Counting([]) && c.b.optLen == 0 && c.b.staticLen == 0 && c.w.Valid()
      invariant SymsOk([], Cat(blocks[..i])) && Reached(c.w.Sent(), Expand([], Cat(blocks[..i])))
      invariant all == c.w.Sent() && Written(c.maps, blocks[..i], fixedOnly, forms, all)
    {
      ghost var sent := c.w.Sent();
      RecordedAt(blocks, i);
      assert blocks[i] == blocks[..n][i];
      ghost var f, bits := EncodeBlock(c, blocks[i], fixedOnly, Cat(blocks[..i]));
      WrittenNext(c.maps, blocks[..i], fixedOnly, forms, all, blocks[i], f);
      assert blocks[..i] + [blocks[i]] == blocks[..i + 1];
      forms, all := forms + [f], all + bits;
      ReachedNext(sent, Expand([], Cat(blocks[..i])), bits, Expand([], Cat(blocks[..i + 1])));
      assert sent + bits + [] == sent + bits;
    }
    ghost var sent := c.w.Sent();
    RecordedAt(blocks, n);
    ghost var f, bits := EncodeBlock(c, blocks[n], fixedOnly, Cat(blocks[..n]));
    WrittenNext(c.maps, blocks[..n], fixedOnly, forms, all, blocks[n], f);
    assert blocks[..n] + [blocks[n]] == blocks && blocks[..n + 1] == blocks;
    forms, all := forms + [f], all + bits;
    LastBlock(sent, Expand([], Cat(blocks[..n])), bits, Expand([], Cat(blocks)));
  }

  /** The last block and the padding behind it. */
  lemma LastBlock(sent: seq<bool>, out: seq<byte>, bits: seq<bool>, out': seq<byte>)
    requires Reached(sent, out) && Carries(|sent|, bits, out, out') && |bits| >= 1 && bits[0]
    ensures Inflates(sent + bits + ToBits(0, Pad(|sent + bits|)), out')
  {
    hide Reached, Carries, Inflated, ToBits, Pad;
    var pad := ToBits(0, Pad(|sent + bits|));
    PadSmall(|sent + bits|);
    forall tail: seq<bool> ensures Ends(Inflated(0, (sent + bits + pad) + tail, []), out', tail) {
      assert (sent + bits + pad) + tail == sent + bits + (pad + tail);
      ReachedEnd(sent, out, bits, out', pad + tail);
    }
  }

  lemma NoBlocks(blocks: seq<Flushed>)
    ensures Cat(blocks[..0]) == [] && SymsOk([], []) && Expand([], []) == []
  {
  }

  lemma PadSmall(n: nat)
    ensures Pad(n) < 8
  {
  }

  /** How the output came about: the tables of codes, the blocks, the form of each and their bits, and the looks for
      matches. */
  datatype History = History(t: Maps, blocks: seq<Flushed>, forms: seq<Form>, bits: seq<bool>, looks: map<nat, L.Look>)

  /** Blocks of symEnd symbols, but for the last. */
  ghost predicate Portioned(blocks: seq<Flushed>, symEnd: nat) {
    && Closed(blocks) && (forall i :: 0 <= i < |blocks| - 1 ==> |blocks[i].syms| == symEnd)
    && |blocks[|blocks| - 1].syms| <= symEnd
  }

  /** The symbols are those that there were to find in the data, in portions of symEnd, and the output is the smallest
      form of each block, padded to a byte; stored if that is smallest and the block is not longer than the reach of
      matches. */
  ghost predicate Made(u: L.Tuning, symEnd: nat, fixedOnly: bool, data: seq<byte>, output: seq<byte>, h: History) {
    && L.Watched(u, data, h.looks) && L.Unbroken(h.looks) && L.Thorough(h.looks, {|data|})
    && L.Lazily(h.looks, Cat(h.blocks), |data|) && Portioned(h.blocks, symEnd)
    && Recorded(h.blocks) && Offered(u.window, h.blocks)
    && Written(h.t, h.blocks, fixedOnly, h.forms, h.bits) && BytesToBits(output) == h.bits + ToBits(0, Pad(|h.bits|))
  }

  /** deflate with Z_FINISH, called again as long as it wants more room: what comes out inflates to what went in, and it
      is made of the matches there are and the smallest form of each block. */
  method Compress(data: seq<byte>, wbits: nat, hashBits: nat, good: nat, lazy: nat, nice: int, chain: nat,
                  filtered: bool, symEnd: nat, fixedOnly: bool)
    returns (output: seq<byte>, ghost how: History)
    requires 9 <= wbits <= 15 && HashSize(hashBits) && symEnd >= 1
    ensures Inflates(BytesToBits(output), data)
    ensures var tuning := L.Tuning(hashBits, Pow2(wbits), good, lazy, nice, chain, filtered);
      Made(tuning, symEnd, fixedOnly, data, output, how)
  {
    hide Deflater.Valid, BytesToBits, Inflates, Tallied, Closed, Recorded, Cat, SymsOk, Expand, ToBits, Pow2, MapsOk,
         Coded, Written, L.Watched, L.Lazily, L.Unbroken, L.Thorough, Portioned, Pad, Offered;
    var d := new Deflater(wbits, hashBits, good, lazy, nice, chain, filtered, symEnd);
    d.input := data;
    assert d.stream + d.input == data;
    FinishAll(d);
    var c := TrInit();
    ghost var forms, bits := EncodeAll(c, d.blocks, fixedOnly);
    output := c.w.pending;
    how := History(c.maps, d.blocks, forms, bits, d.looks);
  }

  /** Calls deflate_slow() with Z_FINISH until it is done. */
  method FinishAll(d: Deflater)
    requires d.Valid() && d.Decided() && !d.ended && d.blocks == [] && d.looks == map[] && d.Whole() && d.Ready()
    modifies d, d.window, d.head, d.prev
    ensures Recorded(d.blocks) && Closed(d.blocks) && SymsOk([], Cat(d.blocks))
    ensures Expand([], Cat(d.blocks)) == old(d.stream + d.input)
    ensures var data := old(d.stream + d.input);
      && L.Watched(d.Tune(), data, d.looks) && L.Unbroken(d.looks) && L.Thorough(d.looks, {|data|})
      && L.Lazily(d.looks, Cat(d.blocks), |data|) && Portioned(d.blocks, d.symEnd) && Offered(d.wsize, d.blocks)
  {
    hide Deflater.Valid, Deflater.Decided, Deflater.Careful, Deflater.Ready, Tallied, NoneLast, Recorded, Cat,
         SymsOk, Expand;
    hide L.Watched, L.Lazily, L.Unbroken, L.Thorough, Offered;
    var result := NeedMore;
    ghost var ends := {|d.stream + d.input|};
    NoLooks(d, ends);
    while result == NeedMore
      invariant d.Valid() && d.Decided() && d.stream + d.input == old(d.stream + d.input)
      invariant result == NeedMore ==> !d.ended && forall i :: 0 <= i < |d.blocks| ==> d.Full(d.blocks[i])
      invariant result != NeedMore ==> d.input == [] && Tallied(d.flushed, d.stream, |d.stream|) && Closed(d.blocks)
      invariant result != NeedMore ==> d.Now().at == |d.stream| && !d.matchAvailable && d.symBuf == []
      invariant result != NeedMore ==> forall i :: 0 <= i < |d.blocks| - 1 ==> d.Full(d.blocks[i])
      invariant result != NeedMore && d.blocks != [] ==> |d.blocks[|d.blocks| - 1].syms| <= d.symEnd
      invariant d.Steady(ends)
      decreases d.lookahead + |d.input|, result == NeedMore
    {
      var roomy: bool := *;
      assert |d.stream| + |d.input| == |d.stream + d.input|;
      result := d.DeflateSlow(Finish, roomy, ends);
    }
    assert d.stream + [] == d.stream;
    LoggedAll(d);
    TalliedAll(d.flushed, d.stream);
    DecidedAll(d, ends);
  }

  lemma LoggedAll(d: Deflater)
    requires d.Valid()
    ensures d.flushed == Cat(d.blocks) && Recorded(d.blocks) && Offered(d.wsize, d.blocks)
  {
    hide Recorded, Cat, Chains, Loaded, Rolled, Faithful;
  }

  lemma DecidedAll(d: Deflater, ends: set<nat>)
    requires d.Decided() && d.Careful(ends) && !d.matchAvailable && d.symBuf == []
    ensures L.Watched(d.Tune(), d.stream, d.looks) && L.Unbroken(d.looks) && L.Thorough(d.looks, ends)
    ensures L.Lazily(d.looks, d.flushed, d.Now().at)
  {
    hide L.Watched, L.Lazily, L.Unbroken, L.Thorough;
    assert d.flushed + [] == d.flushed;
  }

  lemma TalliedAll(syms: seq<Sym>, stream: seq<byte>)
    requires Tallied(syms, stream, |stream|)
    ensures SymsOk([], syms) && Expand([], syms) == stream
  {
    assert stream[..|stream|] == stream;
  }
}
