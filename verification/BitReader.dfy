/** The bit accumulator of inflate() and the decoding of one symbol through a table.
    Reading a symbol with the table gives what the canonical code says about the whole stream. */
module BitReader {
  import opened Bits
  import opened Huffman
  import opened DecodeTable
  import opened InflateTable
  import opened InflateSpec
  import Ranks

  /** The registers hold, bits and next (as an index into the input of this call). */
  datatype Reader = Reader(hold: nat, bits: nat, pos: nat)

  ghost predicate Ok(r: Reader, input: seq<byte>) {
    r.hold < Pow2(r.bits) && r.pos <= |input|
  }

  /** All bits not yet used: the accumulator, the rest of this input, and what comes later. */
  ghost function Stream(r: Reader, input: seq<byte>, future: seq<byte>): (s: seq<bool>)
    requires r.pos <= |input|
    ensures |s| == r.bits + 8 * (|input| - r.pos + |future|)
  {
    ToBits(r.hold, r.bits) + BytesToBits(input[r.pos..] + future)
  }

  /** PULLBYTE() when there is input.  The accumulator need not be wider than 32 bits. */
  function PullByte(r: Reader, input: seq<byte>): Reader
    requires r.pos < |input| && r.bits <= 24
  {
    Reader(r.hold + Shl(input[r.pos], r.bits), r.bits + 8, r.pos + 1)
  }

  /** DROPBITS(n) */
  function DropBits(r: Reader, n: nat): Reader
    requires n <= r.bits
  {
    Reader(Shr(r.hold, n), r.bits - n, r.pos)
  }

  lemma PullKeeps(r: Reader, input: seq<byte>, future: seq<byte>)
    requires Ok(r, input) && r.pos < |input| && r.bits <= 24
    ensures Ok(PullByte(r, input), input)
    ensures Stream(PullByte(r, input), input, future) == Stream(r, input, future)
  {
    hide Shl, Pow2, ToBits;
    var b := input[r.pos];
    assert Pow2(8) == 256 by { Pow2Eight(); }
    ToBitsJoin(r.hold, r.bits, b, 8);
    var tail := input[r.pos + 1..] + future;
    assert input[r.pos..] + future == [b] + tail;
    assert BytesToBits([b] + tail) == ToBits(b, 8) + BytesToBits(tail) by { BytesCons(b, tail); }
    var h := ToBits(r.hold, r.bits);
    assert h + (ToBits(b, 8) + BytesToBits(tail)) == (h + ToBits(b, 8)) + BytesToBits(tail);
  }

  lemma Pow2Eight()
    ensures Pow2(8) == 256
  {
  }

  lemma BytesCons(b: byte, tail: seq<byte>)
    ensures BytesToBits([b] + tail) == ToBits(b, 8) + BytesToBits(tail)
  {
    assert ([b] + tail)[1..] == tail;
  }

  /** The low n accumulator bits are the next n bits of the stream, and dropping skips them. */
  lemma DropKeeps(r: Reader, n: nat, input: seq<byte>, future: seq<byte>)
    requires Ok(r, input) && n <= r.bits
    ensures Ok(DropBits(r, n), input)
    ensures Stream(DropBits(r, n), input, future) == Stream(r, input, future)[n..]
    ensures Low(r.hold, n) == FromBits(Stream(r, input, future)[..n])
  {
    hide Low, Shr, ToBits, FromBits, BytesToBits, Pow2;
    var m := r.bits - n;
    assert n + m == r.bits;
    ToBitsSplit(r.hold, n, m);
    ShrLess(r.hold, n, r.bits);
    var rest := BytesToBits(input[r.pos..] + future);
    var s := Stream(r, input, future);
    var a, b := ToBits(r.hold, n), ToBits(Shr(r.hold, n), m);
    assert s == (a + b) + rest;
    assert s[..n] == a;
    assert s[n..] == b + rest;
    FromToBits(r.hold, n);
  }

  /** NEEDBITS(n): false when the input runs out first. */
  method NeedBits(r: Reader, n: nat, input: seq<byte>, ghost future: seq<byte>) returns (ok: bool, r': Reader)
    requires Ok(r, input) && (n <= 25 || (n == 32 && r.bits % 8 == 0))
    ensures Ok(r', input) && r'.pos >= r.pos && Stream(r', input, future) == Stream(r, input, future)
    ensures ok ==> r'.bits >= n && r'.bits <= (if r.bits >= n then r.bits else n + 7)
    ensures !ok ==> r'.pos == |input| && r.bits <= r'.bits < n
    ensures r'.bits - r.bits == 8 * (r'.pos - r.pos)
  {
    r' := r;
    while r'.bits < n
      invariant Ok(r', input) && r.pos <= r'.pos && Stream(r', input, future) == Stream(r, input, future)
      invariant r'.bits - r.bits == 8 * (r'.pos - r.pos)
      invariant r'.bits <= (if r.bits >= n then r.bits else n + 7)
      decreases |input| - r'.pos
    {
      if r'.pos == |input| { return false, r'; }
      PullKeeps(r', input, future);
      r' := PullByte(r', input);
    }
    ok := true;
  }

  // ----- symbols -----

  /** A table as inflate() holds it: its entries and its number of root index bits. */
  datatype Table = Table(t: seq<Entry>, root: nat)

  /** Length sets that inflate_table() accepts. */
  ghost predicate Usable(lens: seq<nat>) {
    Kraft(lens) == Pow2(MAXBITS)
    || (Kraft(lens) < Pow2(MAXBITS) && forall s: nat :: IsSymbol(lens, s) ==> lens[s] == 1)
  }

  ghost predicate TableOk(tab: Table, ty: CodeType, lens: seq<nat>) {
    && InAlphabet(ty, |lens|) && Usable(lens)
    && Decodes(tab.t, tab.root, lens, Meaning(ty, |lens|))
  }

  /** Success of inflate_table() is exactly what the decoding loops rely on. */
  lemma AcceptedIsUsable(ty: CodeType, lens: seq<nat>)
    requires !Refused(ty, lens)
    ensures Usable(lens)
  {
    hide Kraft, Pow2;
    NoneWithout(lens);
    if Ranks.Symbols(lens) == 0 {
      Ranks.NoCodesBetween(lens, 1, MAXBITS + 1);
      KraftOfNone(lens);
    }
  }

  lemma NoneWithout(lens: seq<nat>)
    ensures forall s: nat :: IsSymbol(lens, s) ==> Ranks.Symbols(lens) > 0
  {
    forall s: nat | IsSymbol(lens, s) ensures Ranks.Symbols(lens) > 0 { Ranks.RankBound(lens, s); }
  }

  lemma KraftOfNone(lens: seq<nat>)
    requires Below(lens, 1) == Below(lens, MAXBITS + 1)
    ensures Kraft(lens) == 0 < Pow2(MAXBITS)
  {
  }

  lemma {:induction false} FromBitsLow(s: seq<bool>, n: nat)
    requires n <= |s|
    ensures FromBits(s[..n]) == Low(FromBits(s), n)
    decreases n
  {
    if n > 0 {
      FromBitsLow(s[1..], n - 1);
      assert s[1..][..n - 1] == s[..n][1..];
    }
  }

  lemma PrefixIsStart(lens: seq<nat>, s: nat, bits: seq<bool>)
    requires IsSymbol(lens, s) && lens[s] <= |bits|
    ensures HasPrefix(lens, s, bits) <==> StartsWith(lens, s, FromBits(bits))
  {
    FromBitsLow(bits, lens[s]);
  }

  /** At most one code word starts a stream. */
  lemma PrefixUnique(lens: seq<nat>, s: nat, u: nat, bits: seq<bool>)
    requires Kraft(lens) <= Pow2(MAXBITS) && HasPrefix(lens, s, bits) && HasPrefix(lens, u, bits)
    ensures s == u
  {
    hide Kraft, Pow2;
    PrefixIsStart(lens, s, bits);
    PrefixIsStart(lens, u, bits);
    NoClash(lens, s, u, FromBits(bits));
  }

  /** What the table entry found for the accumulator says about the stream. */
  ghost predicate Agrees(f: Found, lens: seq<nat>, ents: seq<Entry>, step: Step)
    requires Meanings(lens, ents)
  {
    match step
    case Symbol(s) => s < |lens| && f == Found(ents[s].op, ents[s].val, lens[s])
    case NoCode => f == Found(INVALID.op, INVALID.val, INVALID.bits)
    case TooShort => false
  }

  /** A word starts with a code word unless all codes have just one bit. */
  lemma StartsOrOneBit(lens: seq<nat>, w: nat)
    requires Usable(lens)
    ensures (exists s: nat :: StartsWith(lens, s, w)) || forall s: nat :: IsSymbol(lens, s) ==> lens[s] == 1
  {
    hide Kraft, Pow2;
    if Kraft(lens) == Pow2(MAXBITS) {
      var s := CompleteDecodes(lens, w);
      assert StartsWith(lens, s, w);
    }
  }

  /** A lookup finds the one-bit invalid marker or the symbol that starts the word. */
  lemma FoundCases(t: seq<Entry>, root: nat, lens: seq<nat>, ents: seq<Entry>, w: nat)
    requires Meanings(lens, ents) && Decodes(t, root, lens, ents)
    ensures var f := Lookup(t, root, w);
      && f.Found? && 1 <= f.drop <= MAXBITS
      && (f.drop == 1 || exists s: nat :: StartsWith(lens, s, w) && lens[s] == f.drop)
  {
    hide Lookup;
    if s: nat :| StartsWith(lens, s, w) {
      assert Lookup(t, root, w) == Found(ents[s].op, ents[s].val, lens[s]);
    } else {
      assert Lookup(t, root, w) == Found(INVALID.op, INVALID.val, INVALID.bits);
    }
  }

  /** Enough bits in the accumulator: the entry found is the symbol that starts the stream. */
  lemma HitIsSymbol(t: seq<Entry>, root: nat, lens: seq<nat>, ents: seq<Entry>,
                    r: Reader, input: seq<byte>, future: seq<byte>)
    requires Meanings(lens, ents) && Decodes(t, root, lens, ents) && Usable(lens) && Ok(r, input)
    requires var f := Lookup(t, root, r.hold); f.Found? && f.drop <= r.bits
    ensures Agrees(Lookup(t, root, r.hold), lens, ents, Decode(lens, Stream(r, input, future)))
  {
    hide Lookup, Kraft, Pow2, Stream, FromBits, Low;
    var bits := Stream(r, input, future);
    if s: nat :| StartsWith(lens, s, r.hold) {
      assert Lookup(t, root, r.hold) == Found(ents[s].op, ents[s].val, lens[s]);
      DropKeeps(r, lens[s], input, future);
      assert HasPrefix(lens, s, bits);
      PrefixUnique(lens, s, Decode(lens, bits).s, bits);
    } else {
      assert Lookup(t, root, r.hold) == Found(INVALID.op, INVALID.val, INVALID.bits);
      StartsOrOneBit(lens, r.hold);
      DropKeeps(r, 1, input, future);
      forall s: nat ensures !MayStart(lens, s, bits) { assert !StartsWith(lens, s, r.hold); }
    }
  }

  lemma PrefixFound(t: seq<Entry>, root: nat, lens: seq<nat>, ents: seq<Entry>, hold: nat, n: nat, s: nat)
    requires Meanings(lens, ents) && Decodes(t, root, lens, ents) && hold < Pow2(n)
    requires HasPrefix(lens, s, ToBits(hold, n))
    ensures var f := Lookup(t, root, hold); f.Found? && f.drop <= n
  {
    hide Lookup, Pow2, FromBits, Low, ToBits;
    FromToBits(hold, n);
    LowSmall(hold, n);
    PrefixIsStart(lens, s, ToBits(hold, n));
    assert Lookup(t, root, hold) == Found(ents[s].op, ents[s].val, lens[s]);
  }

  /** Too few bits and no more input: the stream does not hold a whole symbol yet. */
  lemma MissNeedsBits(t: seq<Entry>, root: nat, lens: seq<nat>, ents: seq<Entry>, hold: nat, n: nat)
    requires Meanings(lens, ents) && Decodes(t, root, lens, ents) && hold < Pow2(n)
    requires var f := Lookup(t, root, hold); f.Found? && f.drop > n
    ensures Decode(lens, ToBits(hold, n)) == TooShort
  {
    hide Lookup, Pow2, FromBits, Low, ToBits;
    var bits := ToBits(hold, n);
    forall s: nat ensures !HasPrefix(lens, s, bits) {
      if HasPrefix(lens, s, bits) { PrefixFound(t, root, lens, ents, hold, n, s); }
    }
    FoundCases(t, root, lens, ents, hold);
    if n >= 1 {
      var s: nat :| StartsWith(lens, s, hold) && lens[s] == Lookup(t, root, hold).drop;
      FromToBits(hold, n);
      LowSmall(hold, n);
      LowLow(hold, n, lens[s]);
      assert MayStart(lens, s, bits);
    }
  }

  /** A symbol that is decided by n bits is decided by those alone. */
  lemma DecodePrefix(lens: seq<nat>, bits: seq<bool>, n: nat)
    requires Kraft(lens) <= Pow2(MAXBITS) && n <= |bits|
    requires var d := Decode(lens, bits); d.Symbol? && lens[d.s] <= n
    ensures Decode(lens, bits[..n]) == Decode(lens, bits)
  {
    hide Kraft, Pow2, FromBits, Code;
    var s := Decode(lens, bits).s;
    assert bits[..n][..lens[s]] == bits[..lens[s]];
    assert HasPrefix(lens, s, bits[..n]);
    PrefixUnique(lens, s, Decode(lens, bits[..n]).s, bits[..n]);
  }

  /** A lookup that needs no more bits than are held says what they decode to. */
  lemma HeldSymbol(t: seq<Entry>, root: nat, lens: seq<nat>, ents: seq<Entry>, hold: nat, n: nat)
    requires Meanings(lens, ents) && Decodes(t, root, lens, ents) && Usable(lens) && hold < Pow2(n)
    requires var f := Lookup(t, root, hold); f.Found? && f.drop <= n
    ensures Agrees(Lookup(t, root, hold), lens, ents, Decode(lens, ToBits(hold, n)))
  {
    hide Lookup, Usable, Decodes, Pow2, ToBits, Decode;
    HitIsSymbol(t, root, lens, ents, Reader(hold, n, 0), [], []);
    assert ToBits(hold, n) + [] == ToBits(hold, n);
  }

  /** r' is r after pulling zero or more bytes. */
  ghost predicate Pulled(r: Reader, r': Reader, input: seq<byte>, future: seq<byte>) {
    && r.pos <= |input| && Ok(r', input) && r.pos <= r'.pos
    && r'.bits - r.bits == 8 * (r'.pos - r.pos)
    && Stream(r', input, future) == Stream(r, input, future)
  }

  /** A symbol that is decided by n bits already there was decided before the byte was pulled. */
  lemma DecidedBefore(t: seq<Entry>, root: nat, lens: seq<nat>, ents: seq<Entry>, r: Reader, n: nat, input: seq<byte>)
    requires Meanings(lens, ents) && Decodes(t, root, lens, ents) && Usable(lens)
    requires Ok(r, input) && r.pos < |input| && n <= r.bits <= 24
    ensures var f, f' := Lookup(t, root, r.hold), Lookup(t, root, PullByte(r, input).hold);
      f.Found? && f'.Found? && (f'.drop <= n ==> f.drop <= n)
  {
    hide Lookup, Pow2, Low, Shl, Usable;
    var w := PullByte(r, input).hold;
    FoundCases(t, root, lens, ents, w);
    FoundCases(t, root, lens, ents, r.hold);
    SplitUnique(w, r.bits, input[r.pos], r.hold);
    if s: nat :| StartsWith(lens, s, w) {
      assert Lookup(t, root, w) == Found(ents[s].op, ents[s].val, lens[s]);
      if lens[s] <= n {
        LowLow(w, lens[s], r.bits);
        assert StartsWith(lens, s, r.hold);
      }
    } else if n >= 1 {
      StartsOrOneBit(lens, w);
      LowLow(w, 1, r.bits);
      forall s: nat ensures !StartsWith(lens, s, r.hold) { assert !StartsWith(lens, s, w); }
    }
  }

  /** One more byte while the next code is undecided. */
  lemma PullMore(tab: Table, lens: seq<nat>, ents: seq<Entry>, r: Reader, r': Reader, input: seq<byte>,
                 future: seq<byte>)
    requires Meanings(lens, ents) && Decodes(tab.t, tab.root, lens, ents) && Usable(lens)
    requires Pulled(r, r', input, future) && r'.pos < |input| && r'.bits <= 24 && Undecided(tab, r', r'.bits)
    ensures Pulled(r, PullByte(r', input), input, future) && Undecided(tab, PullByte(r', input), r'.bits)
  {
    hide Decodes, Usable, Stream, Lookup;
    PullKeeps(r', input, future);
    DecidedBefore(tab.t, tab.root, lens, ents, r', r'.bits, input);
  }

  /** The first loop of LEN and DIST: pull bytes until the root entry is decided. */
  method FetchRoot(tab: Table, r: Reader, input: seq<byte>, ghost future: seq<byte>, ghost lens: seq<nat>,
                   ghost ents: seq<Entry>)
    returns (ok: bool, here: Entry, r': Reader)
    requires Meanings(lens, ents) && Decodes(tab.t, tab.root, lens, ents) && Usable(lens) && Ok(r, input)
    ensures Pulled(r, r', input, future) && Low(r'.hold, tab.root) < |tab.t|
    ensures here == tab.t[Low(r'.hold, tab.root)] && (ok <==> here.bits <= r'.bits)
    ensures !ok ==> r'.pos == |input|
    ensures r' == r || Undecided(tab, r', r'.bits - 8)
  {
    hide Pow2, Low, Shr, Shl, Usable, Meanings, Decodes, Stream, PullByte;
    r' := r;
    while true
      invariant Pulled(r, r', input, future)
      invariant r' == r || Undecided(tab, r', r'.bits - 8)
      decreases |input| - r'.pos
    {
      FoundCases(tab.t, tab.root, lens, ents, r'.hold);
      here := tab.t[Low(r'.hold, tab.root)];
      if here.bits <= r'.bits { return true, here, r'; }
      if r'.pos == |input| { return false, here, r'; }
      PullMore(tab, lens, ents, r, r', input, future);
      PullPos(r', input);
      r' := PullByte(r', input);
    }
  }

  lemma PullPos(r: Reader, input: seq<byte>)
    requires r.pos < |input| && r.bits <= 24
    ensures PullByte(r, input).pos == r.pos + 1 && PullByte(r, input).bits == r.bits + 8
  {
  }

  /** The second loop, entered when the root entry is a link. */
  method FetchSub(tab: Table, last: Entry, r: Reader, input: seq<byte>, ghost future: seq<byte>, ghost lens: seq<nat>,
                  ghost ents: seq<Entry>)
    returns (ok: bool, f: Found, r': Reader)
    requires Meanings(lens, ents) && Decodes(tab.t, tab.root, lens, ents) && Usable(lens) && Ok(r, input)
    requires Low(r.hold, tab.root) < |tab.t| && last == tab.t[Low(r.hold, tab.root)]
    requires IsLink(last) && last.bits == tab.root <= r.bits
    ensures Pulled(r, r', input, future) && f == Lookup(tab.t, tab.root, r'.hold) && f.Found?
    ensures ok <==> f.drop <= r'.bits
    ensures !ok ==> r'.pos == |input|
    ensures r' == r || f.drop > r'.bits - 8
  {
    hide Pow2, Low, Shr, Shl, Usable, Meanings, Decodes, Stream, PullByte;
    r' := r;
    while true
      invariant Pulled(r, r', input, future)
      invariant Low(r'.hold, tab.root) < |tab.t| && last == tab.t[Low(r'.hold, tab.root)]
      invariant r' == r || Undecided(tab, r', r'.bits - 8)
      decreases |input| - r'.pos
    {
      FoundCases(tab.t, tab.root, lens, ents, r'.hold);
      var here := tab.t[last.val + Low(Shr(r'.hold, last.bits), last.op)];
      f := Found(here.op, here.val, last.bits + here.bits);
      if f.drop <= r'.bits { return true, f, r'; }
      if r'.pos == |input| { return false, f, r'; }
      PullMore(tab, lens, ents, r, r', input, future);
      PullPos(r', input);
      SameRoot(r', tab.root, input);
      r' := PullByte(r', input);
    }
  }

  /** Pull just enough bytes to decode the next code, and no more. */
  method FetchCode(tab: Table, r: Reader, input: seq<byte>, ghost future: seq<byte>, ghost lens: seq<nat>,
                   ghost ents: seq<Entry>)
    returns (ok: bool, f: Found, r': Reader)
    requires Meanings(lens, ents) && Decodes(tab.t, tab.root, lens, ents) && Usable(lens) && Ok(r, input)
    ensures Pulled(r, r', input, future) && f == Lookup(tab.t, tab.root, r'.hold) && f.Found?
    ensures ok <==> f.drop <= r'.bits
    ensures !ok ==> r'.pos == |input|
    ensures r' == r || f.drop > r'.bits - 8
  {
    hide Pow2, Low, Shr, Usable, Meanings, Stream;
    var here;
    ok, here, r' := FetchRoot(tab, r, input, future, lens, ents);
    FoundCases(tab.t, tab.root, lens, ents, r'.hold);
    if !ok {
      f := Lookup(tab.t, tab.root, r'.hold);
    } else if IsLink(here) {
      ghost var r1 := r';
      ok, f, r' := FetchSub(tab, here, r', input, future, lens, ents);
    } else {
      f := Found(here.op, here.val, here.bits);
    }
  }

  /** More than n bits are needed to decide the next code. */
  ghost predicate Undecided(tab: Table, r: Reader, n: int) {
    var f := Lookup(tab.t, tab.root, r.hold); f.Found? && f.drop > n
  }

  /** Pulling a byte does not change the root index once its bits are there. */
  lemma SameRoot(r: Reader, root: nat, input: seq<byte>)
    requires Ok(r, input) && r.pos < |input| && root <= r.bits <= 24
    ensures Low(PullByte(r, input).hold, root) == Low(r.hold, root)
  {
    hide Low, Shl, Pow2;
    var w := PullByte(r, input).hold;
    SplitUnique(w, r.bits, input[r.pos], r.hold);
    LowLow(w, root, r.bits);
  }
}
