/** inflate_table() of zlib/inftrees.c: builds the two-level decoding tables of a set of code
    lengths in place, or reports why the lengths are no Huffman code. */
module InflateTable {
  import opened Bits
  import opened Huffman
  import opened Ranks
  import opened DecodeTable
  import opened TableSpace

  datatype CodeType = CODES | LENS | DISTS

  const ENOUGH_LENS: nat := 852
  const ENOUGH_DISTS: nat := 592

  const LBASE: seq<nat> :=
    [3, 4, 5, 6, 7, 8, 9, 10, 11, 13, 15, 17, 19, 23, 27, 31,
     35, 43, 51, 59, 67, 83, 99, 115, 131, 163, 195, 227, 258, 0, 0]
  const LEXT: seq<nat> :=
    [16, 16, 16, 16, 16, 16, 16, 16, 17, 17, 17, 17, 18, 18, 18, 18,
     19, 19, 19, 19, 20, 20, 20, 20, 21, 21, 21, 21, 16, 68, 193]
  const DBASE: seq<nat> :=
    [1, 2, 3, 4, 5, 7, 9, 13, 17, 25, 33, 49, 65, 97, 129, 193,
     257, 385, 513, 769, 1025, 1537, 2049, 3073, 4097, 6145,
     8193, 12289, 16385, 24577, 0, 0]
  const DEXT: seq<nat> :=
    [16, 16, 16, 16, 17, 17, 18, 18, 19, 19, 20, 20, 21, 21, 22, 22,
     23, 23, 24, 24, 25, 25, 26, 26, 27, 27,
     28, 28, 29, 29, 64, 64]

  predicate InAlphabet(ty: CodeType, n: nat) {
    match ty
    case CODES => n <= 19
    case LENS => n <= 288
    case DISTS => n <= 32
  }

  /** The entry of a symbol: literals below the first base symbol, the end of block just before
      it, then lengths or distances with their base and extra bits. */
  function SymbolEntry(ty: CodeType, s: nat, bits: nat): (e: Entry)
    requires InAlphabet(ty, s + 1)
    ensures e.bits == bits && !IsLink(e)
  {
    match ty
    case CODES => Entry(0, bits, s)
    case LENS =>
      if s < 256 then Entry(0, bits, s)
      else if s == 256 then Entry(96, bits, 0)
      else Entry(LEXT[s - 257], bits, LBASE[s - 257])
    case DISTS => Entry(DEXT[s], bits, DBASE[s])
  }

  /** The meaning of every symbol of an alphabet. */
  function Meaning(ty: CodeType, n: nat): (ents: seq<Entry>)
    requires InAlphabet(ty, n)
    ensures |ents| == n && forall s :: 0 <= s < n ==> ents[s] == SymbolEntry(ty, s, 0) && !IsLink(ents[s])
  {
    if n == 0 then [] else Meaning(ty, n - 1) + [SymbolEntry(ty, n - 1, 0)]
  }

  function Enough(ty: CodeType): nat {
    if ty == LENS then ENOUGH_LENS else ENOUGH_DISTS
  }

  /** The lengths that are refused: over-subscribed, or incomplete other than one 1-bit code. */
  ghost predicate Refused(ty: CodeType, lens: seq<nat>) {
    && Symbols(lens) > 0
    && (Kraft(lens) > Pow2(MAXBITS)
        || (Kraft(lens) < Pow2(MAXBITS) && (ty == CODES || exists s: nat :: IsSymbol(lens, s) && lens[s] != 1)))
  }

  // ----- counting, Kraft check, sorting -----

  ghost predicate Counted(lens: seq<nat>, count: seq<nat>) {
    |count| == MAXBITS + 1 && forall l :: 0 <= l <= MAXBITS ==> count[l] == Count(lens, |lens|, l)
  }

  method CountLengths(lens: seq<nat>) returns (count: array<nat>)
    requires ValidLengths(lens)
    ensures fresh(count) && Counted(lens, count[..])
  {
    count := new nat[MAXBITS + 1](_ => 0);
    for sym := 0 to |lens|
      invariant forall l :: 0 <= l <= MAXBITS ==> count[l] == Count(lens, sym, l)
    {
      count[lens[sym]] := count[lens[sym]] + 1;
    }
  }

  /** The longest code length, or zero when no symbol has a code. */
  method MaxLength(lens: seq<nat>, count: array<nat>) returns (max: nat)
    requires Counted(lens, count[..])
    ensures max <= MAXBITS && (max > 0 ==> BlCount(lens, max) > 0)
    ensures forall l :: max < l <= MAXBITS ==> BlCount(lens, l) == 0
  {
    max := MAXBITS;
    while max >= 1
      invariant 0 <= max <= MAXBITS
      invariant forall l :: max < l <= MAXBITS ==> BlCount(lens, l) == 0
    {
      if count[max] != 0 { break; }
      max := max - 1;
    }
  }

  method MinLength(lens: seq<nat>, count: array<nat>, max: nat) returns (min: nat)
    requires Counted(lens, count[..]) && 1 <= max <= MAXBITS && BlCount(lens, max) > 0
    ensures 1 <= min <= max && BlCount(lens, min) > 0
    ensures forall l :: 1 <= l < min ==> BlCount(lens, l) == 0
  {
    min := 1;
    while min < max
      invariant 1 <= min <= max
      invariant forall l :: 1 <= l < min ==> BlCount(lens, l) == 0
    {
      if count[min] != 0 { break; }
      min := min + 1;
    }
  }

  lemma BelowIsFirst(lens: seq<nat>, l: nat)
    requires 1 <= l <= MAXBITS
    ensures Below(lens, l + 1) == Shl(FirstCode(lens, l) + BlCount(lens, l), MAXBITS - l)
  {
    BelowFirstCode(lens, l);
    ShlAdd(FirstCode(lens, l), BlCount(lens, l), MAXBITS - l);
  }

  lemma OverSubscribed(lens: seq<nat>, l: nat)
    requires 1 <= l <= MAXBITS && Pow2(l) < FirstCode(lens, l) + BlCount(lens, l)
    ensures Kraft(lens) > Pow2(MAXBITS)
  {
    hide Shl, Pow2, FirstCode, BlCount, Below;
    BelowIsFirst(lens, l);
    ShlLess(Pow2(l), FirstCode(lens, l) + BlCount(lens, l), MAXBITS - l);
    ShlPow(l, MAXBITS - l);
    BelowMono(lens, l + 1, MAXBITS + 1);
  }

  /** How many 15-bit codes are left over; negative as soon as the lengths are over-subscribed. */
  method CodesLeft(lens: seq<nat>, count: array<nat>) returns (left: int)
    requires Counted(lens, count[..])
    ensures left < 0 <==> Kraft(lens) > Pow2(MAXBITS)
    ensures left >= 0 ==> left == Pow2(MAXBITS) - Kraft(lens)
  {
    left := 1;
    for len := 1 to MAXBITS + 1
      invariant 0 <= left == Pow2(len - 1) - (FirstCode(lens, len - 1) + BlCount(lens, len - 1))
    {
      left := 2 * left;
      left := left - count[len];
      if left < 0 {
        OverSubscribed(lens, len);
        return;
      }
    }
    BelowIsFirst(lens, MAXBITS);
  }

  /** Where the symbols of each length start in the sorted order. */
  method Offsets(lens: seq<nat>, count: array<nat>) returns (offs: array<nat>)
    requires Counted(lens, count[..])
    ensures fresh(offs) && offs.Length == MAXBITS + 1
    ensures forall l :: 1 <= l <= MAXBITS ==> offs[l] == Offset(lens, l)
  {
    hide Counted, Offset;
    offs := new nat[MAXBITS + 1](_ => 0);
    OffsetNext(lens, count[..], 1);
    for len := 1 to MAXBITS
      invariant forall l :: 1 <= l <= len ==> offs[l] == Offset(lens, l)
    {
      OffsetNext(lens, count[..], len);
      offs[len + 1] := offs[len] + count[len];
    }
  }

  lemma OffsetNext(lens: seq<nat>, count: seq<nat>, len: nat)
    requires Counted(lens, count) && 1 <= len <= MAXBITS
    ensures |count| == MAXBITS + 1 && Offset(lens, 1) == 0 && Offset(lens, len + 1) == Offset(lens, len) + count[len]
  {
    hide Count;
  }

  ghost predicate SortedUpTo(lens: seq<nat>, work: seq<nat>, n: nat) {
    forall s: nat :: s < n && IsSymbol(lens, s) ==> Rank(lens, s) < |work| && work[Rank(lens, s)] == s
  }

  lemma SortStep(lens: seq<nat>, work: seq<nat>, s: nat)
    requires SortedUpTo(lens, work, s) && IsSymbol(lens, s) && Symbols(lens) <= |work|
    ensures Rank(lens, s) < |work| && SortedUpTo(lens, work[Rank(lens, s) := s], s + 1)
  {
    RankBound(lens, s);
    forall u: nat | u < s && IsSymbol(lens, u) ensures Rank(lens, u) != Rank(lens, s) {
      RankOrder(lens, u, s);
    }
  }

  /** The counting sort: symbols by length and, within a length, in symbol order. */
  method SortSymbols(lens: seq<nat>, count: array<nat>, work: array<nat>)
    requires ValidLengths(lens) && Counted(lens, count[..]) && Symbols(lens) <= work.Length && count != work
    modifies work
    ensures Sorted(lens, work[..])
  {
    hide Rank, Offset, Count, SortedUpTo;
    var offs := Offsets(lens, count);
    SortStart(lens, work[..]);
    for sym := 0 to |lens|
      invariant forall l :: 1 <= l <= MAXBITS ==> offs[l] == Offset(lens, l) + Count(lens, sym, l)
      invariant SortedUpTo(lens, work[..], sym)
    {
      RankNext(lens, sym);
      if lens[sym] != 0 {
        SortStep(lens, work[..], sym);
        ghost var before := work[..];
        work[offs[lens[sym]]] := sym;
        assert work[..] == before[Rank(lens, sym) := sym];
        offs[lens[sym]] := offs[lens[sym]] + 1;
      } else {
        SortSkip(lens, work[..], sym);
      }
    }
    SortEnd(lens, work[..]);
  }

  /** The rank of a symbol, and how the counts go on behind it. */
  lemma RankNext(lens: seq<nat>, sym: nat)
    requires ValidLengths(lens) && sym < |lens|
    ensures lens[sym] != 0 ==>
      IsSymbol(lens, sym) && Rank(lens, sym) == Offset(lens, lens[sym]) + Count(lens, sym, lens[sym])
    ensures forall l :: Count(lens, sym + 1, l) == Count(lens, sym, l) + if lens[sym] == l then 1 else 0
  {
  }

  lemma SortStart(lens: seq<nat>, work: seq<nat>)
    ensures SortedUpTo(lens, work, 0) && forall l :: Count(lens, 0, l) == 0
  {
  }

  lemma SortSkip(lens: seq<nat>, work: seq<nat>, s: nat)
    requires SortedUpTo(lens, work, s) && s < |lens| && lens[s] == 0
    ensures SortedUpTo(lens, work, s + 1)
  {
  }

  lemma SortEnd(lens: seq<nat>, work: seq<nat>)
    requires SortedUpTo(lens, work, |lens|) && Symbols(lens) <= |work|
    ensures Sorted(lens, work)
  {
  }

  // ----- the steps of the table-building loop -----

  /** Filled, but only from index `fill` of the table upwards. */
  ghost predicate FilledFrom(t: seq<Entry>, t': seq<Entry>, base: nat, curr: nat, l: nat, h: nat, here: Entry,
                             fill: nat)
  {
    && |t'| == |t| && base + Pow2(curr) <= |t|
    && (forall i: nat :: i < |t| && !(base <= i < base + Pow2(curr)) ==> t'[i] == t[i])
    && (forall i: nat :: i < Pow2(curr) ==> FillAt(t, t', base, l, h, here, fill, i))
  }

  ghost predicate FillAt(t: seq<Entry>, t': seq<Entry>, base: nat, l: nat, h: nat, here: Entry, fill: nat, i: nat)
    requires |t'| == |t| && base + i < |t|
  {
    t'[base + i] == if Low(i, l) == h && i >= fill then here else t[base + i]
  }

  /** Filling starts with nothing done and ends with all of it. */
  lemma FillEnds(t: seq<Entry>, t': seq<Entry>, base: nat, curr: nat, l: nat, h: nat, here: Entry)
    requires base + Pow2(curr) <= |t|
    ensures FilledFrom(t, t, base, curr, l, h, here, Pow2(curr))
    ensures FilledFrom(t, t', base, curr, l, h, here, 0) ==> Filled(t, t', base, curr, l, h, here)
  {
    hide Low, Pow2;
    if FilledFrom(t, t', base, curr, l, h, here, 0) {
      forall i: nat | i < Pow2(curr) ensures t'[base + i] == if Low(i, l) == h then here else t[base + i] {
        assert FillAt(t, t', base, l, h, here, 0, i);
      }
    }
  }

  lemma FillStep(t: seq<Entry>, t': seq<Entry>, base: nat, curr: nat, l: nat, h: nat, here: Entry, q: nat)
    requires l <= curr && h < Pow2(l) && Shl(q, l) + Pow2(l) <= Pow2(curr)
    requires FilledFrom(t, t', base, curr, l, h, here, Shl(q, l) + Pow2(l))
    ensures FilledFrom(t, t'[base + h + Shl(q, l) := here], base, curr, l, h, here, Shl(q, l))
  {
    hide Low, Shl, Pow2;
    var fill := Shl(q, l);
    var t2 := t'[base + h + fill := here];
    SplitUnique(h + fill, l, q, h);
    var end := base + Pow2(curr);
    assert base <= base + h + fill < end;
    assert forall i: nat :: i < |t| && !(base <= i < end) ==> t2[i] == t'[i] == t[i];
    forall i: nat | i < Pow2(curr) ensures FillAt(t, t2, base, l, h, here, fill, i) {
      if fill <= i < fill + Pow2(l) { SplitUnique(i, l, q, i - fill); }
      assert FillAt(t, t', base, l, h, here, fill + Pow2(l), i);
      assert t2[base + i] == if i == h + fill then here else t'[base + i];
    }
  }

  /** Replicate an entry at every index whose low l bits are h. */
  method Fill(table: array<Entry>, base: nat, curr: nat, l: nat, h: nat, here: Entry)
    requires l <= curr && h < Pow2(l) && base + Pow2(curr) <= table.Length
    modifies table
    ensures Filled(old(table[..]), table[..], base, curr, l, h, here)
  {
    ghost var t := table[..];
    var incr := Pow2(l);
    var fill := Pow2(curr);
    ghost var q := Pow2(curr - l);
    ShlPow(curr - l, l);
    FillEnds(t, t, base, curr, l, h, here);
    while fill != 0
      invariant 0 <= q && fill == Shl(q, l) <= Pow2(curr)
      invariant FilledFrom(t, table[..], base, curr, l, h, here, fill)
      decreases fill
    {
      hide Low, Shl, Pow2, FilledFrom;
      ShlOne(l);
      if q == 0 { assert false; }
      ShlAdd(q - 1, 1, l);
      q := q - 1;
      fill := fill - incr;
      FillStep(t, table[..], base, curr, l, h, here, q);
      ghost var t' := table[..];
      table[base + h + fill] := here;
      assert table[..] == t'[base + h + fill := here];
    }
    FillEnds(t, table[..], base, curr, l, h, here);
  }

  /** Bit i of a reversed code is bit len-1-i of the code. */
  lemma RevBit(c: nat, len: nat, m: nat)
    requires m < len
    ensures Shr(Rev(c, len), len - 1 - m) % 2 == Shr(c, m) % 2
  {
    var i := len - 1 - m;
    RevLow(c, len, i);
    assert len - i == m + 1;
    RevSplit(c, m, 1);
    OneBit(Shr(c, m) % 2, Rev(c, m));
    assert Rev(Shr(c, m), 1) == Shr(c, m) % 2;
  }

  lemma ShrStep(c: nat, m: nat)
    ensures Shr(c, m + 1) == Shr(c, m) / 2
  {
    ShrShr(c, m, 1);
    assert Shr(Shr(c, m), 1) == Shr(c, m) / 2;
  }

  /** Skipping a one bit: the increment carries over it. */
  lemma CarryOver(c: nat, m: nat)
    requires c + 1 == Shl(Shr(c, m) + 1, m) && Shr(c, m) % 2 == 1
    ensures c + 1 == Shl(Shr(c, m + 1) + 1, m + 1)
  {
    ShrStep(c, m);
    var y := Shr(c, m + 1) + 1;
    assert Shr(c, m) + 1 == 2 * y;
    ShlShl(y, 1, m);
    OneBit(0, y);
  }

  lemma {:induction false} RevOdd(y: nat, i: nat)
    requires y % 2 == 0
    ensures Rev(y + 1, i + 1) == Pow2(i) + Rev(y / 2, i)
  {
    hide Pow2;
    var x, n := y + 1, i + 1;
    assert x % 2 == 1 && x / 2 == y / 2;
    assert Rev(x, n) == Pow2(n - 1) + Rev(x / 2, n - 1);
  }

  /** Stopping at a zero bit: it becomes one, and the bits below it in huff stay. */
  lemma CarryStop(c: nat, len: nat, m: nat)
    requires m < len && c + 1 == Shl(Shr(c, m) + 1, m) && Shr(c, m) % 2 == 0
    ensures Rev(c + 1, len) == Low(Rev(c, len), len - 1 - m) + Pow2(len - 1 - m)
  {
    hide Shr, Shl, Low, Rev, Pow2;
    var i, y := len - 1 - m, Shr(c, m);
    RevShl(y + 1, m, i + 1);
    assert m + (i + 1) == len;
    RevOdd(y, i);
    RevLow(c, len, i);
    assert len - i == m + 1;
    ShrStep(c, m);
  }

  /** The backwards increment of a len-bit code: add one to it with its bits in reverse order.
      The moving mask `incr` is kept as its bit number, -1 once it has been shifted out. */
  method BackwardsIncrement(huff: nat, len: nat, ghost c: nat) returns (r: nat)
    requires len >= 1 && huff == Rev(c, len)
    ensures r == Rev(c + 1, len)
  {
    var incr: int := len - 1;
    ghost var m := 0;
    while incr >= 0 && Shr(huff, incr) % 2 == 1
      invariant incr == len - 1 - m && -1 <= incr
      invariant c + 1 == Shl(Shr(c, m) + 1, m)
    {
      RevBit(c, len, m);
      CarryOver(c, m);
      incr := incr - 1;
      m := m + 1;
    }
    if incr != -1 {
      RevBit(c, len, m);
      CarryStop(c, len, m);
      r := Low(huff, incr) + Pow2(incr);
    } else {
      RevShl(Shr(c, len) + 1, len, 0);
      r := 0;
    }
  }

  /** Codes not yet entered: all those longer than the current length, and the rest of it. */
  ghost predicate CountsLeft(lens: seq<nat>, count: seq<nat>, len: nat, k: nat) {
    && |count| == MAXBITS + 1 && 1 <= len <= MAXBITS
    && Offset(lens, len) <= k <= Offset(lens, len + 1)
    && count[len] == Offset(lens, len + 1) - k
    && forall l :: len < l <= MAXBITS ==> count[l] == BlCount(lens, l)
  }

  /** Total width of the codes from symbol s on, up to but not including length l. */
  lemma WidthStep(lens: seq<nat>, count: seq<nat>, s: nat, l: nat)
    requires IsSymbol(lens, s) && CountsLeft(lens, count, lens[s], Rank(lens, s)) && lens[s] <= l <= MAXBITS
    ensures Below(lens, l + 1) == WidthEnd(lens, s, l) + Shl(count[l], MAXBITS - l)
  {
    if l == lens[s] {
      var n := Count(lens, s, l);
      CountMono(lens, s, |lens|, l);
      ShlAdd(n, BlCount(lens, l) - n, MAXBITS - l);
    }
  }

  ghost function WidthEnd(lens: seq<nat>, s: nat, l: nat): nat
    requires IsSymbol(lens, s) && lens[s] <= l <= MAXBITS
  {
    if l == lens[s] then Pos(lens, s) else Below(lens, l)
  }

  lemma CellDef(lens: seq<nat>, root: nat, s: nat)
    requires IsSymbol(lens, s) && root <= lens[s]
    ensures Cell(lens, root, s) == Shr(Pos(lens, s), MAXBITS - root)
  {
  }

  lemma CellStep(p: nat, e: nat)
    ensures Shr(p + Pow2(e), e) == Shr(p, e) + 1
  {
    hide *;
    Split(p, e);
    ShlAdd(Shr(p, e), 1, e);
    ShlOne(e);
    SplitUnique(p + Pow2(e), e, Shr(p, e) + 1, Low(p, e));
  }

  /** A code that starts a whole root cell later is reached through another root entry. */
  lemma OtherCell(lens: seq<nat>, root: nat, s: nat, u: nat, l: nat)
    requires IsSymbol(lens, s) && IsSymbol(lens, u) && root < lens[s] && l <= lens[u]
    requires root < l <= MAXBITS && Kraft(lens) <= Pow2(MAXBITS)
    requires Pos(lens, s) + Pow2(MAXBITS - root) <= Below(lens, l)
    ensures Link(lens, root, u) != Link(lens, root, s)
  {
    hide Shr, Pow2, Pos, Below, Link, Kraft, Rev, Cell;
    assert Below(lens, lens[u]) <= Pos(lens, u) by { PosStart(lens, u); }
    BelowMono(lens, l, lens[u]);
    var e := MAXBITS - root;
    CellStep(Pos(lens, s), e);
    assert Pos(lens, s) + Pow2(e) <= Pos(lens, u);
    ShrMono(Pos(lens, s) + Pow2(e), Pos(lens, u), e);
    assert Shr(Pos(lens, s), e) < Shr(Pos(lens, u), e);
    LinkIsCell(lens, root, s);
    LinkIsCell(lens, root, u);
    CellDef(lens, root, s);
    CellDef(lens, root, u);
    assert Cell(lens, root, s) < Cell(lens, root, u);
    if Link(lens, root, u) == Link(lens, root, s) {
      RevInjective(Cell(lens, root, u), Cell(lens, root, s), root);
    }
  }

  /** The largest code length. */
  ghost predicate IsMax(lens: seq<nat>, max: nat) {
    && 1 <= max <= MAXBITS && BlCount(lens, max) > 0
    && forall l :: max < l <= MAXBITS ==> BlCount(lens, l) == 0
  }

  lemma MaxBounds(lens: seq<nat>, max: nat, u: nat)
    requires IsMax(lens, max) && IsSymbol(lens, u)
    ensures lens[u] <= max
  {
    CountMono(lens, u + 1, |lens|, lens[u]);
    assert BlCount(lens, lens[u]) > 0;
  }

  /** Every code that is linked from the root entry of s fits a second-level table of curr bits. */
  ghost predicate Fits(lens: seq<nat>, root: nat, s: nat, curr: nat)
    requires IsSymbol(lens, s)
  {
    forall u: nat :: IsSymbol(lens, u) && root < lens[u] && Link(lens, root, u) == Link(lens, root, s) ==>
      lens[u] <= root + curr
  }

  lemma FitsAll(lens: seq<nat>, root: nat, max: nat, s: nat, curr: nat)
    requires IsMax(lens, max) && IsSymbol(lens, s) && max <= root + curr
    ensures Fits(lens, root, s, curr)
  {
    forall u: nat | IsSymbol(lens, u) ensures lens[u] <= max { MaxBounds(lens, max, u); }
  }

  lemma FitsFull(lens: seq<nat>, root: nat, s: nat, curr: nat)
    requires IsSymbol(lens, s) && root < lens[s] <= root + curr < MAXBITS && Kraft(lens) <= Pow2(MAXBITS)
    requires Pos(lens, s) + Pow2(MAXBITS - root) <= Below(lens, root + curr + 1)
    ensures Fits(lens, root, s, curr)
  {
    hide Link, Pos, Below, Kraft, Pow2;
    forall u: nat | IsSymbol(lens, u) && root < lens[u] && Link(lens, root, u) == Link(lens, root, s)
      ensures lens[u] <= root + curr
    {
      if lens[u] > root + curr { OtherCell(lens, root, s, u, root + curr + 1); }
    }
  }

  lemma LeftStep(left: nat, n: nat, e: nat)
    requires e > 0
    ensures n < left ==> Shl(2 * (left - n), e - 1) + Shl(n, e) == Shl(left, e)
    ensures n >= left ==> Shl(n, e) >= Shl(left, e)
  {
    hide *;
    if n < left {
      ShlAdd(left - n, n, e);
      ShlShl(left - n, 1, e - 1);
      OneBit(0, left - n);
    } else {
      ShlMono(left, n, e);
    }
  }

  /** `left` counts the indices of a curr-bit table that the codes from s on leave free. */
  ghost predicate LeftFree(lens: seq<nat>, root: nat, s: nat, curr: nat, left: int)
    requires IsSymbol(lens, s) && root < lens[s] <= root + curr <= MAXBITS
  {
    && left > 0
    && Pos(lens, s) + Pow2(MAXBITS - root)
       == WidthEnd(lens, s, root + curr) + Shl(left, MAXBITS - root - curr)
  }

  lemma LeftInit(lens: seq<nat>, root: nat, s: nat)
    requires IsSymbol(lens, s) && root < lens[s]
    ensures LeftFree(lens, root, s, lens[s] - root, Pow2(lens[s] - root))
  {
    ShlPow(lens[s] - root, MAXBITS - lens[s]);
  }

  lemma LeftNext(lens: seq<nat>, count: seq<nat>, root: nat, s: nat, curr: nat, left: int)
    requires IsSymbol(lens, s) && root < lens[s] <= root + curr < MAXBITS && Kraft(lens) <= Pow2(MAXBITS)
    requires CountsLeft(lens, count, lens[s], Rank(lens, s)) && LeftFree(lens, root, s, curr, left)
    ensures count[root + curr] < left ==>
              LeftFree(lens, root, s, curr + 1, 2 * (left - count[root + curr]))
    ensures count[root + curr] >= left ==> Fits(lens, root, s, curr)
  {
    hide Shl, Pow2, Pos, Below, Kraft, Fits, Rank, BlCount;
    var l := root + curr;
    WidthStep(lens, count, s, l);
    LeftStep(left, count[l], MAXBITS - l);
    if count[l] >= left { FitsFull(lens, root, s, curr); }
  }

  /** The number of index bits of the next second-level table: long enough for every code that
      shares the root entry of s, found by looking ahead in the counts of codes still to come. */
  method SubTableBits(lens: seq<nat>, count: array<nat>, root: nat, max: nat, s: nat) returns (curr: nat)
    requires IsSymbol(lens, s) && root < lens[s] && IsMax(lens, max) && Kraft(lens) <= Pow2(MAXBITS)
    requires CountsLeft(lens, count[..], lens[s], Rank(lens, s))
    ensures lens[s] <= root + curr <= max
    ensures Fits(lens, root, s, curr)
    ensures Kraft(lens) == Pow2(MAXBITS) && Rem(lens, root, s) == Pow2(lens[s] - root) ==>
      Needed(lens, root, s, curr) && Wide(lens, root, s, curr)
  {
    hide LeftFree, Pow2, Kraft, Fits, Rank, Rem, Needed, Wide;
    MaxBounds(lens, max, s);
    curr := lens[s] - root;
    var left: int := Pow2(curr);
    LeftInit(lens, root, s);
    while curr + root < max
      invariant lens[s] <= root + curr <= max <= MAXBITS
      invariant LeftFree(lens, root, s, curr, left)
    {
      LeftNext(lens, count[..], root, s, curr, left);
      ghost var free := left;
      left := left - count[curr + root];
      if left <= 0 {
        Exact(lens, root, s, curr, free);
        return;
      }
      curr := curr + 1;
      left := 2 * left;
    }
    FitsAll(lens, root, max, s, curr);
    Exact(lens, root, s, curr, left);
  }

  /** No more index bits than some code needs, when the codes are complete. */
  lemma Exact(lens: seq<nat>, root: nat, s: nat, curr: nat, left: int)
    requires IsSymbol(lens, s) && root < lens[s] <= root + curr <= MAXBITS && Kraft(lens) <= Pow2(MAXBITS)
    requires Fits(lens, root, s, curr) && LeftFree(lens, root, s, curr, left)
    ensures Kraft(lens) == Pow2(MAXBITS) && Rem(lens, root, s) == Pow2(lens[s] - root) ==>
      Needed(lens, root, s, curr) && Wide(lens, root, s, curr)
  {
    hide Kraft, Pow2, Rem, Cell, Link, Pos, Below, Shl;
    forall u: nat | IsSymbol(lens, u) && root < lens[u] && Cell(lens, root, u) == Cell(lens, root, s)
      ensures lens[u] <= root + curr
    {
      SameLink(lens, root, u, s);
    }
    if Kraft(lens) == Pow2(MAXBITS) && Rem(lens, root, s) == Pow2(lens[s] - root) && lens[s] < root + curr {
      ShlMono(1, left, MAXBITS - root - curr);
      ShlOne(MAXBITS - root - curr);
      var u := LongerBehind(lens, root, s, root + curr);
    }
  }

  /** The local variables that say which table is being filled: where it starts, its index bits,
      the code bits dropped, the root entry that links to it (-1 for none), the space used. */
  datatype Cursor = Cursor(next: nat, curr: nat, drop: nat, low: int, used: nat)

  /** The cursor is at the table that symbol s belongs in. */
  ghost predicate AtTable(t: seq<Entry>, lens: seq<nat>, root: nat, s: nat, k: nat, c: Cursor)
    requires IsSymbol(lens, s)
  {
    && Pow2(root) <= c.used <= |t|
    && if lens[s] <= root then
         c == Cursor(0, root, 0, -1, Pow2(root))
       else
         && c.drop == root && c.low == Link(lens, root, s) && 1 <= c.curr < 16
         && t[Link(lens, root, s)] == Entry(c.curr, root, c.next)
         && Pow2(root) <= c.next && c.next + Pow2(c.curr) == c.used
         && lens[s] <= root + c.curr && Fits(lens, root, s, c.curr)
         && LinksBelow(t, root, lens, k, c.next, c.low)
  }

  /** Enter symbol s: replicate its entry over all indices that end in its code word. */
  method PlaceSymbol(ty: CodeType, lens: seq<nat>, table: array<Entry>, root: nat, s: nat, huff: nat, c: Cursor,
                     ghost ents: seq<Entry>)
    requires InAlphabet(ty, |lens|) && ents == Meaning(ty, |lens|) && Kraft(lens) <= Pow2(MAXBITS)
    requires IsSymbol(lens, s) && huff == Code(lens, s)
    requires AtTable(table[..], lens, root, s, Rank(lens, s), c)
    requires AllPlaced(table[..], c.used, root, lens, ents, Rank(lens, s))
    modifies table
    ensures AtTable(table[..], lens, root, s, Rank(lens, s) + 1, c)
    ensures AllPlaced(table[..], c.used, root, lens, ents, Rank(lens, s) + 1)
  {
    hide Code, Kraft, Rank, Pow2, Low, Shr, AllPlaced, Placed, LinksBelow, Filled, Fits, SymbolEntry, Meaning;
    var len := lens[s];
    var here := SymbolEntry(ty, s, len - c.drop);
    ghost var t := table[..];
    SymbolBits(ty, s, len - c.drop);
    if len <= root {
      NoBits(huff);
      Fill(table, c.next, c.curr, len - c.drop, Shr(huff, c.drop), here);
      FillRoot(t, table[..], c.used, root, lens, ents, s);
    } else {
      ShrLess(huff, root, len);
      Fill(table, c.next, c.curr, len - c.drop, Shr(huff, c.drop), here);
      FillSub(t, table[..], c.used, root, lens, ents, s, c.next, c.curr);
    }
  }

  lemma NoBits(v: nat)
    ensures Shr(v, 0) == v && Rev(v, 0) == 0
  {
  }

  lemma SymbolBits(ty: CodeType, s: nat, bits: nat)
    requires InAlphabet(ty, s + 1)
    ensures SymbolEntry(ty, s, bits) == SymbolEntry(ty, s, 0).(bits := bits)
  {
  }

  /** Start a second-level table when the next symbol needs one that is not there yet. */
  method NextTable(ty: CodeType, lens: seq<nat>, table: array<Entry>, count: array<nat>, root: nat, max: nat,
                   ghost p: nat, s: nat, huff: nat, c: Cursor, ghost ents: seq<Entry>)
    returns (room: bool, c': Cursor)
    requires Meanings(lens, ents) && Kraft(lens) <= Pow2(MAXBITS) && IsMax(lens, max)
    requires 1 <= root && (if ty == CODES then max <= root else Enough(ty) <= table.Length)
    requires IsSymbol(lens, p) && IsSymbol(lens, s) && Rank(lens, s) == Rank(lens, p) + 1
    requires huff == Code(lens, s) && CountsLeft(lens, count[..], lens[s], Rank(lens, s))
    requires AtTable(table[..], lens, root, p, Rank(lens, s), c)
    requires AllPlaced(table[..], c.used, root, lens, ents, Rank(lens, s))
    requires (Kraft(lens) < Pow2(MAXBITS) ==> max == 1) && Thrifty(lens, root, p, c.curr, c.used)
    modifies table
    ensures room ==> Thrifty(lens, root, s, c'.curr, c'.used)
    ensures !room ==> !Tight(ty, lens, root)
    ensures room ==> AtTable(table[..], lens, root, s, Rank(lens, s), c')
    ensures room ==> AllPlaced(table[..], c'.used, root, lens, ents, Rank(lens, s))
    ensures !room ==> ty != CODES && c'.used > Enough(ty) && max > root
  {
    hide Code, Kraft, Rank, Pow2, Low, AllPlaced, LinksBelow, Fits, Meanings, Thrifty, Needed, Wide, Rem, Tight;
    RankOrder(lens, p, s);
    room, c' := true, c;
    StillThrifty(lens, root, p, s, c.curr, c.used);
    if lens[s] > root && Low(huff, root) != c.low {
      MaxBounds(lens, max, s);
      var drop := if c.drop == 0 then root else c.drop;
      var next := c.next + Pow2(c.curr);
      var curr := SubTableBits(lens, count, root, max, s);
      var used := c.used + Pow2(curr);
      c' := Cursor(next, curr, drop, Low(huff, root), used);
      NewThrifty(ty, lens, root, p, s, c.curr, c.used, curr);
      if ty != CODES && used > Enough(ty) { return false, c'; }
      ghost var t := table[..];
      NewLink(lens, root, p, s);
      AddLink(t, c.used, used, root, lens, ents, s, Entry(curr, root, next));
      table[Low(huff, root)] := Entry(curr, root, next);
      assert table[..] == t[Link(lens, root, s) := Entry(curr, root, next)];
    } else if lens[s] > root {
      SameFits(lens, root, p, s, c.curr);
    }
  }

  /** The symbols are few enough for the bounds on the table space. */
  ghost predicate Tight(ty: CodeType, lens: seq<nat>, root: nat) {
    || (ty == LENS && root == 9 && Symbols(lens) <= 286)
    || (ty == DISTS && root == 6 && Symbols(lens) <= 30)
  }

  lemma StillThrifty(lens: seq<nat>, root: nat, p: nat, s: nat, curr: nat, used: nat)
    requires IsSymbol(lens, p) && IsSymbol(lens, s) && Rank(lens, s) == Rank(lens, p) + 1 && lens[p] <= lens[s]
    requires Kraft(lens) <= Pow2(MAXBITS) && Thrifty(lens, root, p, curr, used)
    ensures lens[s] <= root || (root < lens[p] && Link(lens, root, p) == Link(lens, root, s)) ==>
      Thrifty(lens, root, s, curr, used)
    ensures root < lens[s] && (lens[p] <= root || Link(lens, root, p) != Link(lens, root, s)) ==>
      Rem(lens, root, s) == Pow2(lens[s] - root)
  {
    hide Kraft, Pow2, Rank, Link, Cell, Rem, Needed, Wide, Value;
    if lens[s] > root {
      if lens[p] > root { SameLink(lens, root, p, s); }
      if lens[p] > root && Link(lens, root, p) == Link(lens, root, s) {
        ThriftySame(lens, root, p, s, curr, used);
      } else {
        FreshCell(lens, root, p, s);
      }
    }
  }

  lemma NewThrifty(ty: CodeType, lens: seq<nat>, root: nat, p: nat, s: nat, curr: nat, used: nat, curr': nat)
    requires IsSymbol(lens, p) && IsSymbol(lens, s) && Rank(lens, s) == Rank(lens, p) + 1 && 1 <= root < lens[s]
    requires Kraft(lens) == Pow2(MAXBITS) && Thrifty(lens, root, p, curr, used) && 1 <= curr'
    requires root < lens[p] ==> Link(lens, root, p) != Link(lens, root, s)
    requires Needed(lens, root, s, curr') && Wide(lens, root, s, curr')
    ensures Thrifty(lens, root, s, curr', used + Pow2(curr'))
    ensures Tight(ty, lens, root) ==> used + Pow2(curr') <= Enough(ty)
  {
    hide Kraft, Pow2, Rank, Link, Cell, Needed, Wide, Thrifty, Symbols;
    if lens[p] > root { SameLink(lens, root, p, s); }
    ThriftyNew(lens, root, p, s, curr, used, curr');
    EnoughRoom(lens, root, s, curr', used + Pow2(curr'));
  }

  /** The root entry of s has not been linked when the previous symbol used another one. */
  lemma NewLink(lens: seq<nat>, root: nat, p: nat, s: nat)
    requires IsSymbol(lens, p) && IsSymbol(lens, s) && Rank(lens, s) == Rank(lens, p) + 1
    requires root < lens[s] && Kraft(lens) <= Pow2(MAXBITS)
    requires root < lens[p] ==> Link(lens, root, p) != Link(lens, root, s)
    ensures forall u: nat :: IsSymbol(lens, u) && Rank(lens, u) < Rank(lens, s) && lens[u] > root ==>
              Link(lens, root, u) != Link(lens, root, s)
  {
    hide Link, Kraft, Rank, Pow2;
    forall u: nat | IsSymbol(lens, u) && Rank(lens, u) < Rank(lens, s) && lens[u] > root
      ensures Link(lens, root, u) != Link(lens, root, s)
    {
      RankOrder(lens, u, p);
      NewCell(lens, root, p, s, u);
    }
  }

  lemma SameFits(lens: seq<nat>, root: nat, p: nat, s: nat, curr: nat)
    requires IsSymbol(lens, p) && IsSymbol(lens, s) && root < lens[s]
    requires Fits(lens, root, p, curr) && Link(lens, root, p) == Link(lens, root, s)
    ensures Fits(lens, root, s, curr) && lens[s] <= root + curr
  {
    hide Link;
  }

  lemma SymbolsUpToMax(lens: seq<nat>, max: nat, l: nat)
    requires IsMax(lens, max) && max < l <= MAXBITS + 1
    ensures Offset(lens, max + 1) == Offset(lens, l)
    decreases l
  {
    if max + 1 < l {
      SymbolsUpToMax(lens, max, l - 1);
      assert BlCount(lens, l - 1) == 0;
    }
  }

  /** The symbol to enter after `count` has been decremented for the one before it. */
  lemma Advance(lens: seq<nat>, work: seq<nat>, count: seq<nat>, len: nat, max: nat, k: nat)
    requires Sorted(lens, work) && IsMax(lens, max) && CountsLeft(lens, count, len, k)
    requires len <= max && (count[len] == 0 ==> len != max)
    ensures k < Symbols(lens) && k < |work| && IsSymbol(lens, work[k]) && Rank(lens, work[k]) == k
    ensures count[len] != 0 ==> lens[work[k]] == len
    ensures CountsLeft(lens, count, lens[work[k]], k)
  {
    SymbolsUpToMax(lens, max, MAXBITS + 1);
    OffsetMono(lens, len + 1, MAXBITS + 1);
    if count[len] == 0 { OffsetMono(lens, len + 1, max); }
    var s := AtRank(lens, k);
    RankBound(lens, s);
    if lens[s] < len { OffsetMono(lens, lens[s] + 1, len); }
    if len < lens[s] { OffsetMono(lens, len + 1, lens[s]); }
  }

  lemma FirstSymbol(lens: seq<nat>, work: seq<nat>, count: seq<nat>, min: nat, max: nat)
    requires Sorted(lens, work) && IsMax(lens, max) && Counted(lens, count)
    requires 1 <= min <= max && BlCount(lens, min) > 0 && forall l :: 1 <= l < min ==> BlCount(lens, l) == 0
    ensures 0 < Symbols(lens) <= |work| && IsSymbol(lens, work[0]) && Rank(lens, work[0]) == 0
    ensures lens[work[0]] == min && Code(lens, work[0]) == 0
    ensures CountsLeft(lens, count, min, 0)
  {
    NoneShorter(lens, min);
    OffsetMono(lens, min + 1, MAXBITS + 1);
    var s := AtRank(lens, 0);
    RankBound(lens, s);
    if min < lens[s] { OffsetMono(lens, min + 1, lens[s]); }
    CountMono(lens, s + 1, |lens|, lens[s]);
    assert BlCount(lens, lens[s]) > 0;
    NoCodesBetween(lens, 1, lens[s]);
    ZeroCode(lens, s);
  }

  lemma {:induction false} NoneShorter(lens: seq<nat>, min: nat)
    requires forall l :: 1 <= l < min ==> BlCount(lens, l) == 0
    ensures Offset(lens, min) == 0
  {
    if min > 1 {
      NoneShorter(lens, min - 1);
      assert BlCount(lens, min - 1) == 0;
    }
  }

  lemma ZeroCode(lens: seq<nat>, s: nat)
    requires IsSymbol(lens, s) && Below(lens, lens[s]) == 0 && Count(lens, s, lens[s]) == 0
    ensures Code(lens, s) == 0
  {
    hide Below, Count, FirstCode, Shl, Rev;
    BelowFirstCode(lens, lens[s]);
    ShlOne(MAXBITS - lens[s]);
    ShlCancel(FirstCode(lens, lens[s]), 0, MAXBITS - lens[s]);
    RevZero(lens[s]);
  }

  /** After the last symbol of a complete code the backwards increment wraps to zero. */
  lemma LastWraps(lens: seq<nat>, s: nat)
    requires IsSymbol(lens, s) && Rank(lens, s) + 1 == Symbols(lens) && Kraft(lens) == Pow2(MAXBITS)
    ensures Rev(Canon(lens, s) + 1, lens[s]) == 0
  {
    hide Shl, Pow2, Rev, Canon, Pos, Kraft, Rank, Symbols;
    var l := lens[s];
    LastCode(lens, s);
    ShlPow(l, MAXBITS - l);
    ShlCancel(Canon(lens, s) + 1, Pow2(l), MAXBITS - l);
    ShlOne(l);
    RevShl(1, l, 0);
    NoBits(1);
  }

  lemma LastCode(lens: seq<nat>, s: nat)
    requires IsSymbol(lens, s) && Rank(lens, s) + 1 == Symbols(lens)
    ensures Shl(Canon(lens, s) + 1, MAXBITS - lens[s]) == Kraft(lens)
  {
    hide Shl, Canon, Pos, Kraft, Rank, Symbols;
    PosLast(lens, s);
    PosIsCanon(lens, s);
    ShlAdd(Canon(lens, s), 1, MAXBITS - lens[s]);
    ShlOne(MAXBITS - lens[s]);
  }

  /** An incomplete code that is let through is a single code 0 of one bit. */
  lemma SingleCode(lens: seq<nat>, s: nat)
    requires IsSymbol(lens, s) && Rank(lens, s) + 1 == Symbols(lens) && Kraft(lens) < Pow2(MAXBITS)
    requires lens[s] == 1
    ensures Canon(lens, s) == 0 && Code(lens, s) == 0 && Rev(Canon(lens, s) + 1, lens[s]) == 1
    ensures Symbols(lens) == 1
  {
    ZeroCanon(lens, s);
    RevZero(1);
    OneBit(1, 0);
    assert Canon(lens, s) == FirstCode(lens, 1) + Count(lens, s, 1);
    assert Rank(lens, s) == Offset(lens, 1) + Count(lens, s, 1);
  }

  lemma ZeroCanon(lens: seq<nat>, s: nat)
    requires IsSymbol(lens, s) && Rank(lens, s) + 1 == Symbols(lens) && Kraft(lens) < Pow2(MAXBITS)
    requires lens[s] == 1
    ensures Canon(lens, s) == 0
  {
    hide Canon, Kraft, Shl, Rank, Symbols;
    LastCode(lens, s);
    ShlPow(1, MAXBITS - 1);
    if Canon(lens, s) + 1 >= 2 { ShlMono(2, Canon(lens, s) + 1, MAXBITS - 1); }
  }

  /** Marking the unused half of a one-bit table as invalid completes it. */
  lemma MarkInvalid(t: seq<Entry>, lens: seq<nat>, ents: seq<Entry>, s: nat)
    requires Meanings(lens, ents) && |t| >= 2 && IsSymbol(lens, s) && lens[s] == 1
    requires Code(lens, s) == 0 && Rank(lens, s) == 0 && Symbols(lens) == 1
    requires AllPlaced(t, 2, 1, lens, ents, 1)
    ensures Decodes(t[1 := INVALID][..2], 1, lens, ents)
  {
    var t' := t[1 := INVALID];
    assert Placed(t, 2, 1, lens, ents, s);
    forall u: nat | IsSymbol(lens, u) && Rank(lens, u) < 1 ensures Placed(t', 2, 1, lens, ents, u) {
      RankOrder(lens, u, s);
    }
    forall w: nat
      ensures StartsWith(lens, s, w) || Lookup(t'[..2], 1, w) == Found(INVALID.op, INVALID.val, INVALID.bits)
    {
      assert Low(w, 1) == w % 2;
    }
    PlacedDecodes(t', 2, 1, lens, ents);
  }

  lemma MaxIsLast(lens: seq<nat>, max: nat)
    requires IsMax(lens, max)
    ensures Offset(lens, max + 1) == Symbols(lens)
  {
    SymbolsUpToMax(lens, max, MAXBITS + 1);
  }

  /** What is known when the last symbol s has been entered. */
  ghost predicate AllEntered(t: seq<Entry>, lens: seq<nat>, ents: seq<Entry>, root: nat, c: Cursor, s: nat, huff: nat)
    requires Meanings(lens, ents)
  {
    && IsSymbol(lens, s) && Rank(lens, s) + 1 == Symbols(lens) && huff == Rev(Canon(lens, s) + 1, lens[s])
    && AtTable(t, lens, root, s, Symbols(lens), c)
    && AllPlaced(t, c.used, root, lens, ents, Symbols(lens))
  }

  /** The loop over all symbols, shortest code first. */
  method EnterAll(ty: CodeType, lens: seq<nat>, table: array<Entry>, work: array<nat>, count: array<nat>,
                  root: nat, min: nat, max: nat, ghost ents: seq<Entry>)
    returns (room: bool, huff: nat, c: Cursor, s: nat)
    requires InAlphabet(ty, |lens|) && ents == Meaning(ty, |lens|) && Kraft(lens) <= Pow2(MAXBITS)
    requires Sorted(lens, work[..]) && Counted(lens, count[..]) && work != count && IsMax(lens, max)
    requires BlCount(lens, min) > 0 && forall l :: 1 <= l < min ==> BlCount(lens, l) == 0
    requires 1 <= min <= root <= max && Pow2(root) <= table.Length
    requires if ty == CODES then max <= root else Enough(ty) <= table.Length
    requires Kraft(lens) < Pow2(MAXBITS) ==> max == 1
    modifies table, count
    ensures room ==> AllEntered(table[..], lens, ents, root, c, s, huff)
    ensures room ==> s < |lens| && lens[s] == max
    ensures !room ==> ty != CODES && c.used > Enough(ty) && max > root && !Tight(ty, lens, root)
  {
    hide Code, Kraft, Rank, Pow2, AllPlaced, Fits, SymbolEntry, Sorted, Offset, BlCount, Counted, Symbols,
         Canon, Rev, Meaning, Tight, Needed, Wide, Value;
    FirstSymbol(lens, work[..], count[..], min, max);
    var sym, len := 0, min;
    huff, s := 0, work[0];
    c := Cursor(0, root, 0, -1, Pow2(root));
    FirstTable(table[..], root, lens, ents, s, c);
    while true
      invariant sym < Symbols(lens) && sym < work.Length && IsSymbol(lens, s) && len == lens[s]
      invariant s == work[sym] && Rank(lens, s) == sym && huff == Code(lens, s)
      invariant CountsLeft(lens, count[..], len, sym)
      invariant TablesSoFar(table[..], lens, ents, root, s, sym, c) && Thrifty(lens, root, s, c.curr, c.used)
      decreases Symbols(lens) - sym
    {
      PlaceSymbol(ty, lens, table, root, s, huff, c, ents);
      CodeDef(lens, s);
      huff := BackwardsIncrement(huff, len, Canon(lens, s));
      RankBound(lens, s);
      MaxBounds(lens, max, s);
      sym := sym + 1;
      count[len] := count[len] - 1;
      if count[len] == 0 && len == max {
        MaxIsLast(lens, max);
        return true, huff, c, s;
      }
      Advance(lens, work[..], count[..], len, max, sym);
      if count[len] == 0 { len := lens[work[sym]]; }
      CodeNext(lens, s, work[sym]);
      room, c := NextTable(ty, lens, table, count, root, max, s, work[sym], huff, c, ents);
      if !room { return; }
      s := work[sym];
    }
  }

  ghost predicate TablesSoFar(t: seq<Entry>, lens: seq<nat>, ents: seq<Entry>, root: nat, s: nat, k: nat, c: Cursor)
    requires Meanings(lens, ents) && IsSymbol(lens, s)
  {
    Pow2(root) <= c.used <= |t| && AtTable(t, lens, root, s, k, c) && AllPlaced(t, c.used, root, lens, ents, k)
  }

  lemma FirstTable(t: seq<Entry>, root: nat, lens: seq<nat>, ents: seq<Entry>, s: nat, c: Cursor)
    requires Meanings(lens, ents) && Pow2(root) <= |t| && IsSymbol(lens, s) && lens[s] <= root
    requires c == Cursor(0, root, 0, -1, Pow2(root))
    ensures TablesSoFar(t, lens, ents, root, s, 0, c)
  {
  }

  /** Whether the final huff is zero, and the tables once the invalid entry is written if not. */
  lemma Finish(t: seq<Entry>, lens: seq<nat>, ents: seq<Entry>, root: nat, c: Cursor, s: nat, huff: nat)
    requires Meanings(lens, ents) && AllEntered(t, lens, ents, root, c, s, huff) && 1 <= root <= lens[s]
    requires Kraft(lens) == Pow2(MAXBITS) || (Kraft(lens) < Pow2(MAXBITS) && lens[s] == 1)
    ensures c.used <= |t| && c.next + huff < |t| && c.drop <= lens[s]
    ensures huff == 0 ==> Decodes(t[..c.used], root, lens, ents)
    ensures huff != 0 ==> c.used == 2 && Decodes(t[c.next + huff := Entry(64, lens[s] - c.drop, 0)][..2], root, lens,
      ents)
  {
    hide Kraft, Rank, AllPlaced, Fits, Canon, Rev, Decodes, Code;
    if Kraft(lens) == Pow2(MAXBITS) {
      LastWraps(lens, s);
      PlacedDecodes(t, c.used, root, lens, ents);
    } else {
      SingleCode(lens, s);
      assert Pow2(1) == 2;
      MarkInvalid(t, lens, ents, s);
    }
  }

  /** All tables of a valid set of lengths, with the invalid entry of an incomplete code. */
  method BuildTables(ty: CodeType, lens: seq<nat>, table: array<Entry>, work: array<nat>, count: array<nat>,
                     root: nat, min: nat, max: nat)
    returns (ret: int, used: nat)
    requires InAlphabet(ty, |lens|) && Kraft(lens) <= Pow2(MAXBITS) && (Kraft(lens) < Pow2(MAXBITS) ==> max == 1)
    requires Sorted(lens, work[..]) && Counted(lens, count[..]) && work != count && IsMax(lens, max)
    requires BlCount(lens, min) > 0 && forall l :: 1 <= l < min ==> BlCount(lens, l) == 0
    requires 1 <= min <= root <= max && Pow2(root) <= table.Length
    requires if ty == CODES then max <= root else Enough(ty) <= table.Length
    modifies table, count
    ensures ret == 0 || ret == 1
    ensures ret == 0 ==> used <= table.Length && Decodes(table[..used], root, lens, Meaning(ty, |lens|))
    ensures ret == 1 ==> ty != CODES && used > Enough(ty) && max > root && !Tight(ty, lens, root)
  {
    hide Kraft, Sorted, BlCount, Counted, Decodes, Meaning, AllEntered, Pow2, Tight;
    ghost var ents := Meaning(ty, |lens|);
    var room, huff, c, s := EnterAll(ty, lens, table, work, count, root, min, max, ents);
    if !room { return 1, c.used; }
    ghost var t := table[..];
    Finish(t, lens, ents, root, c, s, huff);
    if huff != 0 {
      table[c.next + huff] := Entry(64, lens[s] - c.drop, 0);
      assert table[..] == t[c.next + huff := Entry(64, lens[s] - c.drop, 0)];
    }
    assert table[..c.used] == table[..][..c.used];
    return 0, c.used;
  }

  lemma CodeDef(lens: seq<nat>, s: nat)
    requires s < |lens|
    ensures Code(lens, s) == Rev(Canon(lens, s), lens[s])
  {
  }

  /** How many of the first n symbols have a length in 1 .. l-1. */
  ghost function OffsetIn(lens: seq<nat>, n: nat, l: nat): nat
    requires n <= |lens|
  {
    if l <= 1 then 0 else OffsetIn(lens, n, l - 1) + Count(lens, n, l - 1)
  }

  lemma {:induction false} OffsetInStep(lens: seq<nat>, n: nat, l: nat)
    requires n < |lens|
    ensures OffsetIn(lens, n + 1, l) == OffsetIn(lens, n, l) + (if 1 <= lens[n] < l then 1 else 0)
    decreases l
  {
    if l > 1 { OffsetInStep(lens, n, l - 1); }
  }

  lemma {:induction false} OffsetInBound(lens: seq<nat>, n: nat, l: nat)
    requires n <= |lens|
    ensures OffsetIn(lens, n, l) <= n
    decreases n
  {
    if n == 0 { NoneIn(lens, l); } else {
      OffsetInBound(lens, n - 1, l);
      OffsetInStep(lens, n - 1, l);
    }
  }

  lemma {:induction false} NoneIn(lens: seq<nat>, l: nat)
    ensures OffsetIn(lens, 0, l) == 0
  {
    if l > 1 { NoneIn(lens, l - 1); }
  }

  lemma {:induction false} OffsetIsIn(lens: seq<nat>, l: nat)
    ensures Offset(lens, l) == OffsetIn(lens, |lens|, l)
  {
    if l > 1 { OffsetIsIn(lens, l - 1); }
  }

  lemma SymbolsBound(lens: seq<nat>)
    ensures Symbols(lens) <= |lens|
  {
    OffsetIsIn(lens, MAXBITS + 1);
    OffsetInBound(lens, |lens|, MAXBITS + 1);
  }

  lemma HasSymbols(lens: seq<nat>, max: nat)
    requires IsMax(lens, max)
    ensures Symbols(lens) > 0
    ensures max != 1 <==> exists s: nat :: IsSymbol(lens, s) && lens[s] != 1
  {
    OffsetMono(lens, max + 1, MAXBITS + 1);
    var s := Nth(lens, |lens|, max, 0);
    assert IsSymbol(lens, s);
    forall u: nat | IsSymbol(lens, u) ensures lens[u] <= max { MaxBounds(lens, max, u); }
  }

  /** With no codes at all both entries are invalid, so decoding will report the error. */
  lemma NoSymbols(t: seq<Entry>, lens: seq<nat>, ents: seq<Entry>)
    requires Meanings(lens, ents) && |t| >= 2 && t[0] == t[1] == INVALID
    requires forall l :: 0 < l <= MAXBITS ==> BlCount(lens, l) == 0
    ensures Symbols(lens) == 0 && Decodes(t[..2], 1, lens, ents)
  {
    NoneShorter(lens, MAXBITS + 1);
    forall s: nat | IsSymbol(lens, s) ensures false {
      RankBound(lens, s);
    }
  }

  /** Build the decoding tables of lens[] at the start of `table`, with at most `bits` root index
      bits.  ret is 0 for success, -1 for an invalid set of lengths, 1 for too little space. */
  method InflateTable(ty: CodeType, lens: seq<nat>, table: array<Entry>, bits: nat, work: array<nat>)
    returns (ret: int, root: nat, used: nat)
    requires ValidLengths(lens) && InAlphabet(ty, |lens|) && |lens| <= work.Length
    requires if ty == CODES
             then 1 <= bits && Pow2(bits) <= table.Length && forall s :: 0 <= s < |lens| ==> lens[s] <= bits
             else Enough(ty) <= table.Length
    modifies table, work
    ensures ret == -1 || ret == 0 || ret == 1
    ensures ret == -1 <==> Refused(ty, lens)
    ensures ret == 0 ==> used <= table.Length && Decodes(table[..used], root, lens, Meaning(ty, |lens|))
    ensures ret == 1 ==> ty != CODES && used > Enough(ty) && (LongCode(lens, bits) || Pow2(bits) > Enough(ty))
    ensures Planned(ty, lens, bits) ==> ret != 1
  {
    hide Kraft, Meaning, Decodes, Refused, BlCount, Counted, LongCode, Tight, Planned;
    var count := CountLengths(lens);
    root, used := bits, 0;
    var max := MaxLength(lens, count);
    if root > max { root := max; }
    if max == 0 {
      Blank(ty, lens, table);
      return 0, 1, 2;
    }
    var min := MinLength(lens, count, max);
    if root < min { root := min; }
    var left := CodesLeft(lens, count);
    RefusedWhen(ty, lens, max);
    if left < 0 { return -1, root, used; }
    if left > 0 && (ty == CODES || max != 1) { return -1, root, used; }
    RoomWhen(lens, max, bits);
    RoomAlways(ty, lens, bits, min, max, root);
    ret, used := SortAndBuild(ty, lens, table, bits, work, count, root, min, max);
  }

  /** No symbols at all. */
  method Blank(ty: CodeType, lens: seq<nat>, table: array<Entry>)
    requires InAlphabet(ty, |lens|) && ValidLengths(lens) && table.Length >= 2
    requires forall l :: 0 < l <= MAXBITS ==> BlCount(lens, l) == 0
    modifies table
    ensures !Refused(ty, lens) && Decodes(table[..2], 1, lens, Meaning(ty, |lens|))
  {
    hide Refused, Decodes, Symbols, BlCount;
    table[0], table[1] := INVALID, INVALID;
    NoSymbols(table[..], lens, Meaning(ty, |lens|));
    NotRefused(ty, lens);
    assert table[..][..2] == table[..2];
  }

  /** Once the lengths are accepted. */
  method SortAndBuild(ty: CodeType, lens: seq<nat>, table: array<Entry>, bits: nat, work: array<nat>, count: array<nat>,
                      root: nat, min: nat, max: nat)
    returns (ret: int, used: nat)
    requires ValidLengths(lens) && InAlphabet(ty, |lens|) && |lens| <= work.Length
    requires if ty == CODES
             then Pow2(bits) <= table.Length && forall s :: 0 <= s < |lens| ==> lens[s] <= bits
             else Enough(ty) <= table.Length
    requires Kraft(lens) <= Pow2(MAXBITS) && (Kraft(lens) < Pow2(MAXBITS) ==> max == 1)
    requires Counted(lens, count[..]) && work != count && IsMax(lens, max)
    requires BlCount(lens, min) > 0 && forall l :: 1 <= l < min ==> BlCount(lens, l) == 0
    requires 1 <= min <= root <= max && (max <= bits ==> root == max)
    modifies table, work, count
    ensures ret == 0 || ret == 1
    ensures ret == 0 ==> used <= table.Length && Decodes(table[..used], root, lens, Meaning(ty, |lens|))
    ensures ret == 1 ==> ty != CODES && used > Enough(ty)
    ensures ret == 1 ==> (max > root && !Tight(ty, lens, root)) || used == Pow2(root)
  {
    hide Kraft, Meaning, Decodes, Symbols, BlCount, Counted, Tight;
    SymbolsBound(lens);
    SortSymbols(lens, count, work);
    used := Pow2(root);
    if ty != CODES && used > Enough(ty) { return 1, used; }
    if ty == CODES {
      MaxWithin(lens, max, bits);
      Pow2Mono(root, bits);
    }
    ret, used := BuildTables(ty, lens, table, work, count, root, min, max);
  }

  /** Some code is longer than the root index. */
  ghost predicate LongCode(lens: seq<nat>, bits: nat) { exists s: nat :: s < |lens| && lens[s] > bits }

  /** The root index bits and the numbers of symbols with which inflate() asks for tables. */
  ghost predicate Planned(ty: CodeType, lens: seq<nat>, bits: nat) {
    (ty == LENS && bits == 9 && |lens| <= 286) || (ty == DISTS && bits == 6 && |lens| <= 30)
  }

  /** Then either no code is longer than the root index, or the root index is as planned. */
  lemma RoomAlways(ty: CodeType, lens: seq<nat>, bits: nat, min: nat, max: nat, root: nat)
    requires IsMax(lens, max) && 1 <= min <= max && forall l :: 1 <= l < min ==> BlCount(lens, l) == 0
    requires Kraft(lens) <= Pow2(MAXBITS) && (Kraft(lens) < Pow2(MAXBITS) ==> max == 1)
    requires root == var r := if bits > max then max else bits; if r < min then min else r
    ensures Planned(ty, lens, bits) ==> (max <= root || Tight(ty, lens, root)) && Pow2(root) <= Enough(ty)
  {
    hide Kraft, BlCount, Symbols, Pow2, IsMax;
    if Planned(ty, lens, bits) {
      SmallPowers();
      SymbolsBound(lens);
      if max > bits {
        HasSymbols(lens, max);
        SomeShort(lens, bits);
        var s: nat :| IsSymbol(lens, s) && lens[s] <= bits;
        MinBounds(lens, min, s);
      } else {
        Pow2Mono(max, bits);
      }
    }
  }

  lemma MinBounds(lens: seq<nat>, min: nat, u: nat)
    requires IsSymbol(lens, u) && forall l :: 1 <= l < min ==> BlCount(lens, l) == 0
    ensures min <= lens[u]
  {
    CountMono(lens, u + 1, |lens|, lens[u]);
    assert BlCount(lens, lens[u]) > 0;
  }

  lemma RoomWhen(lens: seq<nat>, max: nat, bits: nat)
    requires IsMax(lens, max)
    ensures max > bits ==> LongCode(lens, bits)
    ensures max <= bits ==> Pow2(max) <= Pow2(bits)
  {
    hide Pow2;
    var s := Nth(lens, |lens|, max, 0);
    if max <= bits { Pow2Mono(max, bits); }
  }

  lemma RefusedWhen(ty: CodeType, lens: seq<nat>, max: nat)
    requires IsMax(lens, max)
    ensures Refused(ty, lens) <==>
      Kraft(lens) > Pow2(MAXBITS) || (Kraft(lens) < Pow2(MAXBITS) && (ty == CODES || max != 1))
  {
    hide Kraft, Symbols, Pow2;
    HasSymbols(lens, max);
  }

  lemma NotRefused(ty: CodeType, lens: seq<nat>)
    requires Symbols(lens) == 0
    ensures !Refused(ty, lens)
  {
  }

  lemma MaxWithin(lens: seq<nat>, max: nat, bits: nat)
    requires IsMax(lens, max) && forall s :: 0 <= s < |lens| ==> lens[s] <= bits
    ensures max <= bits
  {
    var s := Nth(lens, |lens|, max, 0);
  }
}
