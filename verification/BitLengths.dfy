/** gen_bitlen() of zlib/trees.c: bit lengths from the Huffman tree, the repair of lengths above the
    limit, and the exact cost of the block in opt_len and static_len. */
module BitLengths {
  import opened Bits
  import opened Huffman
  import opened Sums
  import opened TreeShape

  const HEAP_SIZE: nat := 573

  /** A static_tree_desc; without a static tree there is nothing to add to static_len. */
  datatype Desc = Desc(elems: nat, extraBase: nat, extra: seq<nat>, maxLength: nat, hasStatic: bool, stree: seq<nat>)

  ghost predicate DescOk(d: Desc) {
    && |d.extra| + d.extraBase == d.elems && (d.hasStatic ==> |d.stree| >= d.elems)
    && 1 <= d.maxLength <= MAXBITS && d.elems <= Pow2(d.maxLength) && 3 <= d.elems <= 286
    && forall n :: 0 <= n < 3 ==> Extra(d, n) == 0
  }

  function Extra(d: Desc, n: nat): nat
    requires |d.extra| + d.extraBase == d.elems && n < d.elems
  {
    if n >= d.extraBase then d.extra[n - d.extraBase] else 0
  }

  /** Bits per occurrence of each symbol under the given lengths. */
  ghost function Per(d: Desc, lens: seq<nat>): (r: seq<nat>)
    requires |d.extra| + d.extraBase == d.elems && |lens| <= d.elems
    ensures |r| == |lens|
  {
    seq(|lens|, n requires 0 <= n < |lens| => if lens[n] > 0 then lens[n] + Extra(d, n) else 0)
  }

  /** Bits per occurrence in the static tree, for the symbols that have a length. */
  ghost function StaticPer(d: Desc, lens: seq<nat>): (r: seq<nat>)
    requires DescOk(d) && |lens| <= d.elems
    ensures |r| == |lens|
  {
    seq(|lens|, n requires 0 <= n < |lens| => if lens[n] > 0 && d.hasStatic then d.stree[n] + Extra(d, n) else 0)
  }

  lemma PerStep(d: Desc, freq: seq<nat>, lens: seq<nat>, n: nat, bits: nat)
    requires DescOk(d) && |freq| == |lens| <= d.elems && n < |lens| && bits >= 1
    ensures Bill(freq, Per(d, lens[n := bits])) ==
            Bill(freq, Per(d, lens)) + freq[n] * (bits + Extra(d, n)) - freq[n] * Per(d, lens)[n]
  {
    hide Bill, Extra;
    BillUpdate(freq, Per(d, lens), n, bits + Extra(d, n));
    assert Per(d, lens)[n := bits + Extra(d, n)] == Per(d, lens[n := bits]);
  }

  lemma StaticPerStep(d: Desc, freq: seq<nat>, lens: seq<nat>, n: nat, bits: nat)
    requires DescOk(d) && |freq| == |lens| <= d.elems && n < |lens| && bits >= 1 && lens[n] == 0
    ensures Bill(freq, StaticPer(d, lens[n := bits])) ==
            Bill(freq, StaticPer(d, lens)) + if d.hasStatic then freq[n] * (d.stree[n] + Extra(d, n)) else 0
  {
    hide Bill, Extra;
    var v := if d.hasStatic then d.stree[n] + Extra(d, n) else 0;
    BillUpdate(freq, StaticPer(d, lens), n, v);
    assert StaticPer(d, lens)[n := v] == StaticPer(d, lens[n := bits]);
  }

  lemma PerNone(d: Desc, lens: seq<nat>, n: nat)
    requires |d.extra| + d.extraBase == d.elems && |lens| <= d.elems && n < |lens| && lens[n] == 0
    ensures Per(d, lens)[n] == 0
  {
  }

  lemma NothingBilled(d: Desc, freq: seq<nat>)
    requires DescOk(d) && |freq| <= d.elems
    ensures var none := seq(|freq|, _ => 0);
      Bill(freq, Per(d, none)) == 0 && Bill(freq, StaticPer(d, none)) == 0
  {
    var none: seq<nat> := seq(|freq|, _ => 0);
    BillFree(freq, Per(d, none));
    BillFree(freq, StaticPer(d, none));
  }

  /** Only nodes of the tree have changed. */
  ghost predicate OffTree(t: Shape, dl: seq<nat>, dl0: seq<nat>) {
    |dl| == |dl0| && forall n :: 0 <= n < |dl| && (n >= |t.pos| || t.pos[n] >= |t.order|) ==> dl[n] == dl0[n]
  }

  /** Every leaf has a length from 1 to limit. */
  ghost predicate Within(t: Shape, dl: seq<nat>, limit: nat) {
    forall m :: 0 <= m <= t.maxCode && m < |t.pos| && m < |dl| && t.pos[m] < |t.order| ==> 1 <= dl[m] <= limit
  }

  lemma StaticSame(d: Desc, lens: seq<nat>, n: nat, bits: nat)
    requires DescOk(d) && |lens| <= d.elems && n < |lens| && bits >= 1 && lens[n] >= 1
    ensures StaticPer(d, lens[n := bits]) == StaticPer(d, lens)
  {
  }

  lemma RemadeWithin(t: Shape, limit: nat, p: nat, dl: seq<nat>, bl: seq<nat>, now: seq<nat>, bits: nat)
    requires Remade(t, limit, p, dl, bl, now, bits, 0)
    ensures Within(t, dl, limit)
  {
  }

  lemma PassedWithin(t: Shape, limit: nat, dl: seq<nat>, bl: seq<nat>, lens: seq<nat>, overflow: nat)
    requires Passed(t, limit, |t.order|, dl, bl, lens, overflow)
    ensures ShapeOk(t) && Within(t, dl, limit) && CountsOf(bl, LensOf(t, dl))
    ensures Total(bl, limit) == Leaves(t, |t.order|)
    ensures |bl| == MAXBITS + 1 && bl[0] == 0 && forall l :: limit < l <= MAXBITS ==> bl[l] == 0
    ensures forall m :: 0 <= m <= t.maxCode && t.pos[m] < |t.order| ==> 1 <= dl[m] <= limit
    ensures |t.order| == 3 ==> overflow == 0 && Within(t, dl, 1)
  {
    hide Widths, Total, Leaves, Sum, Pending, Pow2, Count;
    forall m | 0 <= m <= t.maxCode && t.pos[m] < |t.order| ensures 1 <= dl[m] <= limit {
      assert t.order[t.pos[m]] == m;
    }
    assert lens == LensOf(t, dl);
    forall l | limit < l <= MAXBITS ensures bl[l] == 0 { CountNone(lens, |lens|, l); }
  }

  /** A code of the maximal length was needed. */
  ghost predicate Reaching(lens: seq<nat>, limit: nat) { exists n :: 0 <= n < |lens| && lens[n] == limit }

  lemma LimitReached(bl: seq<nat>, lens: seq<nat>, limit: nat)
    requires CountsOf(bl, lens) && 1 <= limit <= MAXBITS && bl[limit] >= 1
    ensures Reaching(lens, limit)
  {
    hide Count;
    if !Reaching(lens, limit) { CountNone(lens, |lens|, limit); }
  }

  lemma WholeKraft(bl: seq<nat>, lens: seq<nat>, limit: nat)
    requires CountsOf(bl, lens) && 1 <= limit <= MAXBITS && forall i :: limit < i <= MAXBITS ==> bl[i] == 0
    requires Widths(bl, limit) == Pow2(limit)
    ensures Kraft(lens) == Pow2(MAXBITS)
  {
    hide Pow2, Shl, Widths, Kraft;
    KraftWidths(bl, lens, limit);
    ShlPow(limit, MAXBITS - limit);
  }

  lemma RemadeAt(t: Shape, limit: nat, p: nat, dl: seq<nat>, bl: seq<nat>, now: seq<nat>, bits: nat, n: nat)
    requires Remade(t, limit, p, dl, bl, now, bits, n) && p > 0 && t.order[p - 1] <= t.maxCode
    ensures var m := t.order[p - 1];
      m < |t.pos| && t.pos[m] < |t.order| && m < |dl| && dl[m] >= 1 && bits >= 1 && |now| == t.maxCode + 1
  {
  }

  // ----- the repair loop -----

  /** Moving one leaf down and one overflow item up as its brother takes one unit off the Kraft sum. */
  lemma RepairStep(bl: seq<nat>, limit: nat, bits: nat)
    requires 1 <= bits < limit < |bl| && bl[bits] >= 1 && bl[limit] >= 1
    ensures var moved := bl[bits := bl[bits] - 1];
      var more := moved[bits + 1 := moved[bits + 1] + 2];
      var r := more[limit := more[limit] - 1];
      Widths(r, limit) == Widths(bl, limit) - 1 && Total(r, limit) == Total(bl, limit)
  {
    hide Widths, Total, Pow2;
    var moved: seq<nat> := bl[bits := bl[bits] - 1];
    var one: seq<nat> := moved[bits + 1 := moved[bits + 1] + 1];
    var more: seq<nat> := moved[bits + 1 := moved[bits + 1] + 2];
    var r: seq<nat> := more[limit := more[limit] - 1];
    WidthsAdd(moved, bits, limit);
    TotalAdd(moved, bits, limit);
    assert moved[bits := moved[bits] + 1] == bl;
    WidthsAdd(moved, bits + 1, limit);
    TotalAdd(moved, bits + 1, limit);
    assert one[bits + 1 := one[bits + 1] + 1] == more;
    WidthsAdd(one, bits + 1, limit);
    TotalAdd(one, bits + 1, limit);
    assert r[limit := r[limit] + 1] == more;
    WidthsAdd(r, limit, limit);
    TotalAdd(r, limit, limit);
    PowHalf(limit - bits);
    PowZero();
  }

  /** With a Kraft sum above one and at most 2^limit codes, some code is shorter than the limit. */
  lemma ShorterExists(bl: seq<nat>, limit: nat, bits: nat)
    requires bits <= limit < |bl| && 1 <= limit && bl[0] == 0 && forall i :: bits <= i < limit ==> bl[i] == 0
    requires Total(bl, limit) <= Pow2(limit) < Widths(bl, limit)
    ensures bits > 1
  {
    if bits <= 1 { WidthsEmpty(bl, limit - 1); }
  }

  /** The repair loop of gen_bitlen(): ends with a Kraft sum of exactly one over as many codes. */
  method Repair(bl: array<nat>, limit: nat, excess: nat)
    requires bl.Length == MAXBITS + 1 && 1 <= limit <= MAXBITS && excess > 0 && bl[0] == 0
    requires 2 * Widths(bl[..], limit) == 2 * Pow2(limit) + excess && 2 * bl[limit] >= excess + 2
    requires Total(bl[..], limit) <= Pow2(limit)
    modifies bl
    ensures Widths(bl[..], limit) == Pow2(limit) && Total(bl[..], limit) == old(Total(bl[..], limit)) && bl[0] == 0
    ensures bl[limit] >= 1
    ensures forall i :: limit < i <= MAXBITS ==> bl[i] == old(bl[i])
  {
    hide Widths, Total, Pow2;
    var overflow: int := excess;
    while overflow > 0
      invariant 2 * Widths(bl[..], limit) == 2 * Pow2(limit) + overflow
      invariant 2 * bl[limit] >= overflow + 2 >= 1
      invariant Total(bl[..], limit) == old(Total(bl[..], limit)) && bl[0] == 0
      invariant forall i :: limit < i <= MAXBITS ==> bl[i] == old(bl[i])
      decreases overflow
    {
      ghost var was: seq<nat> := bl[..];
      ShorterExists(was, limit, limit);
      var bits := limit - 1;
      while bl[bits] == 0
        invariant 1 <= bits < limit && bl[..] == was && forall i :: bits < i < limit ==> was[i] == 0
        decreases bits
      {
        ShorterExists(was, limit, bits);
        bits := bits - 1;
      }
      RepairStep(was, limit, bits);
      bl[bits] := bl[bits] - 1;
      bl[bits + 1] := bl[bits + 1] + 2;
      bl[limit] := bl[limit] - 1;
      overflow := overflow - 2;
    }
  }

  /** The fields of deflate_state that tree building works on. */
  class Builder {
    const heap: array<nat>
    const depth: array<nat>
    const blCount: array<nat>
    var heapLen: nat
    var heapMax: nat
    var optLen: int
    var staticLen: int

    constructor ()
      ensures heap.Length == depth.Length == HEAP_SIZE && blCount.Length == MAXBITS + 1
      ensures fresh(heap) && fresh(depth) && fresh(blCount) && heap != depth && heap != blCount && depth != blCount
    {
      heap := new nat[HEAP_SIZE];
      depth := new nat[HEAP_SIZE];
      blCount := new nat[MAXBITS + 1];
      heapLen, heapMax, optLen, staticLen := 0, HEAP_SIZE, 0, 0;
    }

    ghost predicate Arrays(freq: array<nat>, dl: array<nat>) {
      && heap.Length == depth.Length == HEAP_SIZE && blCount.Length == MAXBITS + 1 && freq.Length == dl.Length
      && heap != depth && heap != blCount && depth != blCount
      && freq !in {heap, depth, blCount, dl} && dl !in {heap, depth, blCount}
    }

    /** heap[heap_max ..] holds the tree. */
    ghost predicate Planted(d: Desc, t: Shape, dl: array<nat>)
      reads `heapMax, heap
    {
      && DescOk(d) && ShapeOk(t) && t.elems == d.elems && heapMax <= heap.Length && heap[heapMax..] == t.order
      && dl.Length >= t.elems + t.inner
    }

    /** opt_len and static_len have grown from the given values by the cost of the symbols with lengths. */
    ghost predicate Billed(d: Desc, freq: seq<nat>, lens: seq<nat>, opt: int, static0: int)
      reads `optLen, `staticLen
    {
      && DescOk(d) && |freq| == |lens| <= d.elems
      && optLen == opt + Bill(freq, Per(d, lens)) && staticLen == static0 + Bill(freq, StaticPer(d, lens))
    }

    /** Adds a leaf with its new length to bl_count and to the costs. */
    method CountLeaf(d: Desc, n: nat, bits: nat, freq: array<nat>, ghost lens: seq<nat>, ghost opt: int,
                     ghost static0: int)
      requires blCount.Length == MAXBITS + 1 && freq != blCount && |lens| <= freq.Length && n < |lens| && lens[n] == 0
      requires 1 <= bits <= MAXBITS && Billed(d, freq[..|lens|], lens, opt, static0)
      modifies blCount, `optLen, `staticLen
      ensures blCount[..] == old(blCount[..])[bits := old(blCount[bits]) + 1]
      ensures Billed(d, freq[..|lens|], lens[n := bits], opt, static0)
    {
      hide Bill, Per, StaticPer, Pow2;
      ghost var f := freq[..|lens|];
      assert f[n] == freq[n] && Per(d, lens)[n] == 0 by { PerNone(d, lens, n); }
      blCount[bits] := blCount[bits] + 1;
      var xbits := Extra(d, n);
      PerStep(d, f, lens, n, bits);
      optLen := optLen + freq[n] * (bits + xbits);
      StaticPerStep(d, f, lens, n, bits);
      if d.hasStatic { staticLen := staticLen + freq[n] * (d.stree[n] + xbits); }
    }

    /** The length of the node at h from its father's. */
    method PlaceNode(d: Desc, h: nat, dl: array<nat>, overflow: nat, ghost t: Shape, ghost lens: seq<nat>)
      returns (n: nat, bits: nat, overflow': nat)
      requires Planted(d, t, dl) && heap != dl && blCount != dl && heapMax < h < heap.Length
      requires Passed(t, d.maxLength, h - heapMax, dl[..], blCount[..], lens, overflow)
      modifies dl
      ensures n == heap[h] && 1 <= bits <= d.maxLength && (n <= t.maxCode ==> lens[n] == 0)
      ensures Passed(t, d.maxLength, h + 1 - heapMax, dl[..], Counted(t, h - heapMax, blCount[..], bits),
                     Given(t, h - heapMax, lens, bits), overflow')
      ensures dl[..] == old(dl[..])[n := bits] && n < |t.pos| && t.pos[n] < |t.order|
    {
      hide Pow2, Passed, ShapeOk, DescOk;
      ghost var q, limit := h - heapMax, d.maxLength;
      ghost var was: seq<nat>, bl: seq<nat> := dl[..], blCount[..];
      PassedAt(t, limit, q, was, bl, lens, overflow);
      n := heap[h];
      assert n == t.order[q];
      bits := dl[dl[n]] + 1;
      overflow' := overflow;
      if bits > d.maxLength { bits, overflow' := d.maxLength, overflow + 1; }
      PassStep(t, limit, q, was, bl, lens, overflow, bits);
      dl[n] := bits;
      assert dl[..] == was[n := bits];
    }

    /** One node of the first pass. */
    method PassNode(d: Desc, maxCode: nat, h: nat, freq: array<nat>, dl: array<nat>, overflow: nat,
                    ghost t: Shape, ghost lens: seq<nat>, ghost opt: int, ghost static0: int, ghost dl0: seq<nat>)
      returns (overflow': nat, ghost lens': seq<nat>)
      requires Arrays(freq, dl) && Planted(d, t, dl) && t.maxCode == maxCode && maxCode < freq.Length
      requires heapMax < h < HEAP_SIZE
      requires Passed(t, d.maxLength, h - heapMax, dl[..], blCount[..], lens, overflow)
      requires Billed(d, freq[..maxCode + 1], lens, opt, static0) && OffTree(t, dl[..], dl0)
      modifies dl, blCount, `optLen, `staticLen
      ensures Passed(t, d.maxLength, h + 1 - heapMax, dl[..], blCount[..], lens', overflow')
      ensures Billed(d, freq[..maxCode + 1], lens', opt, static0) && OffTree(t, dl[..], dl0)
    {
      hide Bill, Per, StaticPer, Pow2, Passed, ShapeOk;
      PassedAt(t, d.maxLength, h - heapMax, dl[..], blCount[..], lens, overflow);
      var n, bits;
      n, bits, overflow' := PlaceNode(d, h, dl, overflow, t, lens);
      if n <= maxCode { CountLeaf(d, n, bits, freq, lens, opt, static0); }
      lens' := Given(t, h - heapMax, lens, bits);
    }

    /** The start of the first pass: no counts, and length 0 for the root. */
    method StartPass(d: Desc, dl: array<nat>, ghost t: Shape)
      requires Planted(d, t, dl) && blCount.Length == MAXBITS + 1 && dl !in {heap, blCount} && heap != blCount
      requires Fathered(t, dl[..])
      modifies dl, blCount
      ensures Passed(t, d.maxLength, 1, dl[..], blCount[..], seq(t.maxCode + 1, _ => 0), 0)
      ensures OffTree(t, dl[..], old(dl[..]))
    {
      hide Pow2, Passed, ShapeOk;
      RootPlace(t);
      for bits := 0 to MAXBITS + 1
        invariant forall i :: 0 <= i < bits ==> blCount[i] == 0
        modifies blCount
      {
        blCount[bits] := 0;
      }
      ghost var was: seq<nat> := dl[..];
      dl[heap[heapMax]] := 0;
      assert dl[..] == was[t.order[0] := 0];
      RootFree(t, was);
      PassStart(t, d.maxLength, dl[..]);
      assert blCount[..] == seq(MAXBITS + 1, _ => 0);
    }

    /** The first pass of gen_bitlen(). */
    method FirstPass(d: Desc, maxCode: nat, freq: array<nat>, dl: array<nat>, ghost t: Shape)
      returns (overflow: nat, ghost lens: seq<nat>)
      requires Arrays(freq, dl) && Planted(d, t, dl) && t.maxCode == maxCode
      requires Fathered(t, dl[..])
      modifies dl, blCount, `optLen, `staticLen
      ensures Passed(t, d.maxLength, |t.order|, dl[..], blCount[..], lens, overflow)
      ensures maxCode < freq.Length && Billed(d, freq[..maxCode + 1], lens, old(optLen), old(staticLen))
      ensures OffTree(t, dl[..], old(dl[..]))
    {
      hide Bill, Per, StaticPer, Pow2, Passed, ShapeOk, OffTree, Fathered;
      RootPlace(t);
      StartPass(d, dl, t);
      overflow := 0;
      lens := seq(maxCode + 1, _ => 0);
      NothingBilled(d, freq[..maxCode + 1]);
      for h := heapMax + 1 to HEAP_SIZE
        invariant Passed(t, d.maxLength, h - heapMax, dl[..], blCount[..], lens, overflow)
        invariant Billed(d, freq[..maxCode + 1], lens, old(optLen), old(staticLen)) && OffTree(t, dl[..], old(dl[..]))
      {
        overflow, lens := PassNode(d, maxCode, h, freq, dl, overflow, t, lens, old(optLen), old(staticLen),
          old(dl[..]));
      }
    }

    /** Gives leaf m its new length and corrects opt_len. */
    method Relength(d: Desc, m: nat, bits: nat, freq: array<nat>, dl: array<nat>, ghost t: Shape, ghost opt: int,
                    ghost static0: int)
      requires ShapeOk(t) && freq != dl && t.elems <= dl.Length && t.maxCode < freq.Length && m <= t.maxCode
      requires t.pos[m] < |t.order|
      requires bits >= 1 && dl[m] >= 1 && Billed(d, freq[..t.maxCode + 1], LensOf(t, dl[..]), opt, static0)
      modifies dl, `optLen
      ensures dl[..] == old(dl[..])[m := bits] && Billed(d, freq[..t.maxCode + 1], LensOf(t, dl[..]), opt, static0)
    {
      hide Bill, StaticPer, Pow2;
      ghost var f, lens, was := freq[..t.maxCode + 1], LensOf(t, dl[..]), dl[..];
      if dl[m] != bits {
        PerStep(d, f, lens, m, bits);
        StaticSame(d, lens, m, bits);
        optLen := optLen + (bits - dl[m]) * freq[m];
        assert (bits - dl[m]) * freq[m] == freq[m] * (bits + Extra(d, m)) - freq[m] * (dl[m] + Extra(d, m));
        dl[m] := bits;
        assert dl[..] == was[m := bits];
        assert LensOf(t, dl[..]) == lens[m := bits];
      }
      assert dl[..] == was[m := bits];
    }

    /** The last loops of gen_bitlen(): hand out the repaired counts, longest codes to the rarest symbols. */
    method Recompute(d: Desc, maxCode: nat, freq: array<nat>, dl: array<nat>, ghost t: Shape, ghost opt: int,
                     ghost static0: int)
      requires Arrays(freq, dl) && Planted(d, t, dl) && t.maxCode == maxCode && maxCode < freq.Length
      requires Remade(t, d.maxLength, |t.order|, dl[..], blCount[..], seq(maxCode + 1, _ => 0), d.maxLength,
        blCount[d.maxLength])
      requires Billed(d, freq[..maxCode + 1], LensOf(t, dl[..]), opt, static0)
      modifies dl, `optLen
      ensures CountsOf(blCount[..], LensOf(t, dl[..]))
      ensures Billed(d, freq[..maxCode + 1], LensOf(t, dl[..]), opt, static0)
      ensures OffTree(t, dl[..], old(dl[..])) && Within(t, dl[..], d.maxLength) && Falling(t, 0, dl[..], 1)
    {
      hide Bill, Per, StaticPer, Pow2, ShapeOk, Remade, CountsOf, LensOf, Falling;
      RootPlace(t);
      ghost var now: seq<nat> := seq(maxCode + 1, _ => 0);
      var h: nat, bits: nat := HEAP_SIZE, d.maxLength;
      while bits != 0
        invariant bits <= d.maxLength && heapMax <= h <= HEAP_SIZE
        invariant bits > 0 ==> Remade(t, d.maxLength, h - heapMax, dl[..], blCount[..], now, bits, blCount[bits])
        invariant bits == 0 ==> CountsOf(blCount[..], LensOf(t, dl[..])) && Within(t, dl[..], d.maxLength)
        invariant bits == 0 ==> Falling(t, 0, dl[..], 1)
        invariant Billed(d, freq[..maxCode + 1], LensOf(t, dl[..]), opt, static0) && OffTree(t, dl[..], old(dl[..]))
      {
        var n := blCount[bits];
        while n != 0
          invariant heapMax <= h <= HEAP_SIZE && Remade(t, d.maxLength, h - heapMax, dl[..], blCount[..], now, bits, n)
          invariant Billed(d, freq[..maxCode + 1], LensOf(t, dl[..]), opt, static0) && OffTree(t, dl[..], old(dl[..]))
          decreases h
        {
          ghost var p, was := h - heapMax, dl[..];
          RemakeSkip(t, d.maxLength, p, was, blCount[..], now, bits, n);
          h := h - 1;
          var m := heap[h];
          assert m == t.order[p - 1];
          if m > maxCode { continue; }
          RemakeLeaf(t, d.maxLength, p, was, blCount[..], now, bits, n);
          RemadeAt(t, d.maxLength, p, was, blCount[..], now, bits, n);
          Relength(d, m, bits, freq, dl, t, opt, static0);
          now := now[m := bits];
          n := n - 1;
        }
        RemakeNext(t, d.maxLength, h - heapMax, dl[..], blCount[..], now, bits);
        RemadeWithin(t, d.maxLength, h - heapMax, dl[..], blCount[..], now, bits);
        bits := bits - 1;
      }
    }

    /** gen_bitlen(): every leaf gets a length from 1 to the limit, the Kraft sum is exactly one, and
        opt_len and static_len grow by the exact cost of the symbols. The lengths are the depths in the tree, unless
        it is deeper than the limit. */
    method GenBitlen(d: Desc, maxCode: nat, freq: array<nat>, dl: array<nat>, ghost t: Shape)
      requires Arrays(freq, dl) && Planted(d, t, dl) && t.maxCode == maxCode
      requires Fathered(t, dl[..])
      modifies dl, blCount, `optLen, `staticLen
      ensures CountsOf(blCount[..], LensOf(t, dl[..])) && Kraft(LensOf(t, dl[..])) == Pow2(MAXBITS)
      ensures Within(t, dl[..], d.maxLength) && (|t.order| == 3 ==> Within(t, dl[..], 1))
      ensures OffTree(t, dl[..], old(dl[..]))
      ensures maxCode < freq.Length && Billed(d, freq[..maxCode + 1], LensOf(t, dl[..]), old(optLen), old(staticLen))
      ensures Deep(t, dl[..], d.maxLength) ||
              (Reaching(LensOf(t, dl[..]), d.maxLength) && Falling(t, 0, dl[..], 1) && TooDeep(t, d.maxLength))
    {
      hide Bill, Per, StaticPer, Pow2, Passed, ShapeOk, Fathered, LensOf, CountsOf, Widths, Total, Kraft, Within, Deep,
        Falling, Reaching, TooDeep;
      var overflow, lens := FirstPass(d, maxCode, freq, dl, t);
      PassEnd(t, d.maxLength, dl[..], blCount[..], lens, overflow);
      PassedWithin(t, d.maxLength, dl[..], blCount[..], lens, overflow);
      if overflow != 0 {
        Repair(blCount, d.maxLength, overflow);
        RemakeStart(t, d.maxLength, dl[..], blCount[..]);
        Recompute(d, maxCode, freq, dl, t, old(optLen), old(staticLen));
        LimitReached(blCount[..], LensOf(t, dl[..]), d.maxLength);
      }
      WholeKraft(blCount[..], LensOf(t, dl[..]), d.maxLength);
    }
  }
}
