/** The Huffman tree that build_tree() of zlib/trees.c leaves in heap[heap_max ..]: the root first, then
    the two sons of each inner node, inner nodes being numbered in the order they were made. And what
    the first pass of gen_bitlen() over it keeps: the Kraft sum of the clamped lengths. */
module TreeShape {
  import opened Bits
  import opened Huffman
  import opened Sums

  /** Leaves are numbered up to maxCode, inner nodes from elems to elems + inner - 1; pos is the
      inverse of order, and beyond it for a symbol that is not a leaf. */
  datatype Shape = Shape(elems: nat, maxCode: nat, inner: nat, order: seq<nat>, pos: seq<nat>)

  ghost function Dad(t: Shape, p: nat): nat
    requires 1 <= p <= 2 * t.inner
  {
    t.elems + t.inner - 1 - (p - 1) / 2
  }

  ghost predicate InnerOk(t: Shape, x: nat) {
    && x < |t.pos| && t.pos[x] < |t.order| == 2 * t.inner + 1 && t.order[t.pos[x]] == x
    && (t.pos[x] > 0 ==> x < Dad(t, t.pos[x]))
  }

  ghost predicate ShapeOk(t: Shape) {
    && t.inner >= 1 && t.maxCode < t.elems && |t.order| == 2 * t.inner + 1 && |t.pos| == t.elems + t.inner
    && t.order[0] == t.elems + t.inner - 1
    && (forall p :: 0 <= p < |t.order| ==>
          t.order[p] < |t.pos| && t.pos[t.order[p]] == p && (t.order[p] <= t.maxCode || t.order[p] >= t.elems))
    && (forall x :: t.elems <= x < t.elems + t.inner ==> InnerOk(t, x))
    && (forall n :: 0 <= n <= t.maxCode && t.pos[n] < |t.order| ==> t.order[t.pos[n]] == n)
  }

  lemma RootPlace(t: Shape)
    requires ShapeOk(t)
    ensures t.inner >= 1 && t.maxCode < t.elems && |t.order| == 2 * t.inner + 1 && |t.pos| == t.elems + t.inner
    ensures t.order[0] == t.elems + t.inner - 1 && t.pos[t.order[0]] == 0
    ensures forall p :: 0 <= p < |t.order| ==> t.order[p] < |t.pos| && (p > 0 ==> t.order[p] != t.order[0])
  {
  }

  /** Every node but the root still holds its father. */
  ghost predicate Fathered(t: Shape, dl: seq<nat>) {
    forall p :: 1 <= p < |t.order| && p <= 2 * t.inner ==> t.order[p] < |dl| && dl[t.order[p]] == Dad(t, p)
  }

  /** How many of the first p nodes in order are leaves. */
  ghost function Leaves(t: Shape, p: nat): nat
    requires p <= |t.order|
  {
    if p == 0 then 0 else Leaves(t, p - 1) + if t.order[p - 1] <= t.maxCode then 1 else 0
  }

  /** How many sons of inner node x come at or after position q. */
  ghost function SonsLeft(t: Shape, q: nat, x: nat): nat
    requires t.elems <= x < t.elems + t.inner
  {
    var i := t.elems + t.inner - 1 - x;
    if q <= 2 * i + 1 then 2 else if q == 2 * i + 2 then 1 else 0
  }

  /** What inner node t.elems + j still has to hand on, a node of length l giving each son w(l). */
  ghost function HandOn(t: Shape, w: nat -> nat, q: nat, dl: seq<nat>, j: nat): nat
    requires ShapeOk(t) && |dl| >= t.elems + t.inner && j < t.inner
  {
    var x := t.elems + j;
    if t.pos[x] < q then SonsLeft(t, q, x) * w(dl[x]) else 0
  }

  ghost function Pending(t: Shape, w: nat -> nat, q: nat, dl: seq<nat>): (r: seq<int>)
    requires ShapeOk(t) && |dl| >= t.elems + t.inner
    ensures |r| == t.inner && forall j :: 0 <= j < t.inner ==> r[j] == HandOn(t, w, q, dl, j)
  {
    seq(t.inner, j requires 0 <= j < t.inner => HandOn(t, w, q, dl, j))
  }

  /** Half the Kraft weight of a node of length l. */
  ghost function Half(limit: nat): nat -> nat { (l: nat) => if l <= limit then Pow2(limit - l) else 0 }

  /** Nodes whose length is the limit. */
  ghost function Deepest(limit: nat): nat -> nat { (l: nat) => if l == limit then 1 else 0 }

  ghost predicate Assigned(t: Shape, limit: nat, q: nat, dl: seq<nat>, lens: seq<nat>) {
    && ShapeOk(t) && 1 <= q <= |t.order| && |dl| >= t.elems + t.inner && |lens| == t.maxCode + 1
    && dl[t.order[0]] == 0
    && (forall p :: 1 <= p < q ==> 1 <= dl[t.order[p]] <= limit)
    && (forall p :: q <= p < |t.order| ==> dl[t.order[p]] == Dad(t, p))
    && (forall n :: 0 <= n <= t.maxCode ==> lens[n] == if t.pos[n] < q then dl[t.order[t.pos[n]]] else 0)
  }

  /** After the nodes at positions below q have their lengths: the clamped lengths miss a Kraft sum of one by
      half the overflow, and if anything overflowed, enough codes have the maximal length. */
  ghost predicate Passed(t: Shape, limit: nat, q: nat, dl: seq<nat>, bl: seq<nat>, lens: seq<nat>, overflow: nat) {
    && 1 <= limit <= MAXBITS && Assigned(t, limit, q, dl, lens) && |bl| == MAXBITS + 1 && CountsOf(bl, lens)
    && 2 * Widths(bl, limit) + Sum(Pending(t, Half(limit), q, dl)) == 2 * Pow2(limit) + overflow
    && Capped(t, limit, q, dl, bl, overflow) && Total(bl, limit) == Leaves(t, q) && TopPair(t, q, dl, overflow)
    && Exact(t, limit, q, dl, overflow)
  }

  /** How far below the root the node at position p is. */
  ghost function Level(t: Shape, p: nat): nat
    requires ShapeOk(t) && p < |t.order|
    decreases p
  {
    if p == 0 then 0 else DadFirst(t, p); Level(t, t.pos[Dad(t, p)]) + 1
  }

  /** As long as nothing overflowed the lengths are the levels in the tree; otherwise some level is above the limit. */
  ghost predicate Exact(t: Shape, limit: nat, q: nat, dl: seq<nat>, overflow: nat)
    requires ShapeOk(t) && |dl| >= t.elems + t.inner && q <= |t.order|
  {
    && (overflow == 0 ==> forall p :: 0 <= p < q ==> dl[t.order[p]] == Level(t, p))
    && (overflow > 0 ==> exists p :: 0 <= p < q && Level(t, p) > limit)
  }

  /** The lengths are the levels of all nodes, and at most top. */
  ghost predicate Deep(t: Shape, dl: seq<nat>, top: nat) {
    && ShapeOk(t) && |dl| >= t.elems + t.inner
    && forall p :: 0 <= p < |t.order| ==> dl[t.order[p]] == Level(t, p) <= top
  }

  /** Some level is above the limit. */
  ghost predicate TooDeep(t: Shape, limit: nat) {
    ShapeOk(t) && exists p :: 0 <= p < |t.order| && Level(t, p) > limit
  }

  lemma ExactStep(t: Shape, limit: nat, q: nat, dl: seq<nat>, overflow: nat, bits: nat)
    requires ShapeOk(t) && |dl| >= t.elems + t.inner && 1 <= q < |t.order| && Exact(t, limit, q, dl, overflow)
    requires bits == Clamped(limit, dl[Dad(t, q)]) && dl[Dad(t, q)] <= limit
    ensures Exact(t, limit, q + 1, dl[t.order[q] := bits], overflow + (if dl[Dad(t, q)] == limit then 1 else 0))
  {
    DadFirst(t, q);
    var x := t.pos[Dad(t, q)];
    assert Level(t, q) == Level(t, x) + 1;
    assert t.order[x] == Dad(t, q);
    assert forall p :: 0 <= p < q ==> t.order[p] != t.order[q];
  }

  /** The sons of the root get one bit. */
  ghost predicate TopPair(t: Shape, q: nat, dl: seq<nat>, overflow: nat)
    requires ShapeOk(t) && |dl| >= t.elems + t.inner && q <= |t.order|
  {
    (q <= 3 ==> overflow == 0) && forall p :: 1 <= p < q && p <= 2 ==> dl[t.order[p]] == 1
  }

  ghost predicate Capped(t: Shape, limit: nat, q: nat, dl: seq<nat>, bl: seq<nat>, overflow: nat)
    requires ShapeOk(t) && |dl| >= t.elems + t.inner && limit < |bl| && q <= |t.order|
  {
    || 2 * bl[limit] + Sum(Pending(t, Deepest(limit), q, dl)) >= overflow + 2
    || (overflow == 0 && forall p :: 0 <= p < q ==> dl[t.order[p]] < limit)
  }

  /** The father of the node at q has its length already. */
  lemma DadFirst(t: Shape, q: nat)
    requires ShapeOk(t) && 1 <= q < |t.order|
    ensures var x := Dad(t, q); t.elems <= x < t.elems + t.inner && t.pos[x] < q && t.order[t.pos[x]] == x
    ensures t.order[q] >= t.elems ==> t.order[q] < Dad(t, q)
  {
    var x := Dad(t, q);
    assert InnerOk(t, x);
    if t.order[q] >= t.elems { assert InnerOk(t, t.order[q]); }
  }

  /** One step of the first pass changes what is pending only at the node and at its father. */
  lemma PendingStep(t: Shape, w: nat -> nat, q: nat, dl: seq<nat>, bits: nat)
    requires ShapeOk(t) && 1 <= q < |t.order| && |dl| >= t.elems + t.inner
    ensures var n, x := t.order[q], Dad(t, q);
      Sum(Pending(t, w, q + 1, dl[n := bits])) ==
      Sum(Pending(t, w, q, dl)) - w(dl[x]) + if n >= t.elems then 2 * w(bits) else 0
  {
    hide Sum;
    var n, x := t.order[q], Dad(t, q);
    var a, b := Pending(t, w, q, dl), Pending(t, w, q + 1, dl[n := bits]);
    DadFirst(t, q);
    var i := x - t.elems;
    SumUpdate(a, i, b[i]);
    assert SonsLeft(t, q, x) == SonsLeft(t, q + 1, x) + 1;
    assert a[i] - b[i] == w(dl[x]);
    var m := a[i := b[i]];
    forall j | 0 <= j < t.inner && t.elems + j != n && j != i ensures a[j] == b[j] {
      assert InnerOk(t, t.elems + j);
      assert t.pos[t.elems + j] != q;
    }
    if n >= t.elems {
      var k := n - t.elems;
      SumUpdate(m, k, b[k]);
      assert SonsLeft(t, q + 1, n) == 2;
      assert m[k := b[k]] == b;
    } else {
      assert m == b;
    }
  }

  /** When all nodes have their length nothing is pending. */
  lemma NothingPending(t: Shape, w: nat -> nat, dl: seq<nat>)
    requires ShapeOk(t) && |dl| >= t.elems + t.inner
    ensures Sum(Pending(t, w, |t.order|, dl)) == 0
  {
    SumZero(Pending(t, w, |t.order|, dl));
  }

  /** At the start only the root is pending. */
  lemma RootPending(t: Shape, w: nat -> nat, dl: seq<nat>)
    requires ShapeOk(t) && |dl| >= t.elems + t.inner && dl[t.order[0]] == 0
    ensures Sum(Pending(t, w, 1, dl)) == 2 * w(0)
  {
    hide Sum;
    var a, i := Pending(t, w, 1, dl), t.inner - 1;
    assert SonsLeft(t, 1, t.elems + i) == 2;
    SumUpdate(a, i, 0);
    forall j | 0 <= j < i ensures a[j] == 0 { assert InnerOk(t, t.elems + j); }
    SumZero(a[i := 0]);
  }

  lemma RootFree(t: Shape, dl: seq<nat>)
    requires ShapeOk(t) && Fathered(t, dl) && |dl| >= t.elems + t.inner
    ensures Fathered(t, dl[t.order[0] := 0])
  {
  }

  lemma PassStart(t: Shape, limit: nat, dl: seq<nat>)
    requires ShapeOk(t) && 1 <= limit <= MAXBITS && |dl| >= t.elems + t.inner && dl[t.order[0]] == 0
    requires Fathered(t, dl)
    ensures Passed(t, limit, 1, dl, seq(MAXBITS + 1, _ => 0), seq(t.maxCode + 1, _ => 0), 0)
  {
    hide Sum, Pow2, Widths, Count;
    var bl: seq<nat>, lens: seq<nat> := seq(MAXBITS + 1, _ => 0), seq(t.maxCode + 1, _ => 0);
    RootPending(t, Half(limit), dl);
    WidthsEmpty(bl, limit);
    assert Leaves(t, 1) == Leaves(t, 0);
    forall l | 1 <= l <= MAXBITS ensures Count(lens, |lens|, l) == 0 { CountNone(lens, |lens|, l); }
  }

  lemma {:induction false} CountNone(lens: seq<nat>, n: nat, l: nat)
    requires n <= |lens| && forall i :: 0 <= i < |lens| ==> lens[i] != l
    ensures Count(lens, n, l) == 0
    decreases n
  {
    if n > 0 { CountNone(lens, n - 1, l); }
  }

  /** The length a node gets from its father. */
  ghost function Clamped(limit: nat, dad: nat): nat { if dad + 1 > limit then limit else dad + 1 }

  /** The lengths of the symbols after the node at q has got its own. */
  ghost function Given(t: Shape, q: nat, lens: seq<nat>, bits: nat): seq<nat>
    requires q < |t.order| && |lens| == t.maxCode + 1
  {
    if t.order[q] <= t.maxCode then lens[t.order[q] := bits] else lens
  }

  /** Likewise the counts of the lengths. */
  ghost function Counted(t: Shape, q: nat, bl: seq<nat>, bits: nat): seq<nat>
    requires q < |t.order| && bits < |bl|
  {
    if t.order[q] <= t.maxCode then bl[bits := bl[bits] + 1] else bl
  }

  lemma AssignedStep(t: Shape, limit: nat, q: nat, dl: seq<nat>, lens: seq<nat>, bits: nat)
    requires Assigned(t, limit, q, dl, lens) && q < |t.order| && 1 <= bits <= limit
    ensures t.order[q] < |dl| && (t.order[q] <= t.maxCode ==> lens[t.order[q]] == 0)
    ensures Assigned(t, limit, q + 1, dl[t.order[q] := bits], Given(t, q, lens, bits))
  {
    var n := t.order[q];
    forall p | 0 <= p < |t.order| && p != q ensures t.order[p] != n { }
  }

  /** The Kraft relation over one step. */
  lemma WeightStep(t: Shape, limit: nat, q: nat, dl: seq<nat>, bl: seq<nat>, lens: seq<nat>, overflow: nat, bits: nat)
    requires Passed(t, limit, q, dl, bl, lens, overflow) && q < |t.order| && bits == Clamped(limit, dl[Dad(t, q)])
    ensures dl[Dad(t, q)] <= limit && 1 <= bits <= limit
    ensures 2 * Widths(Counted(t, q, bl, bits), limit) + Sum(Pending(t, Half(limit), q + 1, dl[t.order[q] := bits]))
            == 2 * Pow2(limit) + overflow + (if dl[Dad(t, q)] == limit then 1 else 0)
  {
    hide Sum, Pow2, Widths, Total, Count, Capped, Leaves, CountsOf;
    var n, x := t.order[q], Dad(t, q);
    DadFirst(t, q);
    var dad := dl[t.order[t.pos[x]]];
    PendingStep(t, Half(limit), q, dl, bits);
    if n <= t.maxCode { WidthsAdd(bl, bits, limit); }
    if dad < limit { PowHalf(limit - dad); } else { PowZero(); }
  }

  /** Overflow only adds to codes of the maximal length. */
  lemma CapStep(t: Shape, limit: nat, q: nat, dl: seq<nat>, bl: seq<nat>, lens: seq<nat>, overflow: nat, bits: nat)
    requires Passed(t, limit, q, dl, bl, lens, overflow) && q < |t.order| && bits == Clamped(limit, dl[Dad(t, q)])
    ensures bits < |bl| && Capped(t, limit, q + 1, dl[t.order[q] := bits], Counted(t, q, bl, bits),
                                  overflow + (if dl[Dad(t, q)] == limit then 1 else 0))
  {
    hide Sum, Pow2, Widths, Total, Count;
    DadFirst(t, q);
    var dad := dl[t.order[t.pos[Dad(t, q)]]];
    PendingStep(t, Deepest(limit), q, dl, bits);
    SumPositive(Pending(t, Deepest(limit), q, dl));
  }

  /** What the code reads at q: the father, not yet overwritten, and the father's length. */
  lemma PassedAt(t: Shape, limit: nat, q: nat, dl: seq<nat>, bl: seq<nat>, lens: seq<nat>, overflow: nat)
    requires Passed(t, limit, q, dl, bl, lens, overflow) && q < |t.order|
    ensures t.order[q] < t.elems + t.inner <= |dl| && t.order[q] < |t.pos| && t.pos[t.order[q]] == q
    ensures q <= 2 * t.inner && dl[t.order[q]] == Dad(t, q) < t.elems + t.inner
    ensures t.order[q] <= t.maxCode || t.order[q] >= t.elems
    ensures |lens| == t.maxCode + 1 && |bl| == MAXBITS + 1 && limit <= MAXBITS
  {
  }

  lemma PassStep(t: Shape, limit: nat, q: nat, dl: seq<nat>, bl: seq<nat>, lens: seq<nat>, overflow: nat, bits: nat)
    requires Passed(t, limit, q, dl, bl, lens, overflow) && q < |t.order| && bits == Clamped(limit, dl[Dad(t, q)])
    ensures t.elems <= Dad(t, q) && dl[Dad(t, q)] <= limit && 1 <= bits <= limit && t.order[q] < t.elems + t.inner
    ensures t.order[q] <= t.maxCode ==> lens[t.order[q]] == 0
    ensures Passed(t, limit, q + 1, dl[t.order[q] := bits], Counted(t, q, bl, bits), Given(t, q, lens, bits),
                   overflow + (if dl[Dad(t, q)] == limit then 1 else 0))
  {
    hide Sum, Pow2, Widths, Total, Count, Pending, Capped, CountsOf, Exact;
    if q <= 2 { assert Dad(t, q) == t.order[0]; }
    CapStep(t, limit, q, dl, bl, lens, overflow, bits);
    WeightStep(t, limit, q, dl, bl, lens, overflow, bits);
    ExactStep(t, limit, q, dl, overflow, bits);
    AssignedStep(t, limit, q, dl, lens, bits);
    if t.order[q] <= t.maxCode {
      CountsAdd(bl, lens, t.order[q], bits);
      TotalAdd(bl, bits, limit);
    }
  }

  /** The lengths of the symbols once all nodes have theirs. */
  ghost function LensOf(t: Shape, dl: seq<nat>): (r: seq<nat>)
    requires ShapeOk(t) && |dl| >= t.elems
  {
    seq(t.maxCode + 1, n requires 0 <= n <= t.maxCode => if t.pos[n] < |t.order| then dl[n] else 0)
  }

  /** After the first pass the Kraft sum is above one by exactly half the overflow. */
  lemma PassEnd(t: Shape, limit: nat, dl: seq<nat>, bl: seq<nat>, lens: seq<nat>, overflow: nat)
    requires Passed(t, limit, |t.order|, dl, bl, lens, overflow)
    ensures 2 * Widths(bl, limit) == 2 * Pow2(limit) + overflow
    ensures overflow > 0 ==> 2 * bl[limit] >= overflow + 2
    ensures lens == LensOf(t, dl) && Total(bl, limit) <= t.elems
    ensures overflow == 0 ==> Deep(t, dl, limit)
    ensures overflow > 0 ==> TooDeep(t, limit)
  {
    hide Sum, Pow2, Widths, Count, Total;
    TotalBound(bl, lens, limit);
    NothingPending(t, Half(limit), dl);
    NothingPending(t, Deepest(limit), dl);
  }

  lemma PowHalf(n: nat)
    requires n >= 1
    ensures Pow2(n) == 2 * Pow2(n - 1)
  {
  }

  lemma PowZero()
    ensures Pow2(0) == 1
  {
  }

  // ----- lengths by decreasing number of bits, from the last leaf to the first -----

  /** From position p on, a later leaf has no shorter code, and none is shorter than bits. */
  ghost predicate Falling(t: Shape, p: nat, dl: seq<nat>, bits: nat) {
    forall a, b :: 0 <= a <= t.maxCode && 0 <= b <= t.maxCode && a < |t.pos| && b < |t.pos| && a < |dl| && b < |dl| ==>
      p <= t.pos[a] <= t.pos[b] < |t.order| ==> bits <= dl[a] <= dl[b]
  }

  /** bits and n as in the last loops of gen_bitlen(); the leaves at positions from p on have their new
      lengths, which are recorded in now. */
  ghost predicate Remade(t: Shape, limit: nat, p: nat, dl: seq<nat>, bl: seq<nat>, now: seq<nat>, bits: nat, n: nat) {
    && ShapeOk(t) && p <= |t.order| && |dl| >= t.elems + t.inner && |now| == t.maxCode + 1
    && |bl| == MAXBITS + 1 && 1 <= bits <= limit <= MAXBITS && n <= bl[bits] && bl[0] == 0
    && Leaves(t, p) == Total(bl, bits - 1) + n
    && (forall m :: 0 <= m <= t.maxCode ==> now[m] == if p <= t.pos[m] < |t.order| then dl[m] else 0)
    && (forall m :: 0 <= m <= t.maxCode && t.pos[m] < |t.order| ==> 1 <= dl[m] <= limit)
    && (forall l :: 1 <= l <= MAXBITS ==> BlCount(now, l) == Dealt(bl, bits, n, l)) && Falling(t, p, dl, bits)
  }

  /** How many codes of length l have been dealt out. */
  ghost function Dealt(bl: seq<nat>, bits: nat, n: nat, l: nat): nat
    requires l < |bl| && bits < |bl| && n <= bl[bits]
  {
    if l > bits then bl[l] else if l == bits then bl[bits] - n else 0
  }

  lemma RemakeStart(t: Shape, limit: nat, dl: seq<nat>, bl: seq<nat>)
    requires ShapeOk(t) && |dl| >= t.elems + t.inner && |bl| == MAXBITS + 1 && 1 <= limit <= MAXBITS && bl[0] == 0
    requires Leaves(t, |t.order|) == Total(bl, limit) && forall l :: limit < l <= MAXBITS ==> bl[l] == 0
    requires forall m :: 0 <= m <= t.maxCode && t.pos[m] < |t.order| ==> 1 <= dl[m] <= limit
    ensures Remade(t, limit, |t.order|, dl, bl, seq(t.maxCode + 1, _ => 0), limit, bl[limit])
  {
    hide Count, Leaves;
    var now: seq<nat> := seq(t.maxCode + 1, _ => 0);
    forall l | 1 <= l <= MAXBITS ensures Count(now, |now|, l) == 0 { CountNone(now, |now|, l); }
  }

  /** An inner node is passed over. */
  lemma RemakeSkip(t: Shape, limit: nat, p: nat, dl: seq<nat>, bl: seq<nat>, now: seq<nat>, bits: nat, n: nat)
    requires Remade(t, limit, p, dl, bl, now, bits, n) && n > 0
    ensures p > 0
    ensures t.order[p - 1] > t.maxCode ==> Remade(t, limit, p - 1, dl, bl, now, bits, n)
  {
    hide BlCount, Dealt, Total;
  }

  /** A leaf gets its new length. */
  lemma RemakeLeaf(t: Shape, limit: nat, p: nat, dl: seq<nat>, bl: seq<nat>, now: seq<nat>, bits: nat, n: nat)
    requires Remade(t, limit, p, dl, bl, now, bits, n) && n > 0 && p > 0 && t.order[p - 1] <= t.maxCode
    ensures Remade(t, limit, p - 1, dl[t.order[p - 1] := bits], bl, now[t.order[p - 1] := bits], bits, n - 1)
  {
    hide Count, Total;
    var m := t.order[p - 1];
    var now' := now[m := bits];
    forall l | 1 <= l <= MAXBITS ensures BlCount(now', l) == Dealt(bl, bits, n - 1, l) {
      CountUpdate(now, |now|, m, bits, l);
      assert BlCount(now, l) == Dealt(bl, bits, n, l);
    }
  }

  lemma RemakeNext(t: Shape, limit: nat, p: nat, dl: seq<nat>, bl: seq<nat>, now: seq<nat>, bits: nat)
    requires Remade(t, limit, p, dl, bl, now, bits, 0)
    ensures bits > 1 ==> Remade(t, limit, p, dl, bl, now, bits - 1, bl[bits - 1])
    ensures bits == 1 ==> CountsOf(bl, LensOf(t, dl)) && Falling(t, 0, dl, 1)
  {
    hide Count, Leaves;
    forall l | 1 <= l <= MAXBITS && bits > 1 ensures BlCount(now, l) == Dealt(bl, bits - 1, bl[bits - 1], l) {
      assert BlCount(now, l) == Dealt(bl, bits, 0, l);
    }
    if bits == 1 {
      NoLeaves(t, p);
      assert now == LensOf(t, dl);
      forall l | 1 <= l <= MAXBITS ensures BlCount(now, l) == bl[l] { assert BlCount(now, l) == Dealt(bl, bits, 0, l); }
    }
  }

  lemma {:induction false} NoLeaves(t: Shape, p: nat)
    requires p <= |t.order| && Leaves(t, p) == 0
    ensures forall i :: 0 <= i < p ==> t.order[i] > t.maxCode
    decreases p
  {
    if p > 0 { NoLeaves(t, p - 1); }
  }
}
