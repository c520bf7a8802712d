/** The hash chains of zlib/deflate.c as values: head[], prev[] and what every link means.
    Positions are positions in the whole input stream, which do not change when the window
    slides; a table entry q stands for stream position base + q, and 0 is NIL. */
module HashChains {
  import opened Bits
  import opened Hash

  /** The hash of the three bytes at stream position p. */
  ghost function HashAt(bits: nat, stream: seq<byte>, p: nat): nat
    requires p + 2 < |stream|
  {
    Hash3(bits, stream[p], stream[p + 1], stream[p + 2])
  }

  /** Positions inserted in the dictionary: all below top, each with its three bytes known. */
  ghost predicate Inserted(stream: seq<byte>, ins: set<nat>, top: nat) {
    forall p :: p in ins ==> p < top && p + 2 < |stream|
  }

  /** q was inserted and its three bytes have the hash h. */
  ghost predicate Bears(bits: nat, stream: seq<byte>, ins: set<nat>, h: nat, q: nat) {
    q in ins && q + 2 < |stream| && HashAt(bits, stream, q) == h
  }

  /** The latest position before p, and above floor, that bears the hash; floor if there is none. */
  ghost function Prior(bits: nat, stream: seq<byte>, ins: set<nat>, floor: nat, h: nat, p: nat): (q: nat)
    ensures q >= floor && (q > floor ==> q < p && Bears(bits, stream, ins, h, q))
    ensures forall r: nat :: q < r < p ==> !Bears(bits, stream, ins, h, r)
  {
    if p <= floor + 1 then floor
    else if Bears(bits, stream, ins, h, p - 1) then p - 1
    else Prior(bits, stream, ins, floor, h, p - 1)
  }

  /** There is only one such position. */
  lemma PriorIs(bits: nat, stream: seq<byte>, ins: set<nat>, floor: nat, h: nat, p: nat, q: nat)
    requires q >= floor && (q > floor ==> q < p && Bears(bits, stream, ins, h, q))
    requires forall r: nat :: q < r < p ==> !Bears(bits, stream, ins, h, r)
    ensures Prior(bits, stream, ins, floor, h, p) == q
  {
    hide Prior, Bears;
  }

  /** The positions that bear a hash are all that matters. */
  lemma PriorSame(bits: nat, stream: seq<byte>, ins: set<nat>, stream': seq<byte>, ins': set<nat>, floor: nat, h: nat,
                  p: nat, p': nat)
    requires p <= p' && forall r: nat :: r < p ==> Bears(bits, stream', ins', h, r) == Bears(bits, stream, ins, h, r)
    requires forall r: nat :: p <= r < p' ==> !Bears(bits, stream', ins', h, r)
    ensures Prior(bits, stream', ins', floor, h, p') == Prior(bits, stream, ins, floor, h, p)
  {
    hide Prior, Bears;
    PriorIs(bits, stream', ins', floor, h, p', Prior(bits, stream, ins, floor, h, p));
  }

  /** From a higher floor. */
  lemma PriorFloor(bits: nat, stream: seq<byte>, ins: set<nat>, floor: nat, floor': nat, h: nat, p: nat)
    requires floor <= floor'
    ensures var q := Prior(bits, stream, ins, floor, h, p);
      Prior(bits, stream, ins, floor', h, p) == if q >= floor' then q else floor'
  {
    hide Prior, Bears;
    var q := Prior(bits, stream, ins, floor, h, p);
    PriorIs(bits, stream, ins, floor', h, p, if q >= floor' then q else floor');
  }

  /** Every head is the latest position with that hash, or NIL. */
  ghost predicate HeadsOk(bits: nat, stream: seq<byte>, base: nat, head: seq<nat>, ins: set<nat>, top: nat) {
    && |head| == Pow2(bits)
    && forall h: nat :: h < |head| ==> base + head[h] == Prior(bits, stream, ins, base, h, top)
  }

  /** q leads from p to the latest position before it with the same hash, or is NIL. */
  ghost predicate LinkOk(bits: nat, stream: seq<byte>, base: nat, ins: set<nat>, p: nat, q: nat) {
    p + 2 < |stream| && base + q == Prior(bits, stream, ins, base, HashAt(bits, stream, p), p)
  }

  /** The slot of a position in prev[]: `str & w_mask`. */
  function Slot(wbits: nat, p: nat): (i: nat)
    ensures i < Pow2(wbits)
  {
    Low(p, wbits)
  }

  /** prev[] entries of positions whose slot has not been taken over by a later one. */
  ghost predicate PrevsOk(bits: nat, wbits: nat, stream: seq<byte>, base: nat, prev: seq<nat>, ins: set<nat>,
                          top: nat) {
    && |prev| == Pow2(wbits) && Low(base, wbits) == 0
    && forall p :: p in ins && top <= p + |prev| ==> LinkOk(bits, stream, base, ins, p, prev[Slot(wbits, p)])
  }

  ghost predicate Chains(bits: nat, wbits: nat, stream: seq<byte>, base: nat, head: seq<nat>, prev: seq<nat>,
                         ins: set<nat>, top: nat) {
    && HashSize(bits) && Inserted(stream, ins, top)
    && HeadsOk(bits, stream, base, head, ins, top) && PrevsOk(bits, wbits, stream, base, prev, ins, top)
  }

  /** Chains do not depend on later input. */
  lemma MoreInput(bits: nat, wbits: nat, stream: seq<byte>, more: seq<byte>, base: nat, head: seq<nat>, prev: seq<nat>,
                  ins: set<nat>, top: nat)
    requires Chains(bits, wbits, stream, base, head, prev, ins, top)
    ensures Chains(bits, wbits, stream + more, base, head, prev, ins, top)
  {
    hide Hash3, Prior, Slot, Pow2, Low;
    var stream' := stream + more;
    forall p | p in ins ensures HashAt(bits, stream', p) == HashAt(bits, stream, p) { }
    forall h: nat, p: nat ensures Prior(bits, stream', ins, base, h, p) == Prior(bits, stream, ins, base, h, p) {
      PriorSame(bits, stream, ins, stream', ins, base, h, p, p);
    }
    forall p | p in ins && top <= p + |prev| ensures LinkOk(bits, stream', base, ins, p, prev[Slot(wbits, p)]) {
      assert LinkOk(bits, stream, base, ins, p, prev[Slot(wbits, p)]);
    }
  }

  /** Inserting x changes nothing before it. */
  lemma PriorInsert(bits: nat, stream: seq<byte>, ins: set<nat>, floor: nat, h: nat, top: nat, x: nat)
    requires Inserted(stream, ins, top) && top <= x && x + 2 < |stream|
    ensures forall p: nat :: p <= x ==>
      Prior(bits, stream, ins + {x}, floor, h, p) == Prior(bits, stream, ins, floor, h, p)
    ensures Prior(bits, stream, ins + {x}, floor, h, x) == Prior(bits, stream, ins, floor, h, top)
    ensures Prior(bits, stream, ins + {x}, floor, h, x + 1) ==
      if HashAt(bits, stream, x) == h && x > floor then x else Prior(bits, stream, ins, floor, h, top)
  {
    hide Prior, HashAt;
    var ins' := ins + {x};
    forall p: nat | p <= x
      ensures Prior(bits, stream, ins', floor, h, p) == Prior(bits, stream, ins, floor, h, p)
    {
      PriorSame(bits, stream, ins, stream, ins', floor, h, p, p);
    }
    PriorSame(bits, stream, ins, stream, ins', floor, h, top, x);
    PriorNext(bits, stream, ins', floor, h, x);
  }

  lemma PriorNext(bits: nat, stream: seq<byte>, ins: set<nat>, floor: nat, h: nat, x: nat)
    ensures Prior(bits, stream, ins, floor, h, x + 1) ==
      if Bears(bits, stream, ins, h, x) && x > floor then x else Prior(bits, stream, ins, floor, h, x)
  {
    hide HashAt;
  }

  lemma InsertHeads(bits: nat, stream: seq<byte>, base: nat, head: seq<nat>, ins: set<nat>, top: nat, p: nat, h: nat)
    requires HeadsOk(bits, stream, base, head, ins, top) && Inserted(stream, ins, top) && top <= base + p
    requires base + p + 2 < |stream| && h < |head| && HashAt(bits, stream, base + p) == h
    ensures HeadsOk(bits, stream, base, head[h := p], ins + {base + p}, base + p + 1)
  {
    hide Pow2, HashAt, Prior;
    var head', ins' := head[h := p], ins + {base + p};
    forall g: nat | g < |head'| ensures base + head'[g] == Prior(bits, stream, ins', base, g, base + p + 1) {
      PriorInsert(bits, stream, ins, base, g, top, base + p);
      if g == h && p == 0 { PriorLow(bits, stream, ins, base, g, top); }
    }
  }

  lemma PriorLow(bits: nat, stream: seq<byte>, ins: set<nat>, floor: nat, h: nat, p: nat)
    ensures p <= floor + 1 ==> Prior(bits, stream, ins, floor, h, p) == floor
  {
  }

  lemma InsertPrevs(bits: nat, wbits: nat, stream: seq<byte>, base: nat, head: seq<nat>, prev: seq<nat>, ins: set<nat>,
                    top: nat, p: nat, h: nat)
    requires HeadsOk(bits, stream, base, head, ins, top) && PrevsOk(bits, wbits, stream, base, prev, ins, top)
    requires Inserted(stream, ins, top)
    requires top <= base + p && base + p + 2 < |stream| && h < |head| && HashAt(bits, stream, base + p) == h
    ensures Slot(wbits, p) < |prev|
    ensures PrevsOk(bits, wbits, stream, base, prev[Slot(wbits, p) := head[h]], ins + {base + p}, base + p + 1)
  {
    hide Pow2, HashAt, Slot, Low, Prior;
    var ins', prev', w := ins + {base + p}, prev[Slot(wbits, p) := head[h]], |prev|;
    SameSlot(wbits, base, p);
    forall q | q in ins' && base + p + 1 <= q + w ensures LinkOk(bits, stream, base, ins', q, prev'[Slot(wbits, q)]) {
      PriorInsert(bits, stream, ins, base, HashAt(bits, stream, q), top, base + p);
      if q == base + p {
        assert prev'[Slot(wbits, q)] == head[h];
      } else {
        OtherSlot(wbits, q, base + p);
        assert prev'[Slot(wbits, q)] == prev[Slot(wbits, q)];
        assert LinkOk(bits, stream, base, ins, q, prev[Slot(wbits, q)]);
      }
    }
  }

  /** INSERT_STRING for position p with hash h: the old head becomes its link. */
  lemma InsertKeeps(bits: nat, wbits: nat, stream: seq<byte>, base: nat, head: seq<nat>, prev: seq<nat>, ins: set<nat>,
                    top: nat, p: nat, h: nat)
    requires Chains(bits, wbits, stream, base, head, prev, ins, top)
    requires top <= base + p && base + p + 2 < |stream| && h < |head| && HashAt(bits, stream, base + p) == h
    ensures Slot(wbits, p) < |prev|
    ensures Chains(bits, wbits, stream, base, head[h := p], prev[Slot(wbits, p) := head[h]], ins + {base + p},
      base + p + 1)
  {
    hide HashAt, Slot, HeadsOk, PrevsOk;
    InsertHeads(bits, stream, base, head, ins, top, p, h);
    InsertPrevs(bits, wbits, stream, base, head, prev, ins, top, p, h);
  }

  /** Sliding by whole windows does not move slots. */
  lemma SameSlot(wbits: nat, base: nat, p: nat)
    requires Low(base, wbits) == 0
    ensures Slot(wbits, base + p) == Slot(wbits, p)
  {
    hide Low, Shr, Shl, Pow2;
    Split(base, wbits);
    Split(p, wbits);
    var k := Shr(base, wbits);
    ShlAdd(k, Shr(p, wbits), wbits);
    SplitUnique(base + p, wbits, k + Shr(p, wbits), Low(p, wbits));
  }

  /** Two positions less than a window apart use different slots. */
  lemma OtherSlot(wbits: nat, q: nat, p: nat)
    requires q < p < q + Pow2(wbits)
    ensures Slot(wbits, q) != Slot(wbits, p)
  {
    hide Low, Shr, Shl, Pow2;
    Split(q, wbits);
    Split(p, wbits);
    if Shr(q, wbits) < Shr(p, wbits) {
      ShlLess(Shr(q, wbits), Shr(p, wbits), wbits);
    } else {
      ShlMono(Shr(p, wbits), Shr(q, wbits), wbits);
    }
  }

  /** slide_hash on one table: entries move down by the window size, older ones become NIL. */
  function Slid(t: seq<nat>, w: nat): (r: seq<nat>)
    ensures |r| == |t| && forall i :: 0 <= i < |t| ==> r[i] == if t[i] >= w then t[i] - w else 0
  {
    seq(|t|, i requires 0 <= i < |t| => if t[i] >= w then t[i] - w else 0)
  }

  /** Sliding keeps every chain: the same stream positions are linked. */
  lemma SlideKeeps(bits: nat, wbits: nat, stream: seq<byte>, base: nat, head: seq<nat>, prev: seq<nat>, ins: set<nat>,
                   top: nat)
    requires Chains(bits, wbits, stream, base, head, prev, ins, top)
    ensures var w := Pow2(wbits);
      Chains(bits, wbits, stream, base + w, Slid(head, w), Slid(prev, w), ins, top)
  {
    hide Hash3, HashAt, Slot, Low, Prior;
    var w := Pow2(wbits);
    NextBase(wbits, base);
    forall h: nat, p: nat
      ensures Prior(bits, stream, ins, base + w, h, p) ==
        var q := Prior(bits, stream, ins, base, h, p); if q >= base + w then q else base + w
    {
      PriorFloor(bits, stream, ins, base, base + w, h, p);
    }
    forall p | p in ins && top <= p + |prev|
      ensures LinkOk(bits, stream, base + w, ins, p, Slid(prev, w)[Slot(wbits, p)])
    {
      assert LinkOk(bits, stream, base, ins, p, prev[Slot(wbits, p)]);
    }
  }

  lemma NextBase(wbits: nat, base: nat)
    requires Low(base, wbits) == 0
    ensures Low(base + Pow2(wbits), wbits) == 0
  {
    hide Low, Shr, Shl, Pow2;
    Split(base, wbits);
    ShlAdd(Shr(base, wbits), 1, wbits);
    ShlOne(wbits);
    SplitUnique(base + Pow2(wbits), wbits, Shr(base, wbits) + 1, 0);
  }

  /** Following a link from a recent position leads to the latest earlier string with the same hash. */
  lemma Follow(bits: nat, wbits: nat, stream: seq<byte>, base: nat, head: seq<nat>, prev: seq<nat>, ins: set<nat>,
               top: nat, c: nat)
    requires Chains(bits, wbits, stream, base, head, prev, ins, top)
    requires (base + c) in ins && top <= base + c + Pow2(wbits)
    ensures Slot(wbits, c) < |prev|
    ensures LinkOk(bits, stream, base, ins, base + c, prev[Slot(wbits, c)])
  {
    hide Hash3, HashAt, Slot, Low, Prior;
    SameSlot(wbits, base, c);
  }
}
