/** What deflate_slow() of zlib/deflate.c decides, over the input alone: which earlier positions it compares with, which
    match it finds at a position, and when a match is taken or put off. */
module LazyMatch {
  import opened Bits
  import opened HashChains
  import opened Block
  import opened Lz77

  /** hash_bits, w_size, good_match, max_lazy_match, nice_match, max_chain_length, and whether the strategy is
      Z_FILTERED. */
  datatype Tuning = Tuning(hashBits: nat, window: nat, good: nat, lazy: nat, nice: int, chain: nat, filtered: bool)

  /** One look for a match: how much input was there, the start of the window, the positions in the dictionary, the
      length of the match that waits at the position before, and what was found. */
  datatype Look = Look(seen: nat, floor: nat, dict: set<nat>, prev: nat, len: nat, dist: int)

  // ----- candidates -----

  /** The i-th position that is compared with p: the latest earlier ones in the dictionary with the same hash, in
      turn. */
  ghost function Cand(t: Tuning, s: seq<byte>, k: Look, p: nat, i: nat): (q: nat)
    requires p + 2 < |s|
    ensures q >= k.floor && (q > k.floor ==> q < p && Bears(t.hashBits, s, k.dict, HashAt(t.hashBits, s, p), q))
  {
    var h := HashAt(t.hashBits, s, p);
    Prior(t.hashBits, s, k.dict, k.floor, h, if i == 0 then p else Cand(t, s, k, p, i - 1))
  }

  /** How many are compared at most: a quarter if the waiting match is good, and the counter is decremented in 32 bits
      before it is compared with zero. */
  function Budget(t: Tuning, prev: nat): (n: nat)
    ensures n >= 1
  {
    var chain := if prev >= t.good then t.chain / 4 else t.chain;
    if chain == 0 then 0x1_0000_0000 else chain
  }

  /** The i-th candidate is in reach: the first up to w_size - 262 back, the others nearer. */
  ghost predicate Near(t: Tuning, s: seq<byte>, k: Look, p: nat, i: nat)
    requires p + 2 < |s|
  {
    var q := Cand(t, s, k, p, i);
    q > k.floor && if i == 0 then p - q <= t.window - 262 else p - q < t.window - 262
  }

  ghost predicate AllNear(t: Tuning, s: seq<byte>, k: Look, p: nat, i: nat)
    requires p + 2 < |s|
  {
    forall j: nat :: j <= i ==> Near(t, s, k, p, j)
  }

  ghost predicate Reached(t: Tuning, s: seq<byte>, k: Look, p: nat, i: nat) {
    p + 2 < |s| && i < Budget(t, k.prev) && AllNear(t, s, k, p, i)
  }

  /** How long p agrees with the i-th candidate. */
  ghost function Length(t: Tuning, s: seq<byte>, k: Look, p: nat, i: nat): nat
    requires p + 2 < |s|
  {
    Common(s, p, Cand(t, s, k, p, i), 0)
  }

  /** A length is the greatest up to 258 and up to the end of the input for which the bytes are equal. */
  lemma {:induction false} LengthMeaning(s: seq<byte>, p: nat, q: nat, k: nat, n: nat)
    requires q < p && k <= n <= 258 && p + n <= |s|
    ensures n <= Common(s, p, q, k) <==> s[p + k..p + n] == s[q + k..q + n]
    ensures p + Common(s, p, q, k) <= |s|
    decreases 258 - k
  {
    if k < n {
      LengthMeaning(s, p, q, k + 1, n);
      assert s[p + k..p + n] == [s[p + k]] + s[p + k + 1..p + n] && s[q + k..q + n] == [s[q + k]] + s[q + k + 1..q + n];
    } else if k < 258 && p + k < |s| {
      LengthMeaning(s, p, q, k + 1, k + 1);
    }
  }

  /** nice_match, at most what input there is, compared as an unsigned number. */
  function Nice(t: Tuning, left: nat): int { if t.nice < 0 || t.nice > left then left else t.nice }

  /** What longest_match() finds: the first of the longest candidates above the waiting length, or the first nice
      one. */
  ghost predicate Found(t: Tuning, s: seq<byte>, k: Look, p: nat, i: nat) {
    && Reached(t, s, k, p, i) && Length(t, s, k, p, i) > k.prev
    && (forall j: nat :: j < i ==> Length(t, s, k, p, j) < Length(t, s, k, p, i))
    && (forall j: nat :: j < i ==> Length(t, s, k, p, j) <= k.prev || Length(t, s, k, p, j) < Nice(t, |s| - p))
    && (Length(t, s, k, p, i) >= Nice(t, |s| - p) || NoLonger(t, s, k, p, Length(t, s, k, p, i)))
  }

  /** No candidate in reach is longer. */
  ghost predicate NoLonger(t: Tuning, s: seq<byte>, k: Look, p: nat, len: nat) {
    forall j: nat :: Reached(t, s, k, p, j) ==> Length(t, s, k, p, j) <= len
  }

  /** Short matches are dropped if they are filtered or, at three bytes, too far back. */
  predicate Dropped(t: Tuning, len: nat, dist: int) {
    len <= 5 && (t.filtered || (len == 3 && dist > 4096))
  }

  /** The i-th candidate is what is found, and it is kept. */
  ghost predicate Kept(t: Tuning, s: seq<byte>, k: Look, p: nat, i: nat) {
    && Found(t, s, k, p, i) && k.len == Length(t, s, k, p, i) && k.dist == p - Cand(t, s, k, p, i)
    && !Dropped(t, k.len, k.dist)
  }

  ghost predicate Discarded(t: Tuning, s: seq<byte>, k: Look, p: nat, i: nat) {
    Found(t, s, k, p, i) && Dropped(t, Length(t, s, k, p, i), p - Cand(t, s, k, p, i))
  }

  ghost predicate Finds(t: Tuning, s: seq<byte>, k: Look, p: nat) { exists i: nat :: Kept(t, s, k, p, i) }

  ghost predicate Drops(t: Tuning, s: seq<byte>, k: Look, p: nat) { exists i: nat :: Discarded(t, s, k, p, i) }

  /** The outcome of a look: a length above the waiting one is what there is to find; otherwise there was no need to
      look, nothing longer to find, or what was found is dropped. */
  ghost predicate Sought(t: Tuning, s: seq<byte>, k: Look, p: nat) {
    && k.prev >= 2 && k.len >= 2
    && (k.len > k.prev ==> k.prev < t.lazy && Finds(t, s, k, p))
    && (k.len <= k.prev ==> k.prev >= t.lazy || NoLonger(t, s, k, p, k.prev) || Drops(t, s, k, p))
  }

  /** Without a first candidate there is none. */
  lemma NoneNear(t: Tuning, s: seq<byte>, k: Look, p: nat, len: nat)
    requires p + 2 < |s| ==> !Near(t, s, k, p, 0)
    ensures NoLonger(t, s, k, p, len)
  {
    hide Near, Length, AllNear;
    if p + 2 < |s| { FirstNear(t, s, k, p); }
  }

  lemma FirstNear(t: Tuning, s: seq<byte>, k: Look, p: nat)
    requires p + 2 < |s|
    ensures forall j: nat :: AllNear(t, s, k, p, j) ==> Near(t, s, k, p, 0)
  {
    hide Near;
  }

  lemma FoundOnce(t: Tuning, s: seq<byte>, k: Look, k': Look, p: nat, i: nat, j: nat)
    requires k'.floor == k.floor && k'.dict == k.dict && k'.prev == k.prev
    requires Found(t, s, k, p, i) && Found(t, s, k', p, j)
    ensures i == j && Cand(t, s, k', p, j) == Cand(t, s, k, p, i)
  {
    SameLook(t, s, k, k', p);
  }

  lemma SameLook(t: Tuning, s: seq<byte>, k: Look, k': Look, p: nat)
    requires k'.floor == k.floor && k'.dict == k.dict && k'.prev == k.prev && p + 2 < |s|
    ensures forall i: nat :: Cand(t, s, k', p, i) == Cand(t, s, k, p, i)
    ensures forall i: nat :: Reached(t, s, k', p, i) == Reached(t, s, k, p, i)
  {
    hide Cand;
    forall i: nat ensures Cand(t, s, k', p, i) == Cand(t, s, k, p, i) { SameCand(t, s, k, k', p, i); }
    assert forall i: nat :: Near(t, s, k', p, i) == Near(t, s, k, p, i);
  }

  lemma {:induction false} SameCand(t: Tuning, s: seq<byte>, k: Look, k': Look, p: nat, i: nat)
    requires k'.floor == k.floor && k'.dict == k.dict && k'.prev == k.prev && p + 2 < |s|
    ensures Cand(t, s, k', p, i) == Cand(t, s, k, p, i)
  {
    hide Prior, Bears, HashAt;
    if i > 0 { SameCand(t, s, k, k', p, i - 1); }
  }

  /** The outcome is determined by the input, the dictionary, the window and the waiting length. */
  lemma SoughtOnce(t: Tuning, s: seq<byte>, k: Look, k': Look, p: nat)
    requires k'.floor == k.floor && k'.dict == k.dict && k'.prev == k.prev
    requires Sought(t, s, k, p) && Sought(t, s, k', p) && k.len > k.prev
    ensures k'.len == k.len && k'.dist == k.dist
  {
    hide Cand, Reached, Found, NoLonger;
    var i: nat :| Kept(t, s, k, p, i);
    Outlasts(t, s, k, p, i);
    SameLook(t, s, k, k', p);
    if k'.len > k'.prev {
      var j: nat :| Kept(t, s, k', p, j);
      FoundOnce(t, s, k, k', p, i, j);
    } else {
      NoneLonger(t, s, k, k', p, i);
      var j: nat :| Discarded(t, s, k', p, j);
      FoundOnce(t, s, k, k', p, i, j);
    }
  }

  lemma Outlasts(t: Tuning, s: seq<byte>, k: Look, p: nat, i: nat)
    requires Found(t, s, k, p, i)
    ensures p + 2 < |s| && !NoLonger(t, s, k, p, k.prev)
  {
  }

  lemma NoneLonger(t: Tuning, s: seq<byte>, k: Look, k': Look, p: nat, i: nat)
    requires k'.floor == k.floor && k'.dict == k.dict && k'.prev == k.prev && Found(t, s, k, p, i)
    ensures !NoLonger(t, s, k', p, k'.prev)
  {
    SameLook(t, s, k, k', p);
    assert Reached(t, s, k', p, i);
  }

  // ----- the search in the window -----

  /** The window, its place in the stream, the hash chains, and strstart. */
  datatype View = View(w: seq<byte>, wbits: nat, stream: seq<byte>, base: nat, head: seq<nat>, prev: seq<nat>,
                       ins: set<nat>, s: nat)

  /** The view is that of a look, and c is the first candidate. */
  ghost predicate Sighted(t: Tuning, v: View, k: Look, c: nat) {
    && t.window == Pow2(v.wbits) == |v.prev| && t.window >= 512 && |v.stream| >= v.base + v.s + 3
    && Loaded(v.w, v.stream, v.base, |v.stream| - v.base)
    && Chains(t.hashBits, v.wbits, v.stream, v.base, v.head, v.prev, v.ins, v.base + v.s + 1)
    && k.seen == |v.stream| && k.floor == v.base && k.dict == v.ins
    && v.base + c == Cand(t, v.stream, k, v.base + v.s, 0)
  }

  /** The entries of the chain are the candidates. */
  lemma {:induction false} NthCand(t: Tuning, v: View, k: Look, c: nat, i: nat)
    requires Sighted(t, v, k, c) && (i > 0 ==> AllNear(t, v.stream, k, v.base + v.s, i - 1))
    ensures v.base + Nth(v.prev, v.wbits, c, i) == Cand(t, v.stream, k, v.base + v.s, i)
    decreases i
  {
    hide Pow2, Loaded, Slot, HashAt, Prior, PrevsOk, HeadsOk, Inserted;
    if i > 0 {
      NthCand(t, v, k, c, i - 1);
      var q := Nth(v.prev, v.wbits, c, i - 1);
      assert Near(t, v.stream, k, v.base + v.s, i - 1);
      NthNext(v.prev, v.wbits, c, i - 1);
      Follow(t.hashBits, v.wbits, v.stream, v.base, v.head, v.prev, v.ins, v.base + v.s + 1, q);
    }
  }

  /** limit: how far back the chain is followed. */
  function Limit(t: Tuning, s: nat): int { if s > t.window - 262 then s - (t.window - 262) else 0 }

  ghost predicate AboveLimit(v: View, c: nat, limit: int, i: nat)
    requires |v.prev| == Pow2(v.wbits)
  {
    forall j: nat :: 1 <= j <= i ==> Nth(v.prev, v.wbits, c, j) > limit
  }

  /** Following the chain down to the limit reaches exactly the candidates that are near. */
  lemma {:induction false} ChainNear(t: Tuning, v: View, k: Look, c: nat, i: nat)
    requires Sighted(t, v, k, c) && Near(t, v.stream, k, v.base + v.s, 0)
    ensures AboveLimit(v, c, Limit(t, v.s), i) <==> AllNear(t, v.stream, k, v.base + v.s, i)
    decreases i
  {
    hide Sighted, Nth, Cand, HashAt, Pow2, Bears;
    SameFloor(t, v, k, c);
    if i > 0 {
      ChainNear(t, v, k, c, i - 1);
      if AllNear(t, v.stream, k, v.base + v.s, i - 1) {
        NthCand(t, v, k, c, i);
        assert Near(t, v.stream, k, v.base + v.s, i) <==> Nth(v.prev, v.wbits, c, i) > Limit(t, v.s);
      }
    }
  }

  lemma SameFloor(t: Tuning, v: View, k: Look, c: nat)
    requires Sighted(t, v, k, c)
    ensures k.floor == v.base && |v.stream| >= v.base + v.s + 3 && t.window >= 512 && |v.prev| == Pow2(v.wbits)
  {
  }
  /** The lengths measured in the window, cut at the end of the input, are those of the candidates. */
  lemma LengthIs(t: Tuning, v: View, k: Look, c: nat, i: nat)
    requires Sighted(t, v, k, c) && AllNear(t, v.stream, k, v.base + v.s, i)
    ensures var n, left := Common(v.w, v.s, Nth(v.prev, v.wbits, c, i), 0), |v.stream| - (v.base + v.s);
      Length(t, v.stream, k, v.base + v.s, i) == if n <= left then n else left
  {
    hide Cand, Nth, Pow2, Common, HashAt;
    assert Near(t, v.stream, k, v.base + v.s, i);
    NthCand(t, v, k, c, i);
    CommonInStream(v.w, v.stream, v.base, |v.stream| - v.base, v.s, Nth(v.prev, v.wbits, c, i), 0);
  }

  /** The search along the chain from c. */
  ghost function Searched(t: Tuning, v: View, k: Look, c: nat, best: Best): Best
    requires Sighted(t, v, k, c)
  {
    Search(v.w, v.prev, v.wbits, v.s, Limit(t, v.s), Nice(t, |v.stream| - (v.base + v.s)), c, Budget(t, k.prev), best)
  }

  function Cut(len: nat, left: nat): nat { if len <= left then len else left }

  lemma LongestOf(t: Tuning, v: View, k: Look, c: nat, best: Best, j: nat)
    requires Sighted(t, v, k, c) && best.len == k.prev && Reached(t, v.stream, k, v.base + v.s, j)
    ensures var left, r := |v.stream| - (v.base + v.s), Searched(t, v, k, c, best);
      || (r.len > k.prev && r.len >= Nice(t, left))
      || Length(t, v.stream, k, v.base + v.s, j) <= Cut(r.len, left)
  {
    hide Cand, Nth, Pow2, Common, HashAt, Loaded, Search, Chains;
    var left := |v.stream| - (v.base + v.s);
    assert Near(t, v.stream, k, v.base + v.s, 0);
    ChainNear(t, v, k, c, j);
    LengthIs(t, v, k, c, j);
    SearchLongest(v.w, v.prev, v.wbits, v.s, Limit(t, v.s), Nice(t, left), c, Budget(t, k.prev), best, j);
  }

  lemma PassedBy(t: Tuning, v: View, k: Look, c: nat, len: nat, j: nat)
    requires Sighted(t, v, k, c) && AllNear(t, v.stream, k, v.base + v.s, j)
    requires var left := |v.stream| - (v.base + v.s);
      Passed(v.w, v.s, Nice(t, left), Nth(v.prev, v.wbits, c, j), k.prev, len) && k.prev < Cut(len, left)
    ensures var left, n := |v.stream| - (v.base + v.s), Length(t, v.stream, k, v.base + v.s, j);
      n < Cut(len, left) && (n <= k.prev || n < Nice(t, left))
  {
    hide Cand, Nth, Pow2, Common, HashAt, Loaded, Chains;
    LengthIs(t, v, k, c, j);
  }

  lemma NearBefore(t: Tuning, s: seq<byte>, k: Look, p: nat, i: nat, j: nat)
    requires p + 2 < |s| && j <= i && AllNear(t, s, k, p, i)
    ensures AllNear(t, s, k, p, j)
  {
    hide Near;
  }

  /** What the search along the chain finds, if it is longer than what waits. */
  lemma SearchFinds(t: Tuning, v: View, k: Look, c: nat, best: Best) returns (i: nat)
    requires Sighted(t, v, k, c) && Near(t, v.stream, k, v.base + v.s, 0) && best.len == k.prev
    requires Cut(Searched(t, v, k, c, best).len, |v.stream| - (v.base + v.s)) > k.prev
    ensures var r, p := Searched(t, v, k, c, best), v.base + v.s;
      && Found(t, v.stream, k, p, i) && v.base + r.start == Cand(t, v.stream, k, p, i)
      && Cut(r.len, |v.stream| - p) == Length(t, v.stream, k, p, i)
  {
    hide Cand, Nth, Pow2, Common, HashAt, Loaded, Search, Chains, Near, AllNear, Length;
    var p, r := v.base + v.s, Searched(t, v, k, c, best);
    var left := |v.stream| - p;
    i := SearchCandidate(v.w, v.prev, v.wbits, v.s, Limit(t, v.s), Nice(t, left), c, Budget(t, k.prev), best);
    ChainNear(t, v, k, c, i);
    NthAt(t, v, k, c, i);
    LengthIs(t, v, k, c, i);
    forall j: nat | j < i
      ensures Length(t, v.stream, k, p, j) < Length(t, v.stream, k, p, i)
      ensures Length(t, v.stream, k, p, j) <= k.prev || Length(t, v.stream, k, p, j) < Nice(t, left)
    {
      NearBefore(t, v.stream, k, p, i, j);
      PassedBy(t, v, k, c, r.len, j);
    }
    forall j: nat | Reached(t, v.stream, k, p, j)
      ensures r.len >= Nice(t, left) || Length(t, v.stream, k, p, j) <= Length(t, v.stream, k, p, i)
    {
      LongestOf(t, v, k, c, best, j);
    }
  }

  lemma NthAt(t: Tuning, v: View, k: Look, c: nat, i: nat)
    requires Sighted(t, v, k, c) && AllNear(t, v.stream, k, v.base + v.s, i)
    ensures v.base + Nth(v.prev, v.wbits, c, i) == Cand(t, v.stream, k, v.base + v.s, i)
  {
    hide Sighted, Nth, Cand, Near;
    SameFloor(t, v, k, c);
    if i > 0 { NearBefore(t, v.stream, k, v.base + v.s, i, i - 1); }
    NthCand(t, v, k, c, i);
  }

  /** Otherwise there is nothing longer to find. */
  lemma SearchFails(t: Tuning, v: View, k: Look, c: nat, best: Best)
    requires Sighted(t, v, k, c) && best.len == k.prev
    requires Cut(Searched(t, v, k, c, best).len, |v.stream| - (v.base + v.s)) <= k.prev
    ensures NoLonger(t, v.stream, k, v.base + v.s, k.prev)
  {
    hide Cand, Nth, Pow2, Common, HashAt, Loaded, Search, Chains, Near, AllNear;
    var p := v.base + v.s;
    forall j: nat | Reached(t, v.stream, k, p, j) ensures Length(t, v.stream, k, p, j) <= k.prev {
      LongestOf(t, v, k, c, best, j);
      AtMostLeft(t, v, k, c, j);
    }
  }

  lemma AtMostLeft(t: Tuning, v: View, k: Look, c: nat, j: nat)
    requires Sighted(t, v, k, c) && Reached(t, v.stream, k, v.base + v.s, j)
    ensures Length(t, v.stream, k, v.base + v.s, j) <= |v.stream| - (v.base + v.s)
  {
    hide Cand, Nth, Pow2, Common, HashAt, Loaded, Chains;
    LengthIs(t, v, k, c, j);
  }

  // ----- symbols -----

  /** What the looks say about a symbol at position p: a match is taken if the next position has no longer one, and
      then the rest of it is passed over; a byte stands alone if there is no match of three bytes, or a longer one at
      the next position. */
  ghost predicate Chosen(looks: map<nat, Look>, sym: Sym, p: int) {
    && p >= 0 && p in looks
    && match sym
       case Lit(_) => looks[p].len < 3 || (p + 1 in looks && looks[p + 1].len > looks[p].len)
       case Pair(dist, lc) =>
         && looks[p].len == lc + 3 && looks[p].dist == dist && p + 1 in looks && looks[p + 1].len <= looks[p].len
         && forall q: nat :: p + 1 < q < p + lc + 3 ==> q !in looks
  }

  /** How many bytes a symbol stands for. */
  function Span(sym: Sym): nat { if sym.Lit? then 1 else sym.lc + 3 }

  /** All symbols, the last of which ends at n, are chosen so. */
  ghost predicate Lazily(looks: map<nat, Look>, syms: seq<Sym>, n: int)
    decreases |syms|
  {
    if syms == [] then n == 0
    else
      var sym, p := syms[|syms| - 1], n - Span(syms[|syms| - 1]);
      Chosen(looks, sym, p) && Lazily(looks, syms[..|syms| - 1], p)
  }

  /** The looks so far, at positions before `at`: each is what there was to find with the input seen, it knew the length
      found at the position before, and the window reached back far enough. */
  ghost predicate Watched(t: Tuning, stream: seq<byte>, looks: map<nat, Look>) {
    forall p: nat :: p in looks ==> LookedAt(t, stream, looks, p)
  }

  ghost predicate LookedAt(t: Tuning, stream: seq<byte>, looks: map<nat, Look>, p: nat)
    requires p in looks
  {
    var k := looks[p];
    && p < k.seen <= |stream| && Sought(t, stream[..k.seen], k, p)
    && k.prev == Waiting(looks, p) && (k.floor == 0 || k.floor + (t.window - 262) <= p)
  }

  /** The length found at the position before, if it was looked at. */
  ghost function Waiting(looks: map<nat, Look>, p: int): nat {
    if p >= 1 && p - 1 in looks then looks[p - 1].len else 2
  }

  ghost predicate Below(looks: map<nat, Look>, at: int) {
    forall p: nat :: p in looks ==> p < at
  }

  /** Every look saw 262 bytes, or all there were at one of these ends of the input. */
  ghost predicate Thorough(looks: map<nat, Look>, ends: set<nat>) {
    forall p: nat :: p in looks ==> looks[p].seen >= p + 262 || looks[p].seen in ends
  }

  /** Every look with three bytes had all earlier positions in its dictionary. */
  ghost predicate Unbroken(looks: map<nat, Look>) {
    forall p: nat :: p in looks && p + 2 < looks[p].seen ==> AllBefore(looks[p].dict, p)
  }

  ghost predicate AllBefore(dict: set<nat>, p: nat) { forall q: nat :: q < p ==> q in dict }

  lemma WatchedMore(t: Tuning, stream: seq<byte>, more: seq<byte>, looks: map<nat, Look>)
    requires Watched(t, stream, looks)
    ensures Watched(t, stream + more, looks)
  {
    hide Sought;
    forall p: nat | p in looks ensures LookedAt(t, stream + more, looks, p) {
      assert LookedAt(t, stream, looks, p);
      assert (stream + more)[..looks[p].seen] == stream[..looks[p].seen];
    }
  }

  /** A new look. */
  lemma WatchedNext(t: Tuning, stream: seq<byte>, looks: map<nat, Look>, p: nat, k: Look)
    requires Watched(t, stream, looks) && Below(looks, p) && p < k.seen == |stream| && Sought(t, stream, k, p)
    requires k.prev == Waiting(looks, p) && (k.floor == 0 || k.floor + (t.window - 262) <= p)
    ensures Watched(t, stream, looks[p := k])
  {
    hide Sought;
    var looks' := looks[p := k];
    assert stream[..k.seen] == stream;
    forall q: nat | q in looks' ensures LookedAt(t, stream, looks', q) {
      if q != p { assert LookedAt(t, stream, looks, q); }
    }
  }

  lemma {:induction false} LazilyMore(looks: map<nat, Look>, syms: seq<Sym>, n: int, p: nat, k: Look)
    requires Lazily(looks, syms, n) && p !in looks && n <= p
    ensures Lazily(looks[p := k], syms, n)
    decreases |syms|
  {
    if syms != [] {
      LazilyMore(looks, syms[..|syms| - 1], n - Span(syms[|syms| - 1]), p, k);
    }
  }

  lemma LazilyPush(looks: map<nat, Look>, syms: seq<Sym>, n: int, sym: Sym)
    requires Lazily(looks, syms, n) && Chosen(looks, sym, n)
    ensures Lazily(looks, syms + [sym], n + Span(sym))
  {
    hide Chosen;
    assert (syms + [sym])[..|syms|] == syms;
  }

  /** Where the i-th symbol starts. */
  function Start(syms: seq<Sym>, i: nat): nat
    requires i <= |syms|
  {
    if i == 0 then 0 else Start(syms, i - 1) + Span(syms[i - 1])
  }

  lemma {:induction false} StartSame(syms: seq<Sym>, more: seq<Sym>, i: nat)
    requires i <= |syms|
    ensures Start(syms + more, i) == Start(syms, i)
  {
    if i > 0 { StartSame(syms, more, i - 1); }
  }

  /** Every symbol is chosen as its position says. */
  lemma {:induction false} EachChosen(looks: map<nat, Look>, syms: seq<Sym>, n: int, i: nat)
    requires Lazily(looks, syms, n) && i < |syms|
    ensures n == Start(syms, |syms|) && Chosen(looks, syms[i], Start(syms, i))
    decreases |syms|
  {
    hide Chosen;
    var m := |syms| - 1;
    var init, last := syms[..m], syms[m];
    StartSame(init, [last], m);
    assert init + [last] == syms;
    if m > 0 {
      EachChosen(looks, init, n - Span(last), if i < m then i else 0);
    }
    if i < m { StartSame(init, [last], i); }
  }

  /** A symbol starts where no longer match was waiting. */
  lemma StartWaiting(looks: map<nat, Look>, syms: seq<Sym>, n: int, i: nat)
    requires Lazily(looks, syms, n) && i < |syms|
    ensures var p := Start(syms, i);
      p in looks && (Waiting(looks, p) < 3 || Waiting(looks, p) < looks[p].len)
  {
    hide Lazily;
    EachChosen(looks, syms, n, i);
    if i > 0 { EachChosen(looks, syms, n, i - 1); }
  }

  /** The match found at a position that was looked at. */
  ghost predicate FindsAt(t: Tuning, stream: seq<byte>, looks: map<nat, Look>, p: nat) {
    && p in looks && looks[p].seen <= |stream| && looks[p].prev < looks[p].len
    && Finds(t, stream[..looks[p].seen], looks[p], p)
  }

  /** With nothing waiting there was no need to look, no candidate in reach of three bytes, or what was found is
      dropped. */
  ghost predicate NoneAt(t: Tuning, stream: seq<byte>, looks: map<nat, Look>, p: nat) {
    && p in looks && looks[p].seen <= |stream| && looks[p].prev == 2
    && var k := looks[p];
       t.lazy <= 2 || NoLonger(t, stream[..k.seen], k, p, 2) || Drops(t, stream[..k.seen], k, p)
  }

  /** Why a match was tallied: it is the one found there, longer than the one that waited before it and not shorter than
      what is found at the next position. */
  ghost predicate Taken(t: Tuning, stream: seq<byte>, looks: map<nat, Look>, sym: Sym, p: nat) {
    && sym.Pair? && p in looks && p + 1 in looks && looks[p + 1].len <= looks[p].len
    && looks[p].len == sym.lc + 3 && looks[p].dist == sym.dist && FindsAt(t, stream, looks, p)
  }

  /** Why a byte stands alone: a longer match is found at the next position, or none here. */
  ghost predicate Alone(t: Tuning, stream: seq<byte>, looks: map<nat, Look>, p: nat) {
    || (p in looks && p + 1 in looks && looks[p + 1].len > looks[p].len && FindsAt(t, stream, looks, p + 1))
    || NoneAt(t, stream, looks, p)
  }

  lemma WhyPair(t: Tuning, stream: seq<byte>, looks: map<nat, Look>, sym: Sym, p: nat)
    requires sym.Pair? && Chosen(looks, sym, p) && Watched(t, stream, looks)
    requires Waiting(looks, p) < 3 || Waiting(looks, p) < looks[p].len
    ensures Taken(t, stream, looks, sym, p)
  {
    hide Finds, Drops, NoLonger;
    assert LookedAt(t, stream, looks, p);
  }

  lemma WhyLit(t: Tuning, stream: seq<byte>, looks: map<nat, Look>, sym: Sym, p: nat)
    requires sym.Lit? && Chosen(looks, sym, p) && Watched(t, stream, looks)
    requires Waiting(looks, p) < 3 || Waiting(looks, p) < looks[p].len
    ensures Alone(t, stream, looks, p)
  {
    hide Finds, Drops, NoLonger;
    assert LookedAt(t, stream, looks, p);
    if looks[p].len >= 3 { assert LookedAt(t, stream, looks, p + 1); }
  }

  /** Every symbol tallied has its reason. */
  lemma EachReasoned(t: Tuning, stream: seq<byte>, looks: map<nat, Look>, syms: seq<Sym>, n: int, i: nat)
    requires Lazily(looks, syms, n) && Watched(t, stream, looks) && i < |syms|
    ensures if syms[i].Pair? then Taken(t, stream, looks, syms[i], Start(syms, i))
      else Alone(t, stream, looks, Start(syms, i))
  {
    hide Watched, Waiting, Chosen, Taken, Alone, Lazily;
    EachChosen(looks, syms, n, i);
    StartWaiting(looks, syms, n, i);
    var p := Start(syms, i);
    if syms[i].Pair? {
      WhyPair(t, stream, looks, syms[i], p);
    } else {
      WhyLit(t, stream, looks, syms[i], p);
    }
  }
}
