/** Values behind longest_match() and the tally of zlib/deflate.c: matches as facts about the input
    stream, the search as a walk along a chain, and what the tallied symbols expand to. */
module Lz77 {
  import opened Bits
  import opened HashChains
  import opened InflateSpec
  import opened Block

  const MIN_MATCH: nat := 3
  const MAX_MATCH: nat := 258
  const MIN_LOOKAHEAD: nat := 262

  /** The first n bytes of the window are the stream from base on, to its end. */
  ghost predicate Loaded(w: seq<byte>, stream: seq<byte>, base: nat, n: nat) {
    n <= |w| && |stream| == base + n && w[..n] == stream[base..]
  }

  /** At p the stream repeats, for len bytes, what it held d bytes earlier. */
  ghost predicate MatchAt(stream: seq<byte>, p: int, d: int, len: nat) {
    1 <= d <= p && p + len <= |stream| && stream[p..p + len] == stream[p - d..p - d + len]
  }

  lemma MatchMore(stream: seq<byte>, more: seq<byte>, p: int, d: int, len: nat)
    requires MatchAt(stream, p, d, len)
    ensures MatchAt(stream + more, p, d, len)
  {
    var s := stream + more;
    assert s[p..p + len] == stream[p..p + len] && s[p - d..p - d + len] == stream[p - d..p - d + len];
  }

  /** Copying from the output so far reproduces a match. */
  lemma {:induction false} CopyIsMatch(stream: seq<byte>, p: nat, d: nat, len: nat)
    requires MatchAt(stream, p, d, len)
    ensures Copy(stream[..p], len, d) == stream[..p + len]
    decreases len
  {
    if len > 0 {
      assert stream[p] == stream[p..p + len][0] == stream[p - d..p - d + len][0] == stream[p - d];
      assert stream[..p] + [stream[p]] == stream[..p + 1];
      assert stream[p + 1..p + len] == stream[p..p + len][1..] == stream[p - d..p - d + len][1..] ==
        stream[p + 1 - d..p - d + len];
      CopyIsMatch(stream, p + 1, d, len - 1);
    }
  }

  /** The tallied symbols expand to exactly the first n bytes of the stream. */
  ghost predicate Tallied(syms: seq<Sym>, stream: seq<byte>, n: int) {
    0 <= n <= |stream| && SymsOk([], syms) && Expand([], syms) == stream[..n]
  }

  lemma {:induction false} ExpandAppend(out: seq<byte>, syms: seq<Sym>, sym: Sym)
    requires SymsOk(out, syms) && SymOk(sym, |Expand(out, syms)|)
    ensures SymsOk(out, syms + [sym]) && Expand(out, syms + [sym]) == ExpandSym(Expand(out, syms), sym)
    decreases |syms|
  {
    hide ExpandSym, SymOk;
    if syms == [] {
      assert (syms + [sym])[1..] == [];
    } else {
      assert (syms + [sym])[1..] == syms[1..] + [sym];
      ExpandAppend(ExpandSym(out, syms[0]), syms[1..], sym);
    }
  }

  lemma {:induction false} ExpandConcat(out: seq<byte>, a: seq<Sym>, b: seq<Sym>)
    requires SymsOk(out, a + b) && SymsOk(out, a)
    ensures SymsOk(Expand(out, a), b) && Expand(out, a + b) == Expand(Expand(out, a), b)
    decreases |a|
  {
    hide ExpandSym, SymOk;
    if a == [] {
      assert a + b == b;
    } else {
      assert (a + b)[1..] == a[1..] + b;
      ExpandConcat(ExpandSym(out, a[0]), a[1..], b);
    }
  }

  lemma {:induction false} ExpandGrows(out: seq<byte>, syms: seq<Sym>)
    requires SymsOk(out, syms)
    ensures |Expand(out, syms)| >= |out|
    decreases |syms|
  {
    if syms != [] { ExpandGrows(ExpandSym(out, syms[0]), syms[1..]); }
  }

  lemma TallyLit(syms: seq<Sym>, stream: seq<byte>, n: nat)
    requires Tallied(syms, stream, n) && n < |stream|
    ensures Tallied(syms + [Lit(stream[n])], stream, n + 1)
  {
    hide SymsOk, Expand;
    ExpandAppend([], syms, Lit(stream[n]));
    assert stream[..n] + [stream[n]] == stream[..n + 1];
  }

  lemma TallyPair(syms: seq<Sym>, stream: seq<byte>, n: nat, d: nat, len: nat)
    requires Tallied(syms, stream, n) && MatchAt(stream, n, d, len) && MIN_MATCH <= len <= MAX_MATCH && d <= 32768
    ensures Tallied(syms + [Pair(d, len - MIN_MATCH)], stream, n + len)
  {
    hide SymsOk, Expand, Copy;
    CopyIsMatch(stream, n, d, len);
    ExpandAppend([], syms, Pair(d, len - MIN_MATCH));
  }

  lemma TallyMore(syms: seq<Sym>, stream: seq<byte>, more: seq<byte>, n: int)
    requires Tallied(syms, stream, n)
    ensures Tallied(syms, stream + more, n)
  {
    hide SymsOk, Expand;
    assert (stream + more)[..n] == stream[..n];
  }

  /** How many bytes, up to MAX_MATCH, agree at s and c, counting from offset k. */
  function Common(w: seq<byte>, s: nat, c: nat, k: nat): (r: nat)
    requires k <= MAX_MATCH
    ensures k <= r <= MAX_MATCH
    decreases MAX_MATCH - k
  {
    if k < MAX_MATCH && s + k < |w| && c + k < |w| && w[s + k] == w[c + k] then Common(w, s, c, k + 1) else k
  }

  lemma CommonStep(w: seq<byte>, s: nat, c: nat, k: nat)
    requires k <= MAX_MATCH && s + k < |w| && c + k < |w|
    ensures Common(w, s, c, k) == if k < MAX_MATCH && w[s + k] == w[c + k] then Common(w, s, c, k + 1) else k
  {
  }

  lemma {:induction false} CommonEqual(w: seq<byte>, s: nat, c: nat, k: nat, i: nat)
    requires k <= MAX_MATCH && k <= i < Common(w, s, c, k)
    ensures s + i < |w| && c + i < |w| && w[s + i] == w[c + i]
    decreases i - k
  {
    if k < i { CommonEqual(w, s, c, k + 1, i); }
  }

  /** A difference at offset i bounds the match: rejecting on one byte loses nothing longer. */
  lemma {:induction false} CommonBelow(w: seq<byte>, s: nat, c: nat, k: nat, i: nat)
    requires k <= i < MAX_MATCH && s + i < |w| && c + i < |w| && w[s + i] != w[c + i]
    ensures Common(w, s, c, k) <= i
    decreases i - k
  {
    if k < i { CommonBelow(w, s, c, k + 1, i); }
  }

  /** Bytes that agree in the window are a match in the stream. */
  lemma CommonIsMatch(w: seq<byte>, stream: seq<byte>, base: nat, n: nat, s: nat, c: nat, len: nat)
    requires Loaded(w, stream, base, n) && c < s && len <= Common(w, s, c, 0) && s + len <= n
    ensures MatchAt(stream, base + s, s - c, len)
  {
    hide Common;
    var p, q := base + s, base + c;
    var a, b := stream[p..p + len], stream[q..q + len];
    forall i | 0 <= i < len ensures a[i] == b[i] {
      CommonEqual(w, s, c, 0, i);
      assert w[..n][s + i] == stream[base..][s + i] && w[..n][c + i] == stream[base..][c + i];
    }
    assert a == b;
  }

  datatype Best = Best(len: nat, start: int)

  /** The plain search: measure every candidate of the chain in full and keep the first of the longest,
      stopping early at a nice one, at the limit or when the chain budget is spent. */
  ghost function Search(w: seq<byte>, prev: seq<nat>, wbits: nat, s: nat, limit: nat, nice: int, c: nat, chain: nat,
                        best: Best): Best
    requires |prev| == Pow2(wbits) && chain >= 1
    decreases chain
  {
    var len := Common(w, s, c, 0);
    var best' := if len > best.len then Best(len, c) else best;
    if (len > best.len && len >= nice) || prev[Slot(wbits, c)] <= limit || chain == 1 then best'
    else Search(w, prev, wbits, s, limit, nice, prev[Slot(wbits, c)], chain - 1, best')
  }

  lemma SearchStep(w: seq<byte>, prev: seq<nat>, wbits: nat, s: nat, limit: nat, nice: int, c: nat, chain: nat,
                   best: Best)
    requires |prev| == Pow2(wbits) && chain >= 1
    ensures var len, next := Common(w, s, c, 0), prev[Slot(wbits, c)];
      var best' := if len > best.len then Best(len, c) else best;
      Search(w, prev, wbits, s, limit, nice, c, chain, best) ==
      if (len > best.len && len >= nice) || next <= limit || chain == 1 then best'
      else Search(w, prev, wbits, s, limit, nice, next, chain - 1, best')
  {
  }

  /** The i-th candidate of the chain that starts at c. */
  ghost function Nth(prev: seq<nat>, wbits: nat, c: nat, i: nat): nat
    requires |prev| == Pow2(wbits)
    decreases i
  {
    if i == 0 then c else Nth(prev, wbits, prev[Slot(wbits, c)], i - 1)
  }

  /** What the search finds: at least as long as the best before it and, unless it is nice enough, as every
      candidate the chain reaches above the limit and within the budget. */
  lemma {:induction false} SearchLongest(w: seq<byte>, prev: seq<nat>, wbits: nat, s: nat, limit: nat, nice: int,
                                         c: nat, chain: nat, best: Best, i: nat)
    requires |prev| == Pow2(wbits) && i < chain
    requires forall j: nat :: 1 <= j <= i ==> Nth(prev, wbits, c, j) > limit
    ensures var r := Search(w, prev, wbits, s, limit, nice, c, chain, best);
      r.len >= best.len && ((r.len > best.len && r.len >= nice) || r.len >= Common(w, s, Nth(prev, wbits, c, i), 0))
    decreases chain
  {
    hide Common, Slot;
    var len, next := Common(w, s, c, 0), prev[Slot(wbits, c)];
    var best' := if len > best.len then Best(len, c) else best;
    if i > 0 { assert Nth(prev, wbits, c, 1) == Nth(prev, wbits, next, 0) == next; }
    if !((len > best.len && len >= nice) || next <= limit || chain == 1) {
      forall j: nat | 1 <= j <= i - 1 ensures Nth(prev, wbits, next, j) > limit {
        assert Nth(prev, wbits, c, j + 1) == Nth(prev, wbits, next, j);
      }
      SearchLongest(w, prev, wbits, s, limit, nice, next, chain - 1, best', if i == 0 then 0 else i - 1);
    }
  }

  /** And it is the first of those candidates that is so long, measured in full, or the best before it. No candidate
      before it was nice enough. */
  lemma {:induction false} SearchCandidate(w: seq<byte>, prev: seq<nat>, wbits: nat, s: nat, limit: nat, nice: int,
                                           c: nat, chain: nat, best: Best)
    returns (i: nat)
    requires |prev| == Pow2(wbits) && chain >= 1
    ensures var r := Search(w, prev, wbits, s, limit, nice, c, chain, best);
      && (r != best ==>
          i < chain && r == Best(Common(w, s, Nth(prev, wbits, c, i), 0), Nth(prev, wbits, c, i)) && r.len > best.len)
      && (r != best ==> forall j: nat :: 1 <= j <= i ==> Nth(prev, wbits, c, j) > limit)
      && (r != best ==> forall j: nat :: j < i ==> Passed(w, s, nice, Nth(prev, wbits, c, j), best.len, r.len))
    decreases chain
  {
    hide Common, Slot;
    var len, next := Common(w, s, c, 0), prev[Slot(wbits, c)];
    var best' := if len > best.len then Best(len, c) else best;
    i := 0;
    if !((len > best.len && len >= nice) || next <= limit || chain == 1) {
      var j := SearchCandidate(w, prev, wbits, s, limit, nice, next, chain - 1, best');
      var r := Search(w, prev, wbits, s, limit, nice, next, chain - 1, best');
      if r != best' {
        i := j + 1;
        forall k: nat | 1 <= k <= i ensures Nth(prev, wbits, c, k) > limit {
          assert Nth(prev, wbits, c, k) == Nth(prev, wbits, next, k - 1);
          if k == 1 { assert Nth(prev, wbits, next, 0) == next; }
        }
        forall k: nat | k < i ensures Passed(w, s, nice, Nth(prev, wbits, c, k), best.len, r.len) {
          if k > 0 {
            assert Nth(prev, wbits, c, k) == Nth(prev, wbits, next, k - 1);
            assert Passed(w, s, nice, Nth(prev, wbits, next, k - 1), best'.len, r.len);
          }
        }
      }
    }
  }

  /** A candidate that did not end the search and is shorter than what was found. */
  ghost predicate Passed(w: seq<byte>, s: nat, nice: int, c: nat, best: nat, len: nat) {
    var n := Common(w, s, c, 0);
    n < len && (n <= best || n < nice)
  }

  lemma {:induction false} NthNext(prev: seq<nat>, wbits: nat, c: nat, i: nat)
    requires |prev| == Pow2(wbits)
    ensures Nth(prev, wbits, c, i + 1) == prev[Slot(wbits, Nth(prev, wbits, c, i))]
    decreases i
  {
    hide Slot, Pow2;
    if i > 0 { NthNext(prev, wbits, prev[Slot(wbits, c)], i - 1); }
  }

  /** What agrees in the window agrees in the stream, up to its end. */
  lemma {:induction false} CommonInStream(w: seq<byte>, stream: seq<byte>, base: nat, n: nat, s: nat, c: nat, k: nat)
    requires Loaded(w, stream, base, n) && c < s && k <= MAX_MATCH && s + k <= n
    ensures Common(stream, base + s, base + c, k) ==
      var len := Common(w, s, c, k); if s + len <= n then len else n - s
    decreases MAX_MATCH - k
  {
    if s + k < n && k < MAX_MATCH {
      assert w[..n][s + k] == stream[base..][s + k] && w[..n][c + k] == stream[base..][c + k];
      if w[s + k] == w[c + k] { CommonInStream(w, stream, base, n, s, c, k + 1); }
    }
  }
}
