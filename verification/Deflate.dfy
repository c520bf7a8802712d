/** deflate_slow() of zlib/deflate.c: the sliding window, the hash dictionary, longest_match() and
    lazy matching. Ghost fields hold the whole input read so far and where the window starts in it. */
module Deflate {
  import opened Bits
  import opened Hash
  import opened HashChains
  import opened Block
  import opened Lz77
  import L = LazyMatch

  const TOO_FAR: nat := 4096

  function Min(a: nat, b: nat): nat { if a < b then a else b }

  datatype Flush = NoFlush | SyncFlush | Finish
  /** The bytes a stored block would copy: gone once they have left the window. */
  datatype Raw = Gone | Bytes(data: seq<byte>)
  /** What is handed to _tr_flush_block(). */
  datatype Flushed = Flushed(syms: seq<Sym>, raw: Raw, len: nat, last: bool)
  datatype BlockState = NeedMore | BlockDone | FinishStarted | FinishDone

  /** How far deflate_slow() has come, in stream positions: where the next string starts and where the
      current block started, what was tallied in flushed blocks and in this one, and the match that
      waits for the next position to be decided. */
  datatype Progress = Progress(stream: seq<byte>, at: int, from: int, flushed: seq<Sym>, syms: seq<Sym>,
                               available: bool, len: nat, dist: int)

  /** Everything tallied expands to the input up to strstart - match_available, the flushed blocks to the
      input up to block_start, and a waiting match is a true match at most maxDist back. */
  ghost predicate Faithful(p: Progress, maxDist: nat) {
    && p.at >= (if p.available then 1 else 0)
    && Tallied(p.flushed + p.syms, p.stream, p.at - if p.available then 1 else 0) &&
      Tallied(p.flushed, p.stream, p.from)
    && p.len >= MIN_MATCH - 1
    && (p.len >= MIN_MATCH ==>
          p.available && p.len <= MAX_MATCH && MatchAt(p.stream, p.at - 1, p.dist, p.len) && p.dist <= maxDist)
  }

  lemma FaithfulMore(p: Progress, maxDist: nat, data: seq<byte>)
    requires Faithful(p, maxDist)
    ensures Faithful(p.(stream := p.stream + data), maxDist)
  {
    hide Tallied, MatchAt;
    TallyMore(p.flushed + p.syms, p.stream, data, p.at - if p.available then 1 else 0);
    TallyMore(p.flushed, p.stream, data, p.from);
    if p.len >= MIN_MATCH { MatchMore(p.stream, data, p.at - 1, p.dist, p.len); }
  }

  lemma NothingYet(p: Progress, maxDist: nat)
    requires p.stream == [] && p.at == 0 && p.from == 0 && p.flushed == [] && p.syms == [] && !p.available
    requires p.len == MIN_MATCH - 1
    ensures Faithful(p, maxDist)
  {
  }

  /** A length found at p: nothing, or a true match at most maxDist back. */
  ghost predicate Matched(stream: seq<byte>, p: int, dist: int, len: nat, maxDist: nat) {
    && len >= MIN_MATCH - 1
    && (len >= MIN_MATCH ==> len <= MAX_MATCH && MatchAt(stream, p, dist, len) && dist <= maxDist)
  }

  /** Tallying the waiting match. */
  lemma FaithfulPair(p: Progress, maxDist: nat, dist: int)
    requires Faithful(p, maxDist) && p.len >= MIN_MATCH && maxDist <= 32768
    ensures p.dist >= 1
    ensures Faithful(p.(at := p.at - 1 + p.len, syms := p.syms + [Pair(p.dist, p.len - MIN_MATCH)],
                        available := false, len := MIN_MATCH - 1, dist := dist), maxDist)
  {
    hide Tallied;
    TallyPair(p.flushed + p.syms, p.stream, p.at - 1, p.dist, p.len);
    assert p.flushed + (p.syms + [Pair(p.dist, p.len - MIN_MATCH)]) ==
      p.flushed + p.syms + [Pair(p.dist, p.len - MIN_MATCH)];
  }

  /** Tallying the byte before `at` as a literal and forgetting the waiting match. */
  lemma FaithfulLit(p: Progress, maxDist: nat)
    requires Faithful(p, maxDist) && p.available && p.at <= |p.stream|
    ensures Faithful(p.(syms := p.syms + [Lit(p.stream[p.at - 1])], available := false, len := MIN_MATCH - 1), maxDist)
  {
    hide Tallied, MatchAt;
    TallyLit(p.flushed + p.syms, p.stream, p.at - 1);
    assert p.flushed + (p.syms + [Lit(p.stream[p.at - 1])]) == p.flushed + p.syms + [Lit(p.stream[p.at - 1])];
  }

  /** Moving on by one byte, with the match found for it waiting. */
  lemma FaithfulStep(p: Progress, maxDist: nat, len: nat, dist: int)
    requires Faithful(p, maxDist) && !p.available && Matched(p.stream, p.at, dist, len, maxDist)
    ensures Faithful(p.(at := p.at + 1, available := true, len := len, dist := dist), maxDist)
  {
    hide Tallied, MatchAt;
  }

  /** Flushing a block when everything before `at` is tallied: its symbols expand to exactly the bytes
      from block_start on, which are the bytes a stored block would carry. */
  lemma FaithfulFlush(p: Progress, maxDist: nat)
    requires Faithful(p, maxDist) && !p.available
    ensures Faithful(p.(from := p.at, flushed := p.flushed + p.syms, syms := []), maxDist)
    ensures 0 <= p.from <= p.at <= |p.stream| && SymsOk(p.stream[..p.from], p.syms)
    ensures Expand(p.stream[..p.from], p.syms) == p.stream[..p.at]
  {
    hide MatchAt, SymsOk, Expand;
    ExpandConcat([], p.flushed, p.syms);
    ExpandGrows(p.stream[..p.from], p.syms);
    assert p.flushed + p.syms + [] == p.flushed + p.syms;
  }

  // ----- what is decided -----

  /** All symbols tallied are chosen as the looks for matches say, and the match that waits is what was found at the
      position before. */
  ghost predicate Eager(t: L.Tuning, p: Progress, looks: map<nat, L.Look>) {
    && L.Watched(t, p.stream, looks) && L.Below(looks, p.at)
    && L.Lazily(looks, p.flushed + p.syms, p.at - if p.available then 1 else 0)
    && p.len == L.Waiting(looks, p.at)
    && (p.available ==> p.at >= 1 && p.at - 1 in looks && (p.len >= 3 ==> looks[p.at - 1].dist == p.dist))
  }

  /** The look at the current position. */
  ghost predicate NextLook(t: L.Tuning, p: Progress, k: L.Look) {
    && 0 <= p.at < |p.stream| == k.seen && L.Sought(t, p.stream, k, p.at) && k.prev == p.len
    && (k.floor == 0 || k.floor + (t.window - 262) <= p.at)
  }

  lemma EagerMore(t: L.Tuning, p: Progress, looks: map<nat, L.Look>, data: seq<byte>)
    requires Eager(t, p, looks)
    ensures Eager(t, p.(stream := p.stream + data), looks)
  {
    hide L.Watched, L.Lazily, L.Below;
    L.WatchedMore(t, p.stream, data, looks);
  }

  lemma EagerNone(t: L.Tuning, p: Progress)
    requires p.at == 0 && p.flushed == [] && p.syms == [] && !p.available && p.len == 2
    ensures Eager(t, p, map[])
  {
  }

  /** The waiting match is taken. */
  lemma EagerPair(t: L.Tuning, p: Progress, looks: map<nat, L.Look>, k: L.Look, q: Progress)
    requires Eager(t, p, looks) && NextLook(t, p, k) && p.available && p.len >= 3 && k.len <= p.len && p.dist >= 1
    requires q.stream == p.stream && q.at == p.at - 1 + p.len && !q.available && q.len == 2
    requires q.flushed + q.syms == p.flushed + p.syms + [Pair(p.dist, p.len - 3)]
    ensures Eager(t, q, looks[p.at := k])
  {
    hide L.Watched, L.Lazily, L.Sought;
    L.WatchedNext(t, p.stream, looks, p.at, k);
    L.LazilyMore(looks, p.flushed + p.syms, p.at - 1, p.at, k);
    L.LazilyPush(looks[p.at := k], p.flushed + p.syms, p.at - 1, Pair(p.dist, p.len - 3));
  }

  /** The match found here waits; a byte before it is let go. */
  lemma EagerWait(t: L.Tuning, p: Progress, looks: map<nat, L.Look>, k: L.Look, q: Progress, b: byte)
    requires Eager(t, p, looks) && NextLook(t, p, k) && (p.available ==> p.len < 3 || k.len > p.len)
    requires q.stream == p.stream && q.at == p.at + 1 && q.available && q.len == k.len && q.dist == k.dist
    requires q.flushed + q.syms == p.flushed + p.syms + if p.available then [Lit(b)] else []
    ensures Eager(t, q, looks[p.at := k])
  {
    hide L.Watched, L.Lazily, L.Sought;
    L.WatchedNext(t, p.stream, looks, p.at, k);
    L.LazilyMore(looks, p.flushed + p.syms, p.at - if p.available then 1 else 0, p.at, k);
    if p.available {
      L.LazilyPush(looks[p.at := k], p.flushed + p.syms, p.at - 1, Lit(b));
    } else {
      assert p.flushed + p.syms + [] == p.flushed + p.syms;
    }
  }

  /** The last byte of the input. */
  lemma EagerLast(t: L.Tuning, p: Progress, looks: map<nat, L.Look>, q: Progress, b: byte)
    requires Eager(t, p, looks) && p.available && p.len < 3
    requires q.stream == p.stream && q.at == p.at && !q.available && q.len == p.len
    requires q.flushed + q.syms == p.flushed + p.syms + [Lit(b)]
    ensures Eager(t, q, looks)
  {
    hide L.Watched, L.Lazily;
    L.LazilyPush(looks, p.flushed + p.syms, p.at - 1, Lit(b));
  }

  /** The symbols of all the blocks. */
  ghost function Cat(blocks: seq<Flushed>): seq<Sym> {
    if blocks == [] then [] else Cat(blocks[..|blocks| - 1]) + blocks[|blocks| - 1].syms
  }

  /** The block continues the expansion of the symbols before it, and its raw bytes are the same. */
  ghost predicate Continues(before: seq<Sym>, b: Flushed) {
    && SymsOk([], before) && SymsOk([], before + b.syms) && SymsOk(Expand([], before), b.syms)
    && var a, z := Expand([], before), Expand([], before + b.syms);
       Expand(a, b.syms) == z && |z| == |a| + b.len &&
         (b.raw.Bytes? ==> a + b.raw.data == z && |b.raw.data| == b.len <= 65535)
  }

  ghost predicate Recorded(blocks: seq<Flushed>) {
    blocks == [] || (Recorded(blocks[..|blocks| - 1]) && Continues(Cat(blocks[..|blocks| - 1]), blocks[|blocks| - 1]))
  }

  /** A block that is no longer than matches may reach back comes with its bytes. */
  ghost predicate Offered(window: nat, blocks: seq<Flushed>) {
    forall i :: 0 <= i < |blocks| ==> blocks[i].len + 262 <= window ==> blocks[i].raw.Bytes?
  }

  ghost predicate NoneLast(blocks: seq<Flushed>) {
    forall i :: 0 <= i < |blocks| ==> !blocks[i].last
  }

  /** The last block, and no other, is marked last. */
  ghost predicate Closed(blocks: seq<Flushed>) {
    blocks != [] && NoneLast(blocks[..|blocks| - 1]) && blocks[|blocks| - 1].last
  }

  /** The symbols from stream position `from` to `at` make a block, raw or not. */
  lemma BlockContinues(flushed: seq<Sym>, b: Flushed, stream: seq<byte>, from: nat, at: nat)
    requires Tallied(flushed, stream, from) && Tallied(flushed + b.syms, stream, at) && from <= at && b.len == at - from
    requires b.raw.Bytes? ==> b.raw.data == stream[from..at] && b.len <= 65535
    ensures Continues(flushed, b)
  {
    hide SymsOk, Expand;
    ExpandConcat([], flushed, b.syms);
    ExpandGrows(stream[..from], b.syms);
    assert stream[..at] == stream[..from] + stream[from..at];
  }

  lemma TalliedOrder(flushed: seq<Sym>, syms: seq<Sym>, stream: seq<byte>, from: int, at: int)
    requires Tallied(flushed, stream, from) && Tallied(flushed + syms, stream, at)
    ensures 0 <= from <= at <= |stream|
  {
    hide SymsOk, Expand;
    ExpandConcat([], flushed, syms);
    ExpandGrows(stream[..from], syms);
  }

  lemma LoadedSlice(w: seq<byte>, stream: seq<byte>, base: nat, n: nat, i: nat, j: nat)
    requires Loaded(w, stream, base, n) && i <= j <= n
    ensures n <= |w| && w[i..j] == stream[base + i..base + j]
  {
    assert w[..n][i..j] == w[i..j];
    assert stream[base..][i..j] == stream[base + i..base + j];
  }

  lemma Record(blocks: seq<Flushed>, b: Flushed)
    requires Recorded(blocks) && Continues(Cat(blocks), b)
    ensures Recorded(blocks + [b]) && Cat(blocks + [b]) == Cat(blocks) + b.syms
  {
    hide Continues;
    assert (blocks + [b])[..|blocks|] == blocks;
  }

  /** The inner comparison of longest_match(), eight bytes to a check of the end. */
  method Compare(w: array<byte>, s: nat, c: nat) returns (len: nat)
    requires c < s && s + MAX_MATCH < w.Length
    requires w[c] == w[s] && w[c + 1] == w[s + 1] && w[c + 2] == w[s + 2]
    ensures len == Common(w[..], s, c, 0)
  {
    hide Common;
    ghost var v := w[..];
    CommonStep(v, s, c, 0);
    CommonStep(v, s, c, 1);
    CommonStep(v, s, c, 2);
    len := 2;
    while true
      invariant 2 <= len < MAX_MATCH && Common(v, s, c, 0) == Common(v, s, c, len + 1)
      decreases MAX_MATCH - len
    {
      len := len + 1;
      CommonStep(v, s, c, len);
      if w[s + len] != w[c + len] { break; }
      if (len - 2) % 8 == 0 && len >= MAX_MATCH { break; }
    }
  }

  /** One table of slide_hash(). */
  method SlideTable(t: array<nat>, wsize: nat)
    modifies t
    ensures t[..] == Slid(old(t[..]), wsize)
  {
    var n: nat := t.Length;
    while n > 0
      invariant n <= t.Length
      invariant forall i :: 0 <= i < n ==> t[i] == old(t[i])
      invariant forall i :: n <= i < t.Length ==> t[i] == if old(t[i]) >= wsize then old(t[i]) - wsize else 0
    {
      n := n - 1;
      var m := t[n];
      t[n] := if m >= wsize then m - wsize else 0;
    }
  }

  /** zmemcpy of the upper half of the window onto the lower one. */
  method MoveDown(w: array<byte>, from: nat, n: nat)
    requires n <= from && from + n <= w.Length
    modifies w
    ensures w[..n] == old(w[from..from + n])
  {
    forall i | 0 <= i < n { w[i] := w[from + i]; }
  }

  /** After the move the window holds the same end of the stream, from a later base. */
  lemma WindowSlid(w: seq<byte>, w': seq<byte>, stream: seq<byte>, base: nat, wsize: nat, s: nat, ahead: nat)
    requires Loaded(w, stream, base, s + ahead) && wsize <= s
    requires s + ahead - wsize <= |w'| && w'[..s + ahead - wsize] == w[wsize..s + ahead]
    ensures Loaded(w', stream, base + wsize, s - wsize + ahead)
    ensures ahead >= 2 ==> w'[s - wsize] == w[s] && w'[s - wsize + 1] == w[s + 1]
  {
    var n := s + ahead;
    assert w[wsize..n] == w[..n][wsize..] == stream[base + wsize..];
    if ahead >= 2 {
      assert w'[..n - wsize][s - wsize] == w[..n][s] && w'[..n - wsize][s - wsize + 1] == w[..n][s + 1];
    }
  }

  /** zmemcpy of new input into the window. */
  method CopyIn(w: array<byte>, at: nat, data: seq<byte>)
    requires at + |data| <= w.Length
    modifies w
    ensures w[..at + |data|] == old(w[..at]) + data
  {
    forall i | 0 <= i < |data| { w[at + i] := data[i]; }
  }

  lemma WindowGrown(w: seq<byte>, w': seq<byte>, stream: seq<byte>, base: nat, n: nat, data: seq<byte>)
    requires Loaded(w, stream, base, n)
    requires n + |data| <= |w'| && w'[..n + |data|] == w[..n] + data
    ensures Loaded(w', stream + data, base, n + |data|)
  {
    assert (stream + data)[base..] == stream[base..] + data;
  }

  /** 1 << n */
  method Power(n: nat) returns (r: nat)
    ensures r == Pow2(n)
  {
    r := 1;
    for i := 0 to n
      invariant r == Pow2(i)
    {
      r := 2 * r;
    }
  }

  lemma WindowSizes(wbits: nat)
    requires 9 <= wbits <= 15
    ensures 512 <= Pow2(wbits) <= 32768
  {
    hide Pow2;
    SmallPowers();
    Pow2Mono(9, wbits);
    Pow2Mono(wbits, 15);
  }

  /** CLEAR_HASH: with every head NIL the dictionary is empty, whatever prev[] holds. */
  lemma NoChains(bits: nat, wbits: nat, head: seq<nat>, prev: seq<nat>)
    requires HashSize(bits) && |head| == Pow2(bits) && |prev| == Pow2(wbits)
    requires forall i :: 0 <= i < |head| ==> head[i] == 0
    ensures Chains(bits, wbits, [], 0, head, prev, {}, 0)
  {
    hide Low, Pow2, Prior;
    LowSmall(0, wbits);
    forall h: nat ensures Prior(bits, [], {}, 0, h, 0) == 0 { PriorLow(bits, [], {}, 0, h, 0); }
  }

  /** How often the chain loop of longest_match() turns at most: the counter is decremented before it is compared
      with zero, in 32 bits. */
  function Turns(chain: nat): (n: nat)
    ensures n >= 1
  {
    if chain == 0 then 0x1_0000_0000 else chain
  }

  class Deflater {
    const wbits: nat
    const wsize: nat
    const hashBits: nat
    const goodMatch: nat
    const maxLazy: nat
    const niceMatch: int
    const maxChain: nat
    const filtered: bool
    const symEnd: nat
    const window: array<byte>
    const head: array<nat>
    const prev: array<nat>

    var strstart: nat
    var lookahead: nat
    var insert: nat
    var insH: nat
    var blockStart: int
    var matchStart: int
    var matchLength: nat
    var prevMatch: int
    var prevLength: nat
    var matchAvailable: bool
    var symBuf: seq<Sym>
    var blocks: seq<Flushed>
    var input: seq<byte>

    ghost var stream: seq<byte>   // all input read into the window so far
    ghost var base: nat           // the stream position of window[0]
    ghost var ins: set<nat>       // stream positions inserted in the dictionary
    ghost var top: nat            // above all of them
    ghost var flushed: seq<Sym>   // the symbols of all blocks flushed so far
    ghost var ended: bool         // a last block has been flushed
    ghost var looks: map<nat, L.Look>   // the looks for matches, by stream position

    /** lm_init(): empty window, empty dictionary; prev[] is filled as positions are inserted. */
    constructor (wbits: nat, hashBits: nat, good: nat, lazy: nat, nice: int, chain: nat, filtered: bool, symEnd: nat)
      requires 9 <= wbits <= 15 && HashSize(hashBits) && symEnd >= 1
      ensures Valid() && stream == [] && input == [] && flushed == [] && symBuf == [] && blocks == [] && !ended
      ensures Decided() && looks == map[] && Whole() && Ready()
      ensures Tune() == L.Tuning(hashBits, Pow2(wbits), good, lazy, nice, chain, filtered) && this.symEnd == symEnd
      ensures fresh(window) && fresh(head) && fresh(prev)
    {
      this.wbits, this.hashBits, this.filtered, this.symEnd := wbits, hashBits, filtered, symEnd;
      goodMatch, maxLazy, niceMatch, maxChain := good, lazy, nice, chain;
      var w := Power(wbits);
      wsize := w;
      window := new byte[2 * w];
      var h := Power(hashBits);
      head := new nat[h](_ => 0);
      prev := new nat[w];
      strstart, lookahead, insert, insH, blockStart := 0, 0, 0, 0, 0;
      matchStart, matchLength, prevMatch, prevLength, matchAvailable := 0, MIN_MATCH - 1, 0, MIN_MATCH - 1, false;
      symBuf, blocks, input := [], [], [];
      stream, base, ins, top, flushed, ended, looks := [], 0, {}, 0, [], false, map[];
      new;
      hide Chains, Pow2, Faithful, HashSize, Eager;
      WindowSizes(wbits);
      NoChains(hashBits, wbits, head[..], prev[..]);
      NothingYet(Now(), MaxDist());
      EagerNone(Tune(), Now());
    }

    function MaxDist(): nat
      requires wsize >= MIN_LOOKAHEAD
    {
      wsize - MIN_LOOKAHEAD
    }

    ghost predicate Shape() {
      && 512 <= wsize <= 32768 && wsize == Pow2(wbits) && HashSize(hashBits) && symEnd >= 1
      && window.Length == 2 * wsize && head.Length == Pow2(hashBits) && prev.Length == wsize && head != prev
    }

    ghost predicate Held()
      reads `stream, `base, window
    {
      base <= |stream| && Loaded(window[..], stream, base, |stream| - base)
    }

    ghost predicate Linked()
      reads `stream, `base, `ins, `top, head, prev
    {
      Chains(hashBits, wbits, stream, base, head[..], prev[..], ins, top)
    }

    /** The rolling hash has taken in the two bytes at str. */
    ghost predicate RolledAt(str: nat)
      reads `insH, window
    {
      str + 1 < window.Length && Rolled(hashBits, insH, window[str], window[str + 1])
    }

    /** The window and the chains, with the last `insert` positions still to be inserted. */
    ghost predicate Stored()
      reads `stream, `base, `ins, `top, `strstart, `lookahead, `insert, window, head, prev
    {
      && Held() && Linked() && strstart + lookahead <= window.Length && |stream| == base + strstart + lookahead
      && insert <= 2 && insert <= strstart && top + insert <= base + strstart
      && (top > 0 ==> top + 2 <= |stream|) && (base > 0 ==> wsize <= strstart + MIN_LOOKAHEAD)
    }

    ghost predicate Dictionary()
      reads `stream, `base, `ins, `top, `strstart, `lookahead, `insert, `insH, window, head, prev
    {
      && Stored() && (insert == 0 || lookahead + insert < MIN_MATCH)
      && (lookahead >= MIN_MATCH ==> RolledAt(strstart))
    }

    ghost function Now(): Progress
      reads `stream, `base, `strstart, `blockStart, `flushed, `symBuf, `matchAvailable, `matchLength, `matchStart
    {
      Progress(stream, base + strstart, base + blockStart, flushed, symBuf, matchAvailable, matchLength,
        strstart - 1 - matchStart)
    }

    ghost predicate Valid()
      reads `stream, `base, `ins, `top, `strstart, `lookahead, `insert, `insH, window, head, prev
      reads `blockStart, `flushed, `symBuf, `blocks, `ended, `matchAvailable, `matchLength, `matchStart
    {
      Shape() && Dictionary() && Faithful(Now(), MaxDist()) && |symBuf| < symEnd && Logged()
    }

    ghost function Tune(): L.Tuning {
      L.Tuning(hashBits, wsize, goodMatch, maxLazy, niceMatch, maxChain, filtered)
    }

    /** What was tallied is what there was to find. */
    ghost predicate Decided()
      reads `stream, `base, `strstart, `blockStart, `flushed, `symBuf, `matchAvailable, `matchLength, `matchStart,
            `looks
    {
      Eager(Tune(), Now(), looks)
    }

    /** All positions before p with three bytes are in the dictionary. */
    ghost predicate Complete(p: int)
      reads `stream, `ins
    {
      forall q: nat :: q < p && q + 2 < |stream| ==> q in ins
    }

    /** Except for the last `insert` ones, all are. */
    ghost predicate Whole()
      reads `stream, `ins, `base, `strstart, `insert
    {
      Complete(base + strstart - insert)
    }

    /** More input leaves no gap. */
    ghost predicate Ready()
      reads `base, `strstart, `lookahead, `insert
    {
      lookahead + insert >= 2 || base + strstart <= insert
    }

    /** The blocks are a record of what was flushed. */
    ghost predicate Logged()
      reads `flushed, `blocks, `ended
    {
      flushed == Cat(blocks) && Recorded(blocks) && (!ended ==> NoneLast(blocks)) && Offered(wsize, blocks)
    }

    /** A chain entry longest_match() may visit. */
    ghost predicate Candidate(c: nat)
      reads `stream, `base, `ins, `strstart
      requires wsize >= MIN_LOOKAHEAD
    {
      && 1 <= c < strstart && strstart - c <= MaxDist() && (base + c) in ins
      && base + strstart + 2 < |stream| && HashAt(hashBits, stream, base + c) ==
        HashAt(hashBits, stream, base + strstart)
    }

    function Limit(): nat
      reads `strstart
      requires wsize >= MIN_LOOKAHEAD
    {
      if strstart > MaxDist() then strstart - MaxDist() else 0
    }

    function ChainLength(): nat
      reads `prevLength
    {
      if prevLength >= goodMatch then maxChain / 4 else maxChain
    }

    /** The length that is nice enough, compared with the lookahead as an unsigned number. */
    function Nice(): int
      reads `lookahead
    {
      if niceMatch < 0 || niceMatch > lookahead then lookahead else niceMatch
    }

    /** What the plain search finds for the string at strstart, starting from c. */
    ghost function Found(c: nat, chain: nat, best: Best): Best
      reads this, window, prev
      requires Shape() && chain >= 1
    {
      Search(window[..], prev[..], wbits, strstart, Limit(), Nice(), c, chain, best)
    }

    /** A candidate whose first two bytes agree agrees in the third. */
    lemma ThirdAgrees(c: nat)
      requires Shape() && Held() && Linked() && Candidate(c) && strstart + 2 < window.Length
      requires window[c] == window[strstart] && window[c + 1] == window[strstart + 1]
      ensures window[c + 2] == window[strstart + 2]
    {
      hide Hash3, Chains, Update;
      var n, s, w := |stream| - base, strstart, window[..];
      assert forall i :: 0 <= i < n ==> w[..n][i] == w[i];
      assert stream[base..][c] == stream[base + c] && stream[base..][c + 1] == stream[base + c + 1] &&
        stream[base..][c + 2] == stream[base + c + 2];
      assert stream[base..][s] == stream[base + s] && stream[base..][s + 1] == stream[base + s + 1] &&
        stream[base..][s + 2] == stream[base + s + 2];
      ThirdByte(hashBits, window[s], window[s + 1], window[s + 2], window[c + 2]);
    }

    /** The next entry of the chain is again a candidate if it is above the limit. */
    lemma NextCandidate(c: nat)
      requires Shape() && Linked() && Candidate(c) && top == base + strstart + 1
      ensures Slot(wbits, c) < prev.Length
      ensures prev[Slot(wbits, c)] > Limit() ==> Candidate(prev[Slot(wbits, c)])
    {
      hide Hash3, HashAt, Chains, Slot, Prior;
      Follow(hashBits, wbits, stream, base, head[..], prev[..], ins, top, c);
    }

    /** Measures one candidate against the best so far, rejecting on four bytes first. */
    method Measure(c: nat, best: nat) returns (len: nat)
      requires Shape() && Held() && Linked() && Candidate(c) && strstart + MIN_LOOKAHEAD <= window.Length
      requires 1 <= best <= MAX_MATCH
      ensures len > best ==> len == Common(window[..], strstart, c, 0)
      ensures len <= best ==> Common(window[..], strstart, c, 0) <= best
    {
      hide Common, Chains, HashAt, Loaded;
      ghost var w := window[..];
      if window[c + best] != window[strstart + best] {
        if best < MAX_MATCH { CommonBelow(w, strstart, c, 0, best); }
        return 0;
      }
      if window[c + best - 1] != window[strstart + best - 1] { CommonBelow(w, strstart, c, 0, best - 1); return 0; }
      if window[c] != window[strstart] { CommonBelow(w, strstart, c, 0, 0); return 0; }
      if window[c + 1] != window[strstart + 1] { CommonBelow(w, strstart, c, 0, 1); return 0; }
      ThirdAgrees(c);
      len := Compare(window, strstart, c);
    }

    /** longest_match(): what the plain search finds, cut to the lookahead. Any length above
        prev_length is a true match at most MAX_DIST back, although byte 2 is never compared. */
    method LongestMatch(hashHead: nat) returns (len: nat)
      requires Shape() && Held() && Linked() && Candidate(hashHead) && top == base + strstart + 1
      requires strstart + MIN_LOOKAHEAD <= window.Length && 1 <= prevLength <= MAX_MATCH && lookahead >= MIN_MATCH
      requires |stream| == base + strstart + lookahead
      modifies this`matchStart
      ensures var best := old(Found(hashHead, Turns(ChainLength()), Best(prevLength, matchStart)));
        matchStart == best.start && len == if best.len <= lookahead then best.len else lookahead
      ensures len > prevLength ==>
          len <= MAX_MATCH && MatchAt(stream, base + strstart, strstart - matchStart, len) &&
            strstart - matchStart <= MaxDist()
      ensures len >= Min(prevLength, lookahead)
    {
      hide Chains, HashAt, Slot, Loaded, Common, MatchAt, Search;
      var chain, cur, best := ChainLength(), hashHead, prevLength;
      var limit, nice := Limit(), Nice();
      ghost var w, prevs := window[..], prev[..];
      ghost var want := Found(hashHead, Turns(chain), Best(prevLength, matchStart));
      while true
        invariant Candidate(cur) && prevLength <= best <= MAX_MATCH
        invariant best > prevLength ==> 0 <= matchStart < strstart && strstart - matchStart <= MaxDist()
        invariant best > prevLength ==> best == Common(w, strstart, matchStart, 0)
        invariant want == Search(w, prevs, wbits, strstart, limit, nice, cur, Turns(chain), Best(best, matchStart))
        decreases Turns(chain)
      {
        var n := Measure(cur, best);
        NextCandidate(cur);
        SearchStep(w, prevs, wbits, strstart, limit, nice, cur, Turns(chain), Best(best, matchStart));
        if n > best {
          matchStart := cur;
          best := n;
          if n >= nice { break; }
        }
        cur := prev[Slot(wbits, cur)];
        if cur <= limit { break; }
        chain := if chain == 0 then 0xffff_ffff else chain - 1;
        if chain == 0 { break; }
      }
      len := if best <= lookahead then best else lookahead;
      if len > prevLength {
        CommonIsMatch(w, stream, base, strstart + lookahead, strstart, matchStart, len);
      }
    }

    /** INSERT_STRING: the string at str becomes the head of its chain; the old head is its link. */
    method InsertString(str: nat) returns (hashHead: nat)
      requires Shape() && Held() && Linked() && RolledAt(str)
      requires top <= base + str && base + str + 2 < |stream|
      modifies `insH, `ins, `top, head, prev
      ensures Linked() && ins == old(ins) + {base + str} && top == base + str + 1
      ensures insH == Update(hashBits, old(insH), window[str + 2]) && RolledAt(str + 1)
      ensures hashHead != 0 ==> (base + hashHead) in old(ins) && base + hashHead < base + str
      ensures hashHead != 0 ==> HashAt(hashBits, stream, base + hashHead) == HashAt(hashBits, stream, base + str)
      ensures base + hashHead == Prior(hashBits, stream, ins, base, HashAt(hashBits, stream, base + str), base + str)
      ensures old(Complete(base + str)) ==> Complete(base + str + 1)
    {
      hide Hash3, Slot, Update, PrevsOk, Rolled, Prior, HashAt;
      ghost var heads: seq<nat>, prevs: seq<nat> := head[..], prev[..];
      HashHere(str);
      insH := Update(hashBits, insH, window[str + 2]);
      InsertKeeps(hashBits, wbits, stream, base, heads, prevs, ins, top, str, insH);
      PriorInsert(hashBits, stream, ins, base, insH, top, base + str);
      hashHead := head[insH];
      prev[Slot(wbits, str)] := head[insH];
      head[insH] := str;
      assert head[..] == heads[insH := str] && prev[..] == prevs[Slot(wbits, str) := heads[insH]];
      ins := ins + {base + str};
      top := base + str + 1;
    }

    /** Rolling in one more byte gives the hash of the three bytes at str. */
    lemma HashHere(str: nat)
      requires Shape() && Held() && RolledAt(str) && base + str + 2 < |stream|
      ensures str + 2 < window.Length
      ensures Update(hashBits, insH, window[str + 2]) == HashAt(hashBits, stream, base + str)
      ensures Rolled(hashBits, Update(hashBits, insH, window[str + 2]), window[str + 1], window[str + 2])
    {
      hide Hash3, Update, Rolled;
      var n, w := |stream| - base, window[..];
      RollNext(hashBits, insH, window[str], window[str + 1], window[str + 2]);
      assert w[..n][str] == stream[base..][str] && w[..n][str + 1] == stream[base..][str + 1] &&
        w[..n][str + 2] == stream[base..][str + 2];
    }

    /** What fill_window() does to the arrays to make room: all is as before, seen from a later base. */
    method SlideArrays()
      requires Shape() && Held() && Linked() && wsize <= strstart
      requires strstart + lookahead == |stream| - base <= window.Length
      modifies window, head, prev
      ensures Loaded(window[..], stream, base + wsize, |stream| - base - wsize)
      ensures Chains(hashBits, wbits, stream, base + wsize, head[..], prev[..], ins, top)
      ensures lookahead >= MIN_MATCH ==> window[strstart - wsize] == old(window[strstart])
      ensures lookahead >= MIN_MATCH ==> window[strstart - wsize + 1] == old(window[strstart + 1])
    {
      hide Chains, Loaded, Slid;
      SlideKeeps(hashBits, wbits, stream, base, head[..], prev[..], ins, top);
      MoveDown(window, wsize, strstart + lookahead - wsize);
      WindowSlid(old(window[..]), window[..], stream, base, wsize, strstart, lookahead);
      SlideTable(head, wsize);
      SlideTable(prev, wsize);
    }

    /** The first half of a turn of fill_window(): move the upper half of the window down. Seen in stream
        positions nothing moves. */
    method Slide()
      requires Shape() && Dictionary() && strstart >= wsize + MaxDist()
      modifies `strstart, `matchStart, `blockStart, `insert, `base, window, head, prev
      ensures Dictionary() && Now() == old(Now()) && strstart == old(strstart) - wsize <= wsize && insert == old(insert)
    {
      hide Chains, Rolled, Pow2, Loaded;
      SlideArrays();
      matchStart := matchStart - wsize;
      strstart := strstart - wsize;
      blockStart := blockStart - wsize;
      insert := Min(insert, strstart);
      base := base + wsize;
    }

    /** read_buf() into the free end of the window. */
    method ReadBuf() returns (n: nat)
      requires Shape() && Stored()
      modifies `lookahead, `input, `stream, window
      ensures Stored() && n <= |old(input)| && lookahead == old(lookahead) + n
      ensures stream == old(stream) + old(input)[..n] && input == old(input)[n..]
      ensures input == [] || strstart + lookahead == window.Length
      ensures old(Whole() && Ready()) ==> Whole()
    {
      hide Chains, Loaded, Pow2;
      var at := strstart + lookahead;
      n := Min(|input|, window.Length - at);
      ghost var data := input[..n];
      CopyIn(window, at, input[..n]);
      WindowGrown(old(window[..]), window[..], stream, base, at, data);
      MoreInput(hashBits, wbits, stream, data, base, head[..], prev[..], ins, top);
      stream := stream + data;
      lookahead := lookahead + n;
      input := input[n..];
    }

    /** Starts the rolling hash again once there is input and inserts the positions left over from
        the end of the previous input. */
    method Reinsert()
      requires Shape() && Stored()
      modifies `insert, `insH, `ins, `top, head, prev
      ensures Dictionary() && (old(Whole()) ==> Whole()) && (old(Ready()) ==> Ready())
    {
      hide Chains, Loaded, Pow2, Update, Rolled, Prior, HashAt;
      if lookahead + insert >= MIN_MATCH {
        var str := strstart - insert;
        RollStart(hashBits, window[str], window[str + 1]);
        insH := window[str];
        insH := Update(hashBits, insH, window[str + 1]);
        while insert > 0
          invariant Stored() && str == strstart - insert && RolledAt(str) && lookahead + insert >= MIN_MATCH - 1
          invariant insert > 0 ==> lookahead + insert >= MIN_MATCH
          invariant old(Whole()) ==> Whole()
          decreases insert
        {
          var _ := InsertString(str);
          str := str + 1;
          insert := insert - 1;
          if lookahead + insert < MIN_MATCH { break; }
        }
      }
    }

    /** The second half of a turn of fill_window(): read and bring the dictionary up to date. */
    method Refill()
      requires Shape() && Dictionary() && Faithful(Now(), MaxDist()) && strstart + lookahead < window.Length
      requires input != []
      modifies `insert, `lookahead, `input, `stream, `insH, `ins, `top, window, head, prev
      ensures Dictionary() && Faithful(Now(), MaxDist())
      ensures stream + input == old(stream + input) && lookahead + |input| == old(lookahead + |input|)
      ensures |input| < |old(input)|
      ensures old(Decided()) ==> Decided()
      ensures old(Whole() && Ready()) ==> Whole()
      ensures old(Ready()) ==> Ready()
    {
      hide Chains, Rolled, Pow2, Loaded, Faithful, Eager, Complete;
      ghost var was, all := Now(), input;
      var n := ReadBuf();
      FaithfulMore(was, MaxDist(), all[..n]);
      if old(Decided()) { EagerMore(Tune(), was, looks, all[..n]); }
      assert was.stream + all == was.stream + all[..n] + all[n..];
      Reinsert();
    }

    /** Slides if the window is nearly full. */
    method MakeRoom()
      requires Shape() && Dictionary() && Faithful(Now(), MaxDist())
      modifies `strstart, `matchStart, `blockStart, `insert, `base, window, head, prev
      ensures Dictionary() && Now() == old(Now()) && insert == old(insert) && strstart < wsize + MaxDist()
    {
      hide Stored, RolledAt, Faithful, Pow2, HashSize;
      SmallEnough();
      if strstart >= wsize + MaxDist() { Slide(); }
    }

    lemma SmallEnough()
      requires Shape() && Dictionary()
      ensures strstart + lookahead <= 2 * wsize && MaxDist() >= 250
    {
      hide Chains, Rolled, Loaded, Pow2, HashSize;
    }

    /** The invariants of filling, without the record of blocks. */
    ghost predicate Filling()
      reads `stream, `base, `ins, `top, `strstart, `lookahead, `insert, `insH, window, head, prev
      reads `blockStart, `flushed, `symBuf, `matchAvailable, `matchLength, `matchStart
    {
      Shape() && Dictionary() && Faithful(Now(), MaxDist())
    }

    /** One turn of the loop of fill_window(). */
    method FillTurn()
      requires Filling() && lookahead < MIN_LOOKAHEAD
      modifies `strstart, `matchStart, `blockStart, `insert, `base, `lookahead, `input, `stream, `insH, `ins, `top,
        window, head, prev
      ensures Filling() && Now() == old(Now()).(stream := stream) && strstart < wsize + MaxDist()
      ensures stream + input == old(stream + input) && lookahead + |input| == old(lookahead + |input|)
      ensures old(input) == [] ==> input == [] && stream == old(stream)
      ensures old(input) != [] ==> |input| < |old(input)|
      ensures old(Decided()) ==> Decided()
      ensures old(Whole() && (Ready() || input == [])) ==> Whole() && (Ready() || input == [])
      ensures old(Ready()) ==> Ready()
    {
      hide Stored, RolledAt, Faithful, Pow2, HashSize, Eager, Complete;
      MakeRoom();
      SmallEnough();
      if input != [] { Refill(); }
    }

    /** fill_window(): slide if the window is nearly full, then read, until there is enough lookahead
        or no input. */
    method FillWindow()
      requires Valid() && lookahead < MIN_LOOKAHEAD
      modifies `strstart, `matchStart, `blockStart, `insert, `base, `lookahead, `input, `stream, `insH, `ins, `top,
        window, head, prev
      ensures Valid() && Now() == old(Now()).(stream := stream)
      ensures stream + input == old(stream + input) && lookahead + |input| == old(lookahead + |input|)
      ensures strstart + MIN_LOOKAHEAD <= window.Length && (lookahead >= MIN_LOOKAHEAD || input == [])
      ensures old(Decided()) ==> Decided()
      ensures old(Whole() && (Ready() || input == [])) ==> Whole() && (Ready() || input == [])
      ensures old(Ready()) ==> Ready()
    {
      hide Shape, Dictionary, Faithful, Logged, Eager, Complete, Ready, Whole;
      while true
        invariant Filling() && lookahead < MIN_LOOKAHEAD && Now() == old(Now()).(stream := stream)
        invariant old(Decided()) ==> Decided()
        invariant old(Whole() && (Ready() || input == [])) ==> Whole() && (Ready() || input == [])
        invariant old(Ready()) ==> Ready()
        invariant stream + input == old(stream + input) && lookahead + |input| == old(lookahead + |input|)
        decreases |input|
      {
        var none := input == [];
        FillTurn();
        if none || lookahead >= MIN_LOOKAHEAD || input == [] { break; }
      }
      Sizes();
    }

    lemma Sizes()
      requires Shape()
      ensures window.Length == 2 * wsize <= 65536 && wsize >= 512
    {
    }

    /** As Dictionary(), with the string at strstart inserted if it is long enough. */
    ghost predicate Entered()
      reads `stream, `base, `ins, `top, `strstart, `lookahead, `insert, `insH, window, head, prev
    {
      && Held() && Linked() && strstart + lookahead <= window.Length && |stream| == base + strstart + lookahead
      && insert <= 2 && insert <= strstart && top + insert <= base + strstart + 1
      && (top > 0 ==> top + 2 <= |stream|) && (base > 0 ==> wsize <= strstart + MIN_LOOKAHEAD)
      && (insert == 0 || lookahead + insert < MIN_MATCH) && (lookahead >= MIN_MATCH ==> RolledAt(strstart + 1))
    }

    /** The progress before the current turn, the old match having moved to prev_length and prev_match. */
    ghost function Before(): Progress
      reads `stream, `base, `strstart, `blockStart, `flushed, `symBuf, `matchAvailable, `prevLength, `prevMatch
    {
      Progress(stream, base + strstart, base + blockStart, flushed, symBuf, matchAvailable, prevLength,
        strstart - 1 - prevMatch)
    }

    /** The latest position before strstart with the same hash, or NIL. */
    ghost predicate Heads(hashHead: nat)
      reads `stream, `base, `ins, `strstart
      requires base + strstart + 2 < |stream|
    {
      var p := base + strstart;
      base + hashHead == Prior(hashBits, stream, ins, base, HashAt(hashBits, stream, p), p)
    }

    /** Inserts the string at strstart if it has three bytes; the old head of its chain is a candidate. */
    method EnterString() returns (hashHead: nat)
      requires Shape() && Dictionary()
      modifies `insH, `ins, `top, head, prev
      ensures Entered() && old(ins) <= ins
      ensures hashHead != 0 ==> lookahead >= MIN_MATCH && top == base + strstart + 1
      ensures hashHead != 0 && strstart <= hashHead + MaxDist() ==> Candidate(hashHead)
      ensures lookahead >= MIN_MATCH ==> top == base + strstart + 1 && Heads(hashHead)
      ensures old(Whole()) ==> Complete(base + strstart + 1 - insert)
    {
      hide Chains, Rolled, Pow2, Loaded, HashAt, Prior;
      hashHead := 0;
      if lookahead >= MIN_MATCH { hashHead := InsertString(strstart); }
    }

    /** The look at strstart. */
    ghost function Glance(): L.Look
      reads `stream, `base, `ins, `strstart, `prevLength, `matchLength, `matchStart
    {
      L.Look(|stream|, base, ins, prevLength, matchLength, strstart - matchStart)
    }

    ghost function Sight(): L.View
      reads `stream, `base, `ins, `strstart, window, head, prev
    {
      L.View(window[..], wbits, stream, base, head[..], prev[..], ins, strstart)
    }

    lemma Sights(hashHead: nat)
      requires Shape() && Entered() && lookahead >= MIN_MATCH && top == base + strstart + 1 && Heads(hashHead)
      ensures L.Sighted(Tune(), Sight(), Glance(), hashHead)
    {
      hide Chains, Rolled, Pow2, Loaded, Prior, HashAt;
    }

    /** The search of longest_match() in the terms of a look. */
    lemma SameSearch(hashHead: nat, best: Best)
      requires Shape() && L.Sighted(Tune(), Sight(), Glance(), hashHead) && |stream| == base + strstart + lookahead
      ensures Found(hashHead, Turns(ChainLength()), best) == L.Searched(Tune(), Sight(), Glance(), hashHead, best)
    {
      hide Search, L.Sighted;
    }

    /** The first candidate is the head of the chain. */
    lemma HeadNear(hashHead: nat)
      requires Shape() && base + strstart + 2 < |stream| && Heads(hashHead)
      ensures L.Near(Tune(), stream, Glance(), base + strstart, 0) <==>
              hashHead != 0 && strstart - hashHead <= MaxDist()
    {
      hide Prior, HashAt, Pow2;
    }

    /** No look: there is nothing in reach, or the waiting match is long enough. */
    lemma NoLook()
      requires prevLength >= 2 && matchLength == 2
      requires prevLength >= maxLazy || base + strstart + 2 >= |stream| ||
        !L.Near(Tune(), stream, Glance(), base + strstart, 0)
      ensures L.Sought(Tune(), stream, Glance(), base + strstart)
    {
      hide L.Near, L.NoLonger, L.Finds, L.Drops;
      if prevLength < maxLazy { L.NoneNear(Tune(), stream, Glance(), base + strstart, prevLength); }
    }

    /** What a look gives: the search found something longer, kept or dropped, or it did not. */
    lemma LookedFor(hashHead: nat, best: Best, len: nat)
      requires Shape() && prevLength >= 2 && prevLength < maxLazy && best.len == prevLength
      requires L.Sighted(Tune(), Sight(), Glance(), hashHead) && L.Near(Tune(), stream, Glance(), base + strstart, 0)
      requires len == L.Cut(L.Searched(Tune(), Sight(), Glance(), hashHead, best).len, |stream| - (base + strstart))
      requires matchStart == L.Searched(Tune(), Sight(), Glance(), hashHead, best).start
      requires matchLength == if L.Dropped(Tune(), len, strstart - matchStart) then 2 else len
      ensures matchLength >= 2 ==> L.Sought(Tune(), stream, Glance(), base + strstart)
    {
      hide L.Near, L.Cand, L.Length, L.Found, L.NoLonger, L.Sighted, L.Searched, L.Dropped;
      ghost var t, v, k, p := Tune(), Sight(), Glance(), base + strstart;
      if len > prevLength {
        var i := L.SearchFinds(t, v, k, hashHead, best);
        if L.Dropped(t, len, strstart - matchStart) {
          assert L.Discarded(t, stream, k, p, i);
        } else {
          assert L.Kept(t, stream, k, p, i);
        }
      } else {
        L.SearchFails(t, v, k, hashHead, best);
      }
    }

    /** Looks for a match along the chain and drops it if it is too short. */
    method SearchFor(hashHead: nat)
      requires Shape() && Entered() && strstart + MIN_LOOKAHEAD <= window.Length
      requires MIN_MATCH - 1 <= prevLength <= MAX_MATCH && prevLength < maxLazy && lookahead >= MIN_MATCH
      requires top == base + strstart + 1 && Heads(hashHead) && Candidate(hashHead)
      modifies `matchLength, `matchStart
      ensures matchLength >= MIN_MATCH - 1
      ensures matchLength > prevLength ==> Matched(stream, base + strstart, strstart - matchStart, matchLength,
        MaxDist())
      ensures L.Sought(Tune(), stream, Glance(), base + strstart)
    {
      hide Chains, Rolled, Pow2, Loaded, MatchAt, HashAt, Search, Prior, L.Sought, L.Sighted, L.Near, Heads, Entered;
      ghost var best := Best(prevLength, matchStart);
      ByEntered();
      matchLength := LongestMatch(hashHead);
      ghost var len := matchLength;
      if matchLength <= 5 && (filtered || (matchLength == MIN_MATCH && strstart - matchStart > TOO_FAR)) {
        matchLength := MIN_MATCH - 1;
      }
      Sights(hashHead);
      HeadNear(hashHead);
      SameSearch(hashHead, best);
      LookedFor(hashHead, best, len);
    }

    lemma ByEntered()
      requires Entered()
      ensures Held() && Linked() && |stream| == base + strstart + lookahead
    {
    }

    /** Looks for a match longer than the one at the previous position. */
    method LookFor(hashHead: nat)
      requires Poised(hashHead)
      modifies `matchLength, `matchStart
      ensures matchLength >= MIN_MATCH - 1
      ensures matchLength > prevLength ==> Matched(stream, base + strstart, strstart - matchStart, matchLength,
        MaxDist())
      ensures L.Sought(Tune(), stream, Glance(), base + strstart)
    {
      hide MatchAt, Prior, L.Sought, L.Near, Heads, Entered, Candidate, Pow2, HashSize;
      ByEntered();
      matchLength := MIN_MATCH - 1;
      if hashHead != 0 && prevLength < maxLazy && strstart - hashHead <= MaxDist() {
        SearchFor(hashHead);
      } else {
        if lookahead >= MIN_MATCH { HeadNear(hashHead); }
        NoLook();
      }
    }

    /** What looking for a match starts from. */
    ghost predicate Poised(hashHead: nat)
      reads `stream, `base, `ins, `top, `strstart, `lookahead, `insert, `insH, `prevLength, window, head, prev
    {
      && Shape() && Entered() && strstart + MIN_LOOKAHEAD <= window.Length && MIN_MATCH - 1 <= prevLength <= MAX_MATCH
      && (hashHead != 0 ==> lookahead >= MIN_MATCH && top == base + strstart + 1)
      && (hashHead != 0 && strstart <= hashHead + MaxDist() ==> Candidate(hashHead))
      && (lookahead >= MIN_MATCH ==> top == base + strstart + 1 && Heads(hashHead))
    }

    /** Inserts the string at strstart and puts the last match aside. */
    method StartTurn() returns (hashHead: nat)
      requires Valid() && lookahead > 0 && strstart + MIN_LOOKAHEAD <= window.Length
      modifies `insH, `ins, `top, `prevLength, `prevMatch, head, prev
      ensures Poised(hashHead) && Before() == old(Now())
      ensures old(Whole()) ==> Complete(base + strstart + 1 - insert)
    {
      hide Faithful, Logged, HashSize, Pow2, Stored, RolledAt, Candidate, Heads, Complete;
      FloorLow();
      hashHead := EnterString();
      prevLength, prevMatch := matchLength, matchStart;
    }

    /** The first part of a turn of deflate_slow(): insert the string at strstart and look for a match. */
    method FindMatch()
      requires Valid() && lookahead > 0 && strstart + MIN_LOOKAHEAD <= window.Length
      modifies `insH, `ins, `top, `prevLength, `prevMatch, `matchLength, `matchStart, `looks, head, prev
      ensures Entered() && Before() == old(Now()) && matchLength >= MIN_MATCH - 1
      ensures matchLength > prevLength ==> Matched(stream, base + strstart, strstart - matchStart, matchLength,
        MaxDist())
      ensures NextLook(Tune(), Before(), Glance()) && looks == old(looks)[base + strstart := Glance()] && Looked()
      ensures old(Whole()) ==> Complete(base + strstart + 1 - insert)
    {
      hide Faithful, Logged, HashSize, Pow2, MatchAt, Dictionary, Entered, Candidate, L.Sought, Heads, Complete, Whole;
      hide L.AllBefore;
      FloorLow();
      var hashHead := StartTurn();
      NoGap();
      LookFor(hashHead);
      looks := looks[base + strstart := Glance()];
    }

    lemma NoGap()
      requires Entered()
      ensures Complete(base + strstart + 1 - insert) && base + strstart + 2 < |stream| ==>
              L.AllBefore(ins, base + strstart)
    {
      hide Chains, Rolled, Pow2, Loaded;
    }

    /** One more look, at the old strstart and over all the input there was. */
    twostate predicate Looked()
      reads `looks, `stream
    {
      var p := old(base + strstart);
      && p in looks && looks == old(looks)[p := looks[p]] && looks[p].seen == |stream|
      && (old(Whole()) && p + 2 < |stream| ==> L.AllBefore(looks[p].dict, p))
    }

    lemma FloorLow()
      requires Valid() && lookahead > 0
      ensures base == 0 || base + (wsize - 262) <= base + strstart
      ensures base + strstart < |stream| && MIN_MATCH - 1 <= matchLength <= MAX_MATCH
    {
      hide Chains, Rolled, Pow2, Loaded, Tallied, MatchAt;
    }

    /** Inserted up to strstart, strings beyond maxInsert having too few bytes. */
    ghost predicate Inside(maxInsert: nat)
      reads `stream, `base, `ins, `top, `strstart, `insert, `insH, window, head, prev
    {
      && Held() && Linked() && base + maxInsert + MIN_MATCH == |stream|
      && top + insert <= base + strstart + 1 && (top > 0 ==> top + 2 <= |stream|)
      && (strstart <= maxInsert ==> insert == 0 && RolledAt(strstart + 1))
    }

    /** The loop that inserts the strings inside an emitted match. */
    method InsertRun(maxInsert: nat)
      requires Shape() && Inside(maxInsert) && prevLength >= 1
      modifies `strstart, `prevLength, `insH, `ins, `top, head, prev
      ensures Inside(maxInsert) && strstart == old(strstart + prevLength)
      ensures old(Complete(base + strstart + 1)) ==> Complete(base + strstart + 1)
    {
      hide Chains, Rolled, Pow2, Loaded, Prior, HashAt;
      while true
        invariant Inside(maxInsert) && prevLength >= 1 && strstart + prevLength == old(strstart + prevLength)
        invariant old(Complete(base + strstart + 1)) ==> Complete(base + strstart + 1)
        decreases prevLength
      {
        strstart := strstart + 1;
        if strstart <= maxInsert { var _ := InsertString(strstart); }
        prevLength := prevLength - 1;
        if prevLength == 0 { break; }
      }
    }

    /** Inserts the strings inside an emitted match and moves behind it. */
    method PassMatch()
      requires Shape() && Entered() && MIN_MATCH <= prevLength <= lookahead + 1 && strstart >= 1
      modifies `strstart, `lookahead, `prevLength, `insH, `ins, `top, head, prev
      ensures Dictionary() && strstart == old(strstart + prevLength) - 1 && lookahead == old(lookahead - prevLength) + 1
      ensures old(Complete(base + strstart + 1 - insert)) ==> Whole()
    {
      hide Chains, Rolled, Pow2, Loaded;
      var maxInsert := strstart + lookahead - MIN_MATCH;
      lookahead := lookahead - (prevLength - 1);
      prevLength := prevLength - 2;
      InsertRun(maxInsert);
      strstart := strstart + 1;
    }

    /** All symbols tallied. */
    ghost function All(): seq<Sym>
      reads `flushed, `symBuf
    {
      flushed + symBuf
    }

    /** FLUSH_BLOCK_ONLY: hands the block to _tr_flush_block(). Its symbols expand, after what came before,
        to the same bytes as the buffer offered for a stored block. */
    method FlushBlock(last: bool)
      requires Shape() && Held() && Logged() && strstart <= 65535 && (base > 0 ==> wsize <= strstart + MIN_LOOKAHEAD)
      requires Tallied(flushed + symBuf, stream, base + strstart) && Tallied(flushed, stream, base + blockStart)
      modifies `flushed, `symBuf, `blocks, `blockStart, `ended
      ensures symBuf == [] && blockStart == strstart && flushed == old(flushed + symBuf) && Logged()
      ensures ended == (old(ended) || last) && (last && !old(ended) ==> Closed(blocks))
      ensures |blocks| == old(|blocks|) + 1 && (blocks[|blocks| - 1].raw.Bytes? <==> old(blockStart) >= 0)
      ensures blocks[..|blocks| - 1] == old(blocks) && blocks[|blocks| - 1].syms == old(symBuf)
      ensures blocks[|blocks| - 1].last == last && All() == old(All())
    {
      hide Tallied, Continues, Recorded, Cat, Loaded;
      TalliedOrder(flushed, symBuf, stream, base + blockStart, base + strstart);
      var raw := Gone;
      if blockStart >= 0 {
        LoadedSlice(window[..], stream, base, |stream| - base, blockStart, strstart);
        assert window[..][blockStart..strstart] == window[blockStart..strstart];
        raw := Bytes(window[blockStart..strstart]);
      }
      var b := Flushed(symBuf, raw, strstart - blockStart, last);
      BlockContinues(flushed, b, stream, base + blockStart, base + strstart);
      Record(blocks, b);
      assert (blocks + [b])[..|blocks|] == blocks;
      blocks := blocks + [b];
      ended := ended || last;
      flushed := flushed + symBuf;
      symBuf := [];
      blockStart := strstart;
    }

    /** The waiting match is output: tally it and move behind it. */
    method EmitMatch() returns (full: bool)
      requires Shape() && Entered() && Faithful(Before(), MaxDist()) && prevLength >= MIN_MATCH && |symBuf| < symEnd
      modifies `strstart, `lookahead, `prevLength, `insH, `ins, `top, `symBuf, `matchAvailable, `matchLength, head, prev
      ensures Dictionary() && Faithful(Now(), MaxDist()) && !matchAvailable && lookahead < old(lookahead)
      ensures strstart < old(strstart) + MAX_MATCH && |symBuf| <= symEnd && full == (|symBuf| == symEnd)
      ensures matchLength == 2 && strstart == old(strstart + prevLength) - 1 && old(strstart - 1 - prevMatch) >= 1
      ensures All() == old(All()) + [Pair(old(strstart - 1 - prevMatch), old(prevLength) - 3)]
      ensures lookahead == old(lookahead - prevLength) + 1
      ensures old(Complete(base + strstart + 1 - insert)) ==> Whole()
    {
      hide Chains, Rolled, Pow2, Loaded, Tallied, Stored, HashSize, Complete;
      FaithfulPair(Before(), MaxDist(), strstart + prevLength - 2 - matchStart);
      symBuf := symBuf + [Pair(strstart - 1 - prevMatch, prevLength - MIN_MATCH)];
      full := |symBuf| == symEnd;
      PassMatch();
      matchAvailable := false;
      matchLength := MIN_MATCH - 1;
    }

    /** Moving on by one byte. */
    method Advance()
      requires Shape() && Entered() && lookahead > 0
      modifies `strstart, `lookahead
      ensures Dictionary() && strstart == old(strstart) + 1 && lookahead == old(lookahead) - 1
      ensures old(Complete(base + strstart + 1 - insert)) ==> Whole()
    {
      hide Chains, Rolled, Pow2, Loaded;
      strstart := strstart + 1;
      lookahead := lookahead - 1;
    }

    lemma ByteAt(i: nat)
      requires Held() && base + i < |stream|
      ensures i < window.Length && window[i] == stream[base + i]
    {
      var n, w := |stream| - base, window[..];
      assert w[..n][i] == stream[base..][i];
    }

    /** Tallies the byte before strstart. */
    method TallyLiteral()
      requires wsize >= MIN_LOOKAHEAD && Held() && Faithful(Before(), MaxDist()) && matchAvailable
      requires 1 <= strstart <= |stream| - base
      modifies `symBuf
      ensures Faithful(Before().(available := false, len := MIN_MATCH - 1), MaxDist()) && |symBuf| == old(|symBuf|) + 1
      ensures base + strstart - 1 < |stream| && All() == old(All()) + [Lit(stream[base + strstart - 1])]
    {
      hide Loaded, Tallied, MatchAt;
      FaithfulLit(Before(), MaxDist());
      ByteAt(strstart - 1);
      symBuf := symBuf + [Lit(window[strstart - 1])];
      assert flushed + symBuf == old(flushed + symBuf) + [Lit(window[strstart - 1])];
    }

    /** The blocks are as before, or one full block more. */
    twostate predicate OneMore()
      reads `blocks
    {
      || blocks == old(blocks)
      || (|blocks| == |old(blocks)| + 1 && blocks[..|old(blocks)|] == old(blocks) && Full(blocks[|old(blocks)|]))
    }

    predicate Full(b: Flushed) { |b.syms| == symEnd && !b.last }

    /** Flushes the block if its buffer is full. */
    method FlushFull()
      requires wsize >= MIN_LOOKAHEAD && Held()
      requires Faithful(Before().(available := false, len := MIN_MATCH - 1), MaxDist())
      requires Shape() && Logged() && strstart <= 65535 && 1 <= |symBuf| <= symEnd
      requires base > 0 ==> wsize <= strstart + MIN_LOOKAHEAD
      modifies `symBuf, `flushed, `blocks, `ended, `blockStart
      ensures Faithful(Before().(available := false, len := MIN_MATCH - 1), MaxDist()) && |symBuf| < symEnd && Logged()
      ensures ended == old(ended) && All() == old(All()) && OneMore()
    {
      hide Loaded, Tallied, MatchAt, SymsOk, Expand, Logged;
      if |symBuf| == symEnd {
        FaithfulFlush(Before().(available := false, len := MIN_MATCH - 1), MaxDist());
        FlushBlock(false);
      }
    }

    /** Outputs the byte before strstart as a literal. */
    method OutputLiteral()
      requires Shape() && Entered() && Faithful(Before(), MaxDist()) && matchAvailable && |symBuf| < symEnd
      requires Logged() && strstart + MIN_LOOKAHEAD <= window.Length
      modifies `symBuf, `flushed, `blocks, `ended, `blockStart
      ensures Faithful(Before().(available := false, len := MIN_MATCH - 1), MaxDist()) && |symBuf| < symEnd
      ensures Logged() && ended == old(ended) && OneMore()
      ensures base + strstart - 1 < |stream| && All() == old(All()) + [Lit(stream[base + strstart - 1])]
    {
      hide Chains, Rolled, Pow2, Loaded, HashSize, Tallied, MatchAt, SymsOk, Expand, Logged, RolledAt;
      TallyLiteral();
      FlushFull();
    }

    /** The previous byte is output as a literal; a longer match at this position waits. */
    method EmitLiteral()
      requires Shape() && Entered() && Faithful(Before(), MaxDist()) && matchAvailable && |symBuf| < symEnd
      requires lookahead > 0
      requires Logged() && strstart + MIN_LOOKAHEAD <= window.Length
      requires Matched(stream, base + strstart, strstart - matchStart, matchLength, MaxDist())
      modifies `strstart, `lookahead, `symBuf, `flushed, `blocks, `ended, `blockStart
      ensures Valid() && lookahead == old(lookahead) - 1 && ended == old(ended) && strstart == old(strstart) + 1
      ensures OneMore() && exists b: byte :: All() == old(All()) + [Lit(b)]
      ensures old(Complete(base + strstart + 1 - insert)) ==> Whole()
    {
      hide Chains, Rolled, Pow2, Loaded, HashSize, Tallied, MatchAt, SymsOk, Expand, Logged, Complete;
      OutputLiteral();
      FaithfulStep(Before().(available := false, len := MIN_MATCH - 1), MaxDist(), matchLength, strstart - matchStart);
      Advance();
    }

    /** Nothing to compare with yet: wait for the next position. */
    method Wait()
      requires Shape() && Entered() && Faithful(Before(), MaxDist()) && !matchAvailable && |symBuf| < symEnd
      requires lookahead > 0 && Logged()
      requires Matched(stream, base + strstart, strstart - matchStart, matchLength, MaxDist())
      modifies `strstart, `lookahead, `matchAvailable
      ensures Valid() && lookahead == old(lookahead) - 1 && strstart == old(strstart) + 1 && matchAvailable
      ensures old(Complete(base + strstart + 1 - insert)) ==> Whole()
    {
      hide Chains, Rolled, Pow2, Loaded, HashSize, Tallied, MatchAt, Complete;
      FaithfulStep(Before(), MaxDist(), matchLength, strstart - matchStart);
      matchAvailable := true;
      Advance();
    }

    /** Outputs the waiting match and flushes the block if its buffer is full. */
    method OutputMatch() returns (full: bool)
      requires Shape() && Entered() && Faithful(Before(), MaxDist()) && prevLength >= MIN_MATCH && |symBuf| < symEnd
      requires Logged() && strstart + MIN_LOOKAHEAD <= window.Length
      modifies `strstart, `lookahead, `prevLength, `insH, `ins, `top, `symBuf, `matchAvailable, `matchLength,
               `flushed, `blocks, `ended, `blockStart, head, prev
      ensures Valid() && lookahead < old(lookahead) && ended == old(ended) && OneMore()
      ensures !matchAvailable && matchLength == 2 && old(strstart - 1 - prevMatch) >= 1
      ensures strstart == old(strstart + prevLength) - 1 && lookahead == old(lookahead - prevLength) + 1
      ensures All() == old(All()) + [Pair(old(strstart - 1 - prevMatch), old(prevLength) - 3)]
      ensures old(Complete(base + strstart + 1 - insert)) ==> Whole()
    {
      hide Chains, Rolled, Pow2, Loaded, HashSize, Tallied, MatchAt, SymsOk, Expand, Entered, Logged, Complete;
      full := EmitMatch();
      if full {
        FaithfulFlush(Now(), MaxDist());
        FlushBlock(false);
      }
    }

    /** A look has been taken and added to those before. */
    ghost predicate Aware(was: map<nat, L.Look>)
      reads `stream, `base, `ins, `top, `strstart, `lookahead, `insert, `insH, window, head, prev
      reads `blockStart, `flushed, `symBuf, `blocks, `ended, `matchAvailable, `matchLength, `matchStart, `prevLength,
            `prevMatch, `looks
    {
      && Shape() && Entered() && Faithful(Before(), MaxDist()) && |symBuf| < symEnd && Logged() && lookahead > 0
      && strstart + MIN_LOOKAHEAD <= window.Length && Eager(Tune(), Before(), was)
      && NextLook(Tune(), Before(), Glance()) && looks == was[base + strstart := Glance()]
    }

    /** The waiting match is taken: nothing longer was found. */
    method TakeMatch(room: bool, ghost was: map<nat, L.Look>) returns (stop: bool)
      requires Aware(was) && prevLength >= MIN_MATCH && matchLength <= prevLength
      modifies `strstart, `lookahead, `prevLength, `insH, `ins, `top, `symBuf, `matchAvailable, `matchLength,
               `flushed, `blocks, `ended, `blockStart, head, prev
      ensures Valid() && Decided() && lookahead < old(lookahead) <= lookahead + 257 && ended == old(ended) && OneMore()
      ensures (room ==> !stop) && (old(Complete(base + strstart + 1 - insert)) ==> Whole())
    {
      hide Faithful, Shape, Dictionary, Entered, Logged, Eager, NextLook, Complete, Whole;
      ghost var k, p, t := Glance(), Before(), Tune();
      Waits();
      var full := OutputMatch();
      stop := full && !room;
      EagerPair(t, p, was, k, Now());
    }

    /** The match that waits is a true one. */
    lemma Waits()
      requires Shape() && Faithful(Before(), MaxDist()) && prevLength >= MIN_MATCH
      ensures matchAvailable && prevLength <= 258
    {
    }

    /** The byte before is let go and what was found here waits. */
    method LetGo(ghost was: map<nat, L.Look>)
      requires Aware(was) && matchAvailable && (prevLength < MIN_MATCH || matchLength > prevLength)
      requires Matched(stream, base + strstart, strstart - matchStart, matchLength, MaxDist())
      modifies `strstart, `lookahead, `symBuf, `flushed, `blocks, `ended, `blockStart
      ensures Valid() && Decided() && lookahead == old(lookahead) - 1 && ended == old(ended) && OneMore()
      ensures old(Complete(base + strstart + 1 - insert)) ==> Whole()
    {
      hide Faithful, Dictionary, Entered, Logged, Eager, NextLook, Complete, Whole, Matched;
      ghost var k, p, t := Glance(), Before(), Tune();
      EmitLiteral();
      ghost var b: byte :| All() == old(All()) + [Lit(b)];
      EagerWait(t, p, was, k, Now(), b);
    }

    /** What was found here waits. */
    method Defer(ghost was: map<nat, L.Look>)
      requires Aware(was) && !matchAvailable
      requires Matched(stream, base + strstart, strstart - matchStart, matchLength, MaxDist())
      modifies `strstart, `lookahead, `matchAvailable
      ensures Valid() && Decided() && lookahead == old(lookahead) - 1
      ensures old(Complete(base + strstart + 1 - insert)) ==> Whole()
    {
      hide Faithful, Dictionary, Entered, Logged, Eager, NextLook, Complete, Whole, Matched;
      ghost var k, p, t := Glance(), Before(), Tune();
      Wait();
      assert old(All()) + [] == old(All());
      EagerWait(t, p, was, k, Now(), 0);
    }

    /** One turn of deflate_slow() with input at hand. `room` stands for avail_out != 0 whenever it is
        looked at; stop is the early return with need_more. */
    method Turn(room: bool) returns (stop: bool)
      requires Valid() && Decided() && lookahead > 0 && strstart + MIN_LOOKAHEAD <= window.Length
      modifies `strstart, `lookahead, `insH, `ins, `top, `prevLength, `prevMatch, `matchLength, `matchStart,
               `matchAvailable, `symBuf, `flushed, `blocks, `ended, `blockStart, `looks, head, prev
      ensures Valid() && Decided() && lookahead < old(lookahead) <= lookahead + 257 && ended == old(ended)
      ensures (room ==> !stop) && OneMore() && Looked()
      ensures old(Whole()) ==> Whole()
    {
      hide Faithful, Dictionary, Entered, Logged, Eager, NextLook, Complete, Whole, MatchAt, HashSize, Pow2;
      FindMatch();
      NoneWaits();
      ghost var was := old(looks);
      stop := false;
      if prevLength >= MIN_MATCH && matchLength <= prevLength {
        stop := TakeMatch(room, was);
      } else if matchAvailable {
        LetGo(was);
        stop := !room;
      } else {
        Defer(was);
      }
    }

    lemma NoneWaits()
      requires Shape() && Faithful(Before(), MaxDist())
      ensures prevLength >= 2 && (prevLength >= MIN_MATCH ==> matchAvailable)
    {
    }

    /** The end of deflate_slow(), all input having been used: output the last literal and remember the
        last two positions for insertion. */
    method WindUp()
      requires Valid() && lookahead == 0
      modifies `symBuf, `matchAvailable, `insert
      ensures Dictionary() && Faithful(Now(), MaxDist()) && !matchAvailable
      ensures Tallied(flushed + symBuf, stream, |stream|)
      ensures old(Decided()) ==> Decided()
      ensures Ready() && (old(Whole()) ==> Whole()) && |symBuf| <= symEnd && base + strstart == |stream|
    {
      hide Chains, Rolled, Pow2, Loaded, Tallied, Eager;
      if matchAvailable {
        FaithfulLit(Now(), MaxDist());
        ByteAt(strstart - 1);
        symBuf := symBuf + [Lit(window[strstart - 1])];
        matchAvailable := false;
        assert flushed + symBuf == old(flushed + symBuf) + [Lit(window[strstart - 1])];
        if old(Decided()) { EagerLast(Tune(), old(Now()), looks, Now(), window[strstart - 1]); }
      }
      insert := Min(strstart, MIN_MATCH - 1);
    }

    lemma TalliedSoFar()
      requires Valid()
      ensures Prefix(flushed + symBuf, stream + input)
    {
      hide Tallied, Chains, Loaded, Rolled;
      TallyMore(flushed + symBuf, stream, input, base + strstart - if matchAvailable then 1 else 0);
    }

    method FlushAll(last: bool)
      requires Shape() && Dictionary() && Faithful(Now(), MaxDist()) && !matchAvailable && lookahead == 0
      requires Logged() && strstart <= 65535 && Decided()
      modifies `symBuf, `flushed, `blocks, `ended, `blockStart
      ensures Valid() && Decided() && symBuf == [] && Tallied(flushed, stream, |stream|)
      ensures ended == (old(ended) || last) && (last && !old(ended) ==> Closed(blocks))
      ensures blocks != [] && blocks[..|blocks| - 1] == old(blocks) && blocks[|blocks| - 1].syms == old(symBuf)
      ensures blocks[|blocks| - 1].last == last
    {
      hide Chains, Rolled, Pow2, Loaded, MatchAt, SymsOk, Expand, Logged;
      hide L.Watched, L.Lazily, L.Below;
      FaithfulFlush(Now(), MaxDist());
      FlushBlock(last);
    }

    /** The blocks that one call adds: full ones, and at its end possibly a smaller one. */
    ghost predicate Added(was: seq<Flushed>, concluded: bool)
      reads `blocks
    {
      && was <= blocks && (forall i :: |was| <= i < |blocks| - 1 ==> Full(blocks[i]))
      && (!concluded && |was| < |blocks| ==> Full(blocks[|blocks| - 1]))
      && (|was| < |blocks| ==> |blocks[|blocks| - 1].syms| <= symEnd)
    }

    /** The end of deflate_slow(): flush what is left of the current block. */
    method Conclude(flush: Flush, room: bool, ghost ends: set<nat>) returns (result: BlockState)
      requires Valid() && Decided() && lookahead == 0 && input == [] && flush != NoFlush && strstart <= 65535
      modifies `symBuf, `matchAvailable, `insert, `flushed, `blocks, `ended, `blockStart
      ensures Valid() && Decided() && symBuf == [] && Tallied(flushed, stream, |stream|)
      ensures result in {FinishStarted, FinishDone} <==> flush == Finish
      ensures ended == (old(ended) || flush == Finish) && (flush == Finish && !old(ended) ==> Closed(blocks))
      ensures Ready() && (old(Careful(ends)) ==> Careful(ends)) && Now().at == |stream| && !matchAvailable
      ensures room ==> result == if flush == Finish then FinishDone else BlockDone
      ensures blocks == old(blocks) || (|blocks| == |old(blocks)| + 1 && blocks[..|old(blocks)|] == old(blocks) &&
        |blocks[|old(blocks)|].syms| <= symEnd && (flush != Finish ==> blocks[|old(blocks)|].syms != []))
    {
      hide Chains, Rolled, Pow2, Loaded, HashSize, Faithful, Tallied, Logged, Eager, Dictionary, Complete;
      WindUp();
      if flush == Finish {
        FlushAll(true);
        return if room then FinishDone else FinishStarted;
      }
      if |symBuf| > 0 {
        FlushAll(false);
        if !room { return NeedMore; }
      }
      assert flushed + [] == flushed;
      result := BlockDone;
    }

    /** What a call keeps: every look was thorough and had the whole dictionary. */
    ghost predicate Careful(ends: set<nat>)
      reads `stream, `ins, `base, `strstart, `insert, `looks
    {
      Whole() && L.Unbroken(looks) && L.Thorough(looks, ends)
    }

    /** What the calls rely on to stay so. */
    ghost predicate Steady(ends: set<nat>)
      reads `stream, `input, `ins, `base, `strstart, `lookahead, `insert, `looks
    {
      Careful(ends) && (Ready() || input == []) && |stream| + |input| in ends
    }

    /** A turn with enough lookahead, or all there is, is careful. */
    twostate lemma StillCareful(ends: set<nat>)
      requires Looked() && stream == old(stream) && (old(Whole()) ==> Whole())
      requires |stream| >= old(base + strstart) + 262 || |stream| in ends
      ensures old(Careful(ends)) ==> Careful(ends)
    {
    }

    /** The top of the loop: fill the window if it is short of lookahead. */
    method Prepare(ghost ends: set<nat>)
      requires Valid() && Decided()
      modifies `strstart, `matchStart, `blockStart, `insert, `base, `lookahead, `input, `stream, `insH, `ins, `top,
               window, head, prev
      ensures Valid() && Decided() && stream + input == old(stream + input)
      ensures lookahead + |input| == old(lookahead + |input|)
      ensures strstart + MIN_LOOKAHEAD <= window.Length && (lookahead >= MIN_LOOKAHEAD || input == [])
      ensures |stream| == base + strstart + lookahead && strstart <= 65535
      ensures (old(Steady(ends)) ==> Steady(ends)) && (old(Ready()) ==> Ready())
    {
      hide Chains, Rolled, Pow2, Loaded, HashSize, Faithful, Logged, Eager, Complete;
      if lookahead < MIN_LOOKAHEAD { FillWindow(); }
      assert |stream| + |input| == |stream + input|;
      assert |old(stream)| + |old(input)| == |old(stream + input)|;
    }

    /** A turn of the loop; the output may run out unless it is roomy. */
    method Proceed(roomy: bool, ghost ends: set<nat>) returns (stop: bool)
      requires Valid() && Decided() && lookahead > 0 && strstart + MIN_LOOKAHEAD <= window.Length
      requires (lookahead >= MIN_LOOKAHEAD || input == []) && |stream| == base + strstart + lookahead
      modifies `strstart, `lookahead, `insH, `ins, `top, `prevLength, `prevMatch, `matchLength, `matchStart,
               `matchAvailable, `symBuf, `flushed, `blocks, `ended, `blockStart, `looks, head, prev
      ensures Valid() && Decided() && lookahead < old(lookahead) && ended == old(ended)
      ensures (roomy ==> !stop) && OneMore()
      ensures (old(Steady(ends)) ==> Steady(ends)) && (old(lookahead) >= MIN_LOOKAHEAD ==> Ready())
    {
      hide Shape, Dictionary, Faithful, Logged, Eager, Whole;
      var room: bool := *;
      stop := Turn(room || roomy);
      if old(Steady(ends)) { StillCareful(ends); }
    }

    twostate lemma StillAdded(was: seq<Flushed>)
      requires old(Added(was, false)) && OneMore()
      ensures Added(was, false)
    {
    }

    /** deflate_slow(): on every return everything tallied expands to the input before strstart - match_available;
        unless more input or output space is needed, to all of it. `roomy` says that there is always output space. */
    method DeflateSlow(flush: Flush, roomy: bool, ghost ends: set<nat>) returns (result: BlockState)
      requires Valid() && Decided()
      modifies this, window, head, prev
      ensures Valid() && Decided() && stream + input == old(stream + input)
      ensures result != NeedMore ==>
        flush != NoFlush && input == [] && symBuf == [] && Tallied(flushed, stream, |stream|)
      ensures result in {FinishStarted, FinishDone} ==> flush == Finish && (!old(ended) ==> Closed(blocks))
      ensures result !in {FinishStarted, FinishDone} ==> ended == old(ended)
      ensures flush == Finish ==> result != BlockDone && lookahead + |input| <= old(lookahead + |input|)
      ensures result == NeedMore && flush == Finish ==> lookahead + |input| < old(lookahead + |input|)
      ensures roomy && result == NeedMore ==> flush == NoFlush && input == [] && lookahead < 262
      ensures roomy && flush != NoFlush ==> result == if flush == Finish then FinishDone else BlockDone
      ensures Added(old(blocks), result != NeedMore || flush == SyncFlush)
      ensures result != NeedMore ==> Now().at == |stream| && !matchAvailable
      ensures old(Steady(ends)) ==> Steady(ends)
      ensures result != NeedMore || (flush == NoFlush && old(Ready())) ==> Ready()
    {
      hide Valid, Decided, Tallied, Careful, Ready, Closed;
      while true
        invariant Valid() && Decided() && stream + input == old(stream + input) && ended == old(ended)
        invariant lookahead + |input| <= old(lookahead + |input|)
        invariant Added(old(blocks), false)
        invariant old(Steady(ends)) ==> Steady(ends)
        invariant flush == NoFlush && old(Ready()) ==> Ready()
        decreases lookahead + |input|
      {
        Prepare(ends);
        if lookahead < MIN_LOOKAHEAD && flush == NoFlush { return NeedMore; }
        if lookahead == 0 { break; }
        label before:
        var stop := Proceed(roomy, ends);
        StillAdded@before(old(blocks));
        if stop { return NeedMore; }
      }
      var room: bool := *;
      result := Conclude(flush, room || roomy, ends);
    }
  }

  /** All the input given so far has the tallied symbols' expansion as a prefix. */
  ghost predicate Prefix(syms: seq<Sym>, all: seq<byte>) {
    exists n :: Tallied(syms, all, n)
  }

  /** One call of deflate(): new input and a flush mode. */
  datatype Call = Call(data: seq<byte>, flush: Flush)

  ghost function Given(calls: seq<Call>): seq<byte> {
    if calls == [] then [] else Given(calls[..|calls| - 1]) + calls[|calls| - 1].data
  }

  /** No flush is unfinished after the first i calls. */
  ghost predicate Settled(calls: seq<Call>, results: seq<BlockState>, i: nat)
    requires i <= |calls| && i <= |results|
  {
    i == 0 || results[i - 1] != NeedMore || (calls[i - 1].flush == NoFlush && Settled(calls, results, i - 1))
  }

  /** New input is given only when no flush is unfinished. */
  ghost predicate Patient(calls: seq<Call>, results: seq<BlockState>)
    requires |results| <= |calls|
  {
    forall i :: 0 <= i < |results| && calls[i].data != [] ==> Settled(calls, results, i)
  }

  /** Where the input ended at the calls. */
  ghost function Ends(calls: seq<Call>): set<nat> { set i | 0 <= i <= |calls| :: |Given(calls[..i])| }

  lemma {:induction false} SettledSame(calls: seq<Call>, results: seq<BlockState>, r: BlockState, i: nat)
    requires i <= |results| < |calls|
    ensures Settled(calls, results + [r], i) == Settled(calls, results, i)
  {
    if i > 0 { SettledSame(calls, results, r, i - 1); }
  }

  lemma PatientBefore(calls: seq<Call>, results: seq<BlockState>, r: BlockState)
    requires |results| < |calls| && Patient(calls, results + [r])
    ensures Patient(calls, results) && (calls[|results|].data != [] ==> Settled(calls, results, |results|))
  {
    hide Settled;
    forall i | 0 <= i <= |results| && calls[i].data != [] ensures Settled(calls, results, i) {
      SettledSame(calls, results, r, i);
    }
  }

  /** A compression session: whatever the calls and the output space, the symbols tallied so far expand to a prefix of
      the input given so far, and to all of it once the last call has finished. They are those that there were to find;
      with the whole dictionary if no input was given in the middle of a flush. */
  method Session(d: Deflater, calls: seq<Call>) returns (results: seq<BlockState>)
    requires d.Valid() && d.Decided() && d.stream == [] && d.input == [] && d.looks == map[] && d.Whole() && d.Ready()
    modifies d, d.window, d.head, d.prev
    ensures d.Valid() && d.Decided() && d.stream + d.input == Given(calls) && |results| == |calls|
    ensures Prefix(d.flushed + d.symBuf, Given(calls))
    ensures calls != [] && results[|calls| - 1] != NeedMore ==> Tallied(d.flushed, Given(calls), |Given(calls)|)
    ensures Patient(calls, results) ==> d.Careful(Ends(calls))
  {
    hide Tallied, Deflater.Valid, Deflater.Decided, Prefix, Patient, Deflater.Careful, Deflater.Ready, Given;
    results := [];
    ghost var ends := Ends(calls);
    assert d.Careful(ends) by { NoLooks(d, ends); }
    NothingGiven(calls);
    while |results| < |calls|
      invariant |results| <= |calls| && d.Valid() && d.Decided() && d.stream + d.input == Given(calls[..|results|])
      invariant results != [] && results[|results| - 1] != NeedMore ==>
        d.input == [] && Tallied(d.flushed, d.stream, |d.stream|)
      invariant Patient(calls, results) ==> d.Careful(ends) && (d.Ready() || d.input == [])
      invariant Settled(calls, results, |results|) ==> d.Ready()
    {
      var i := |results|;
      GivenNext(calls, i);
      d.input := d.input + calls[i].data;
      assert d.stream + d.input == Given(calls[..i + 1]) && |d.stream| + |d.input| == |Given(calls[..i + 1])|;
      var roomy: bool := *;
      var r := d.DeflateSlow(calls[i].flush, roomy, ends);
      if Patient(calls, results + [r]) { PatientBefore(calls, results, r); }
      SettledSame(calls, results, r, i);
      results := results + [r];
    }
    assert calls[..|calls|] == calls;
    d.TalliedSoFar();
    assert d.stream + [] == d.stream;
  }

  lemma NoLooks(d: Deflater, ends: set<nat>)
    requires d.Whole() && d.looks == map[]
    ensures d.Careful(ends)
  {
  }

  lemma NothingGiven(calls: seq<Call>)
    ensures Given(calls[..0]) == []
  {
  }

  lemma GivenNext(calls: seq<Call>, i: nat)
    requires i < |calls|
    ensures Given(calls[..i + 1]) == Given(calls[..i]) + calls[i].data
  {
    assert calls[..i + 1][..i] == calls[..i];
  }
}
