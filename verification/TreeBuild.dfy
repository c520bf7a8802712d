/** build_tree() of zlib/trees.c. */
module TreeBuild {
  import opened Bits
  import opened Huffman
  import opened Sums
  import opened TreeShape
  import opened BitLengths
  import opened TreeHeap
  import opened TreeGrowth
  import opened TreeCost
  import opened TreeWeight
  import opened TreeHeight

  /** The heap fields while leaves are being collected: heap[1 ..] holds them, the others have length 0. */
  ghost predicate Collected(heap: seq<nat>, len: nat, freq: seq<nat>, dl: seq<nat>, n: nat, maxCode: int) {
    && n <= |freq| == |dl| && Holds(heap, len, Used(freq, n)) && |heap| == HEAP_SIZE
    && -1 <= maxCode < n && (maxCode >= 0 ==> freq[maxCode] > 0) && (maxCode < 0 ==> len == 0)
    && (forall s :: maxCode < s < n ==> freq[s] == 0)
    && (forall s :: 0 <= s < n && freq[s] == 0 ==> dl[s] == 0)
  }

  /** The symbols in use have no depth yet. */
  ghost predicate Leafy(freq: seq<nat>, depth: seq<nat>, n: nat) {
    n <= |freq| && n <= |depth| && forall s :: 0 <= s < n && freq[s] > 0 ==> depth[s] == 0
  }

  lemma CollectStep(heap: seq<nat>, len: nat, freq: seq<nat>, dl: seq<nat>, n: nat, maxCode: int)
    requires Collected(heap, len, freq, dl, n, maxCode) && n < |freq| && len + 1 < |heap|
    ensures freq[n] != 0 ==> Collected(heap[len + 1 := n], len + 1, freq, dl, n + 1, n)
    ensures freq[n] == 0 ==> Collected(heap, len, freq, dl[n := 0], n + 1, maxCode)
  {
    if freq[n] != 0 {
      assert Used(freq, n + 1) == Used(freq, n) + {n};
    } else {
      assert Used(freq, n + 1) == Used(freq, n);
    }
  }

  /** The first loop: put every symbol with a frequency in the heap. */
  method Collect(b: Builder, d: Desc, freq: array<nat>, dl: array<nat>) returns (maxCode: int)
    requires b.Arrays(freq, dl) && DescOk(d) && freq.Length == 2 * d.elems + 1
    modifies b`heapLen, b`heapMax, b.heap, b.depth, dl
    ensures Collected(b.heap[..], b.heapLen, freq[..], dl[..], d.elems, maxCode) && b.heapMax == HEAP_SIZE
    ensures b.heapLen <= d.elems && Leafy(freq[..], b.depth[..], d.elems)
  {
    hide Collected, Holds, Used, Pow2;
    b.heapLen, b.heapMax := 0, HEAP_SIZE;
    maxCode := -1;
    NothingCollected(b.heap[..], freq[..], dl[..]);
    for n := 0 to d.elems
      invariant Collected(b.heap[..], b.heapLen, freq[..], dl[..], n, maxCode) && b.heapLen <= n
      invariant b.heapMax == HEAP_SIZE && Leafy(freq[..], b.depth[..], n)
    {
      ghost var heap: seq<nat>, was: seq<nat> := b.heap[..], dl[..];
      CollectStep(heap, b.heapLen, freq[..], was, n, maxCode);
      if freq[n] != 0 {
        b.heapLen := b.heapLen + 1;
        maxCode := n;
        b.heap[b.heapLen] := n;
        b.depth[n] := 0;
        assert b.heap[..] == heap[b.heapLen := n];
      } else {
        dl[n] := 0;
        assert dl[..] == was[n := 0];
      }
    }
  }

  lemma NothingCollected(heap: seq<nat>, freq: seq<nat>, dl: seq<nat>)
    requires |heap| == HEAP_SIZE && |freq| == |dl|
    ensures Collected(heap, 0, freq, dl, 0, -1)
  {
    assert Used(freq, 0) == {};
  }

  // ----- forced codes -----

  /** The frequencies with one added to each listed symbol. */
  ghost function Bumped(freq: seq<nat>, added: seq<nat>): (r: seq<nat>)
    requires forall i :: 0 <= i < |added| ==> added[i] < |freq|
    ensures |r| == |freq|
  {
    if added == [] then freq
    else var r := Bumped(freq, added[..|added| - 1]); var s := added[|added| - 1]; r[s := r[s] + 1]
  }

  ghost function SumAt(per: seq<nat>, added: seq<nat>): int
    requires forall i :: 0 <= i < |added| ==> added[i] < |per|
  {
    if added == [] then 0 else SumAt(per, added[..|added| - 1]) + per[added[|added| - 1]]
  }

  /** The cost of the added occurrences. */
  lemma {:induction false} BillBumped(freq: seq<nat>, added: seq<nat>, per: seq<nat>)
    requires |per| <= |freq| && forall i :: 0 <= i < |added| ==> added[i] < |per|
    ensures Bill(Bumped(freq, added)[..|per|], per) == Bill(freq[..|per|], per) + SumAt(per, added)
    decreases |added|
  {
    hide Bill;
    if added != [] {
      var a, s := added[..|added| - 1], added[|added| - 1];
      BillBumped(freq, a, per);
      var r := Bumped(freq, a);
      BillMore(r[..|per|], per, s);
      assert r[s := r[s] + 1][..|per|] == r[..|per|][s := r[s] + 1];
    }
  }

  lemma OnlyOne(nodes: set<nat>, x: nat, y: nat)
    requires |nodes| == 1 && x in nodes && y in nodes
    ensures x == y
  {
    assert |nodes - {x}| == 0;
  }

  /** One forced code: a symbol without a frequency, 0, 1 or 2, gets frequency 1. */
  lemma ForceStep(heap: seq<nat>, len: nat, freq: seq<nat>, dl: seq<nat>, elems: nat, maxCode: int)
    requires Collected(heap, len, freq, dl, elems, maxCode) && len < 2 && 3 <= elems
    ensures var node: nat := if maxCode < 2 then maxCode + 1 else 0;
      node < 3 && freq[node] == 0
      && Collected(heap[len + 1 := node], len + 1, freq[node := 1], dl, elems, if maxCode < 2 then node else maxCode)
  {
    var node: nat := if maxCode < 2 then maxCode + 1 else 0;
    if maxCode >= 2 && freq[0] > 0 {
      assert heap[1] in Used(freq, elems);
      OnlyOne(Used(freq, elems), 0, maxCode);
    }
    assert Used(freq[node := 1], elems) == Used(freq, elems) + {node};
  }

  /** The codes that are forced when len symbols are in use and maxCode is the last of them. */
  function Forcing(len: nat, maxCode: int): (codes: seq<int>)
    decreases 2 - len
  {
    if len >= 2 then []
    else if maxCode < 2 then [maxCode + 1] + Forcing(len + 1, maxCode + 1)
    else [0] + Forcing(len + 1, maxCode)
  }

  /** Symbol 1 is the only one in use. */
  ghost predicate OnlySymbolOne(freq: seq<nat>, n: nat)
    requires 2 <= n <= |freq|
  {
    freq[1] > 0 && forall s :: 0 <= s < n && s != 1 ==> freq[s] == 0
  }

  /** A forced code is 2 if and only if symbol 1 is the only one in use. */
  lemma ForcedTwo(heap: seq<nat>, len: nat, freq: seq<nat>, dl: seq<nat>, n: nat, maxCode: int)
    requires Collected(heap, len, freq, dl, n, maxCode) && 2 <= n
    ensures 2 in Forcing(len, maxCode) <==> OnlySymbolOne(freq, n)
  {
    hide Holds;
    var used := Used(freq, n);
    HoldsSize(heap, len, used);
    assert OnlySymbolOne(freq, n) ==> used == {1};
    if maxCode >= 0 { assert maxCode in used; }
    if len == 0 {
      assert Forcing(0, maxCode) == [0] + Forcing(1, 0) == [0] + ([1] + Forcing(2, 1));
    } else if len == 1 {
      assert Forcing(1, maxCode) == if maxCode < 2 then [maxCode + 1] else [0];
      forall s: nat | s < n && freq[s] > 0 ensures s == maxCode { OnlyOne(used, s, maxCode); }
    }
  }

  /** Codes 0 and 1 without any symbol, the next code or code 0 beside a single one. */
  ghost predicate ForcedAre(codes: seq<int>, len: nat, maxCode: int) {
    codes == if len >= 2 then [] else if maxCode < 0 then [0, 1] else [if maxCode < 2 then maxCode + 1 else 0]
  }

  lemma ForcingIs(heap: seq<nat>, len: nat, freq: seq<nat>, dl: seq<nat>, n: nat, maxCode: int)
    requires Collected(heap, len, freq, dl, n, maxCode)
    ensures ForcedAre(Forcing(len, maxCode), len, maxCode)
  {
    hide Holds;
    HoldsSize(heap, len, Used(freq, n));
    if maxCode >= 0 { assert maxCode in Used(freq, n); }
    if len == 0 {
      assert Forcing(0, -1) == [0] + Forcing(1, 0) == [0] + ([1] + Forcing(2, 1));
    } else if len == 1 {
      assert Forcing(2, maxCode + 1) == Forcing(2, maxCode) == [];
    }
  }

  lemma ForcingStep(added: seq<nat>, len: nat, maxCode: int, node: nat)
    requires len < 2 && maxCode >= -1 && node == if maxCode < 2 then maxCode + 1 else 0
    ensures added + Forcing(len, maxCode) == added + [node] + Forcing(len + 1, if maxCode < 2 then node else maxCode)
  {
    var rest := Forcing(len + 1, if maxCode < 2 then node else maxCode);
    assert added + ([node] + rest) == added + [node] + rest;
  }

  lemma ForcingEnd(added: seq<nat>, len: nat, maxCode: int)
    requires len >= 2
    ensures added + Forcing(len, maxCode) == added
  {
  }

  lemma HoldsSize(heap: seq<nat>, len: nat, nodes: set<nat>)
    requires Holds(heap, len, nodes)
    ensures |nodes| == len
  {
  }

  /** Such frequencies, of a distance tree when all matches are at distance 2: the comment that a forced code is 0 or
      1 does not cover them. */
  lemma ForcedTwoWitness(heap: seq<nat>, dl: seq<nat>)
    requires |heap| == HEAP_SIZE && heap[1] == 1 && dl == seq(61, _ => 0)
    ensures var freq: seq<nat> := seq(61, i => if i == 1 then 1 else 0);
      OnlySymbolOne(freq, 30) && Collected(heap, 1, freq, dl, 30, 1) && Forcing(1, 1) == [2]
  {
    var freq: seq<nat> := seq(61, i => if i == 1 then 1 else 0);
    assert Used(freq, 30) == {1};
    assert Forcing(1, 1) == [2] + Forcing(2, 2);
  }

  /** What forcing codes did: the frequencies, and the costs it took off in advance. */
  ghost predicate Forced(d: Desc, freq: seq<nat>, freq0: seq<nat>, added: seq<nat>, len: nat) {
    && |freq0| >= 3 && (forall i :: 0 <= i < |added| ==> added[i] < 3) && freq == Bumped(freq0, added)
    && (added != [] ==> len <= 2) && (forall i :: 0 <= i < |added| ==> freq0[added[i]] == 0)
    && (forall i :: 0 <= i < |added| ==> freq[added[i]] > 0)
  }

  ghost function Forgone(d: Desc, added: seq<nat>): int
    requires DescOk(d) && forall i :: 0 <= i < |added| ==> added[i] < 3
  {
    if d.hasStatic then SumAt(d.stree, added) else 0
  }

  lemma ForcedStep(d: Desc, freq: seq<nat>, freq0: seq<nat>, added: seq<nat>, len: nat, node: nat)
    requires Forced(d, freq, freq0, added, len) && len < 2 && node < 3 && freq[node] == 0 && DescOk(d)
    ensures Forced(d, freq[node := 1], freq0, added + [node], len + 1)
    ensures Forgone(d, added + [node]) == Forgone(d, added) + if d.hasStatic then d.stree[node] else 0
  {
    hide Pow2;
    assert (added + [node])[..|added|] == added;
    BumpedMore(freq0, added, node);
  }

  lemma {:induction false} BumpedMore(freq: seq<nat>, added: seq<nat>, n: nat)
    requires n < |freq| && forall i :: 0 <= i < |added| ==> added[i] < |freq|
    ensures Bumped(freq, added)[n] >= freq[n]
    decreases |added|
  {
    if added != [] { BumpedMore(freq, added[..|added| - 1], n); }
  }

  /** The second loop: force at least two codes. */
  method Force(b: Builder, d: Desc, freq: array<nat>, dl: array<nat>, max0: int)
    returns (maxCode: int, ghost added: seq<nat>)
    requires b.Arrays(freq, dl) && DescOk(d) && freq.Length == 2 * d.elems + 1 && b.heapLen <= d.elems
    requires Collected(b.heap[..], b.heapLen, freq[..], dl[..], d.elems, max0)
    requires Leafy(freq[..], b.depth[..], d.elems)
    modifies b`heapLen, b`optLen, b`staticLen, b.heap, b.depth, freq
    ensures Collected(b.heap[..], b.heapLen, freq[..], dl[..], d.elems, maxCode) && 2 <= b.heapLen <= d.elems
    ensures Forced(d, freq[..], old(freq[..]), added, b.heapLen) && Leafy(freq[..], b.depth[..], d.elems)
    ensures b.optLen == old(b.optLen) - |added| && b.staticLen == old(b.staticLen) - Forgone(d, added)
    ensures ForcedAre(added, old(b.heapLen), max0)
    ensures 2 in added <==> OnlySymbolOne(old(freq[..]), d.elems)
  {
    hide Collected, Bumped, Pow2, Forced, Forcing, ForcedAre, OnlySymbolOne, Leafy;
    ForcedTwo(b.heap[..], b.heapLen, freq[..], dl[..], d.elems, max0);
    ForcingIs(b.heap[..], b.heapLen, freq[..], dl[..], d.elems, max0);
    maxCode, added := max0, [];
    assert Forced(d, freq[..], old(freq[..]), added, b.heapLen) && Forgone(d, added) == 0 by {
      NothingForced(d, freq[..], b.heapLen);
    }
    while b.heapLen < 2
      invariant Collected(b.heap[..], b.heapLen, freq[..], dl[..], d.elems, maxCode) && b.heapLen <= d.elems
      invariant Forced(d, freq[..], old(freq[..]), added, b.heapLen) && forall i :: 0 <= i < |added| ==> added[i] < 3
      invariant b.optLen == old(b.optLen) - |added| && b.staticLen == old(b.staticLen) - Forgone(d, added)
      invariant added + Forcing(b.heapLen, maxCode) == Forcing(old(b.heapLen), max0)
      invariant Leafy(freq[..], b.depth[..], d.elems)
      decreases 2 - b.heapLen
    {
      ghost var heap: seq<nat>, f: seq<nat> := b.heap[..], freq[..];
      ForceStep(heap, b.heapLen, f, dl[..], d.elems, maxCode);
      MaxCodeAtLeast(heap, b.heapLen, f, dl[..], d.elems, maxCode);
      var node: nat := if maxCode < 2 then maxCode + 1 else 0;
      ForcedStep(d, f, old(freq[..]), added, b.heapLen, node);
      ForcingStep(added, b.heapLen, maxCode, node);
      ghost var depth: seq<nat> := b.depth[..];
      LeafyStep(f, depth, d.elems, node);
      if maxCode < 2 { maxCode := node; }
      b.heapLen := b.heapLen + 1;
      b.heap[b.heapLen] := node;
      freq[node] := 1;
      b.depth[node] := 0;
      b.optLen := b.optLen - 1;
      if d.hasStatic { b.staticLen := b.staticLen - d.stree[node]; }
      added := added + [node];
      assert b.heap[..] == heap[b.heapLen := node] && freq[..] == f[node := 1] && b.depth[..] == depth[node := 0];
    }
    ForcingEnd(added, b.heapLen, maxCode);
  }

  lemma LeafyStep(freq: seq<nat>, depth: seq<nat>, n: nat, node: nat)
    requires Leafy(freq, depth, n) && node < |freq| && node < |depth|
    ensures Leafy(freq[node := 1], depth[node := 0], n)
  {
  }

  lemma MaxCodeAtLeast(heap: seq<nat>, len: nat, freq: seq<nat>, dl: seq<nat>, n: nat, maxCode: int)
    requires Collected(heap, len, freq, dl, n, maxCode)
    ensures -1 <= maxCode
  {
  }

  lemma NothingForced(d: Desc, freq: seq<nat>, len: nat)
    requires |freq| >= 3 && DescOk(d)
    ensures Forced(d, freq, freq, [], len) && Forgone(d, []) == 0
  {
  }

  // ----- merging -----

  /** The heap part of the state: heap[1 .. len] is a heap of the nodes. */
  ghost predicate Queue(heap: seq<nat>, len: nat, freq: seq<nat>, depth: seq<nat>, nodes: set<nat>) {
    Indexed(heap, len, freq, depth) && Holds(heap, len, nodes) && HeapedFrom(heap, len, freq, depth, 1)
  }

  lemma Least(heap: seq<nat>, len: nat, freq: seq<nat>, depth: seq<nat>, nodes: set<nat>)
    requires Queue(heap, len, freq, depth, nodes) && len >= 1
    ensures Foremost(freq, depth, nodes, heap[1]) && heap[1] < |freq|
  {
    forall x | x in nodes
      ensures x < |freq| && x < |depth| && var n := heap[1];
        freq[n] < freq[x] || (freq[n] == freq[x] && depth[n] <= depth[x])
    {
      var i := Find(heap, len, nodes, x);
      TopIsLeast(heap, len, freq, depth, i);
    }
  }

  /** A set of len nodes with len distinct members in the heap has all of them there. */
  lemma Find(heap: seq<nat>, len: nat, nodes: set<nat>, x: nat) returns (i: nat)
    requires Holds(heap, len, nodes) && x in nodes
    ensures 1 <= i <= len && heap[i] == x
  {
    var rest := nodes - {x};
    i := 1;
    ghost var seen: set<nat> := {};
    while i <= len && heap[i] != x
      invariant 1 <= i <= len + 1 && |seen| == i - 1 && seen <= rest
      invariant seen == set j | 1 <= j < i :: heap[j]
    {
      assert heap[i] !in seen;
      seen := seen + {heap[i]};
      i := i + 1;
    }
    if i == len + 1 { SubsetSize(seen, rest); }
  }

  lemma SubsetSize(a: set<nat>, b: set<nat>)
    requires a <= b
    ensures |a| <= |b|
  {
    assert b == a + (b - a);
  }

  /** Taking the last entry to the top in place of the first. */
  lemma RemoveTop(heap: seq<nat>, len: nat, freq: seq<nat>, depth: seq<nat>, nodes: set<nat>)
    requires Queue(heap, len, freq, depth, nodes) && len >= 2
    ensures var h := heap[1 := heap[len]];
      Indexed(h, len - 1, freq, depth) && Holds(h, len - 1, nodes - {heap[1]}) && HeapedFrom(h, len - 1, freq, depth, 2)
  {
    var h, k := heap[1 := heap[len]], len - 1;
    assert |nodes - {heap[1]}| == k;
    forall i | 2 <= i ensures FatherOk(h, k, freq, depth, i) { assert FatherOk(heap, len, freq, depth, i); }
  }

  /** Replacing the top by a new node. */
  lemma ReplaceTop(heap: seq<nat>, len: nat, freq: seq<nat>, depth: seq<nat>, nodes: set<nat>, x: nat, f: nat, e: nat)
    requires Queue(heap, len, freq, depth, nodes) && len >= 1 && x !in nodes && x < |freq|
    ensures var h, freq', depth' := heap[1 := x], freq[x := f], depth[x := e];
      Indexed(h, len, freq', depth') && Holds(h, len, nodes - {heap[1]} + {x}) && HeapedFrom(h, len, freq', depth', 2)
  {
    var h, freq', depth' := heap[1 := x], freq[x := f], depth[x := e];
    assert |nodes - {heap[1]}| == len - 1;
    forall i | 2 <= i ensures FatherOk(h, len, freq', depth', i) { assert FatherOk(heap, len, freq, depth, i); }
  }

  /** pqremove() */
  method Remove(b: Builder, freq: array<nat>, ghost nodes: set<nat>) returns (n: nat)
    requires b.heap != b.depth && b.heap != freq && b.depth != freq
    requires Queue(b.heap[..], b.heapLen, freq[..], b.depth[..], nodes) && b.heapLen >= 2
    modifies b`heapLen, b.heap
    ensures b.heapLen == old(b.heapLen) - 1 && n == old(b.heap[1]) && n in nodes && n < freq.Length
    ensures Queue(b.heap[..], b.heapLen, freq[..], b.depth[..], nodes - {n})
    ensures Foremost(freq[..], b.depth[..], nodes, n)
    ensures forall i :: old(b.heapLen) < i < b.heap.Length ==> b.heap[i] == old(b.heap[i])
  {
    hide HeapedFrom, Holds;
    ghost var heap: seq<nat> := b.heap[..];
    Least(heap, b.heapLen, freq[..], b.depth[..], nodes);
    RemoveTop(heap, b.heapLen, freq[..], b.depth[..], nodes);
    n := b.heap[1];
    b.heap[1] := b.heap[b.heapLen];
    b.heapLen := b.heapLen - 1;
    assert b.heap[..] == heap[1 := heap[b.heapLen + 1]];
    DownHeap(b.heap, b.heapLen, freq[..], b.depth[..], 1, nodes - {n});
  }

  /** The nodes paired off so far are sorted by frequency, and none is more frequent than a node in the heap. */
  ghost predicate ByFrequency(heap: seq<nat>, top: nat, freq: seq<nat>, nodes: set<nat>) {
    && (forall i :: top <= i < |heap| ==> heap[i] < |freq|) && (forall x :: x in nodes ==> x < |freq|)
    && (forall i, j :: top <= i < j < |heap| ==> freq[heap[i]] >= freq[heap[j]])
    && (forall i, x :: top <= i < |heap| && x in nodes ==> freq[heap[i]] <= freq[x])
  }

  lemma FrequencyMerge(heap: seq<nat>, top: nat, freq: seq<nat>, nodes: set<nat>, n: nat, m: nat, x: nat)
    requires ByFrequency(heap, top, freq, nodes) && 2 <= top <= |heap| && n in nodes && m in nodes && x < |freq|
    requires x !in nodes
    requires forall i :: top <= i < |heap| ==> heap[i] != x
    requires forall y :: y in nodes ==> freq[n] <= freq[y]
    requires forall y :: y in nodes - {n} ==> freq[m] <= freq[y]
    ensures ByFrequency(heap[top - 1 := n][top - 2 := m], top - 2, freq[x := freq[n] + freq[m]], nodes - {n, m} + {x})
  {
  }

  /** All of the state while merging. */
  ghost predicate Merging(b: Builder, freq: array<nat>, dl: array<nat>, g: Grove, w: nat, total: int)
    reads b, b.heap, b.depth, freq, dl
  {
    && b.Arrays(freq, dl) && freq.Length == 2 * g.elems + 1 && 3 <= g.elems <= 286
    && Queue(b.heap[..], b.heapLen, freq[..], b.depth[..], g.nodes) && Grown(g, b.heap[..], dl[..])
    && b.heapMax == Top(g) && b.heapLen + g.made <= g.elems && b.heapLen >= 1
    && ByFrequency(b.heap[..], b.heapMax, freq[..], g.nodes) && Weighed(g, b.heap[..], freq[..], w)
    && (total <= 65535 ==> Risen(g, b.heap[..], freq[..], b.depth[..], w, total))
  }

  lemma NewNode(g: Grove, heap: seq<nat>, dl: seq<nat>)
    requires Grown(g, heap, dl)
    ensures g.elems + g.made !in g.nodes
    ensures forall i :: Top(g) <= i < |heap| ==> heap[i] != g.elems + g.made
  {
    forall i: nat | Top(g) <= i < |heap| ensures heap[i] != g.elems + g.made { assert PairOk(g, heap, dl, i); }
  }

  /** Takes the least frequent node out of the heap; the next one is then at its top. */
  method TakeTwo(b: Builder, freq: array<nat>, dl: array<nat>, ghost g: Grove, ghost w: nat, ghost total: int)
    returns (n: nat, m: nat)
    requires Merging(b, freq, dl, g, w, total) && b.heapLen >= 2
    modifies b`heapLen, b.heap
    ensures b.heapLen == old(b.heapLen) - 1 && m == b.heap[1] && TwoLeast(freq[..], g.nodes, n, m)
    ensures Foremost(freq[..], b.depth[..], g.nodes, n) && Foremost(freq[..], b.depth[..], g.nodes - {n}, m)
    ensures Queue(b.heap[..], b.heapLen, freq[..], b.depth[..], g.nodes - {n})
    ensures Grown(g, b.heap[..], dl[..]) && ByFrequency(b.heap[..], b.heapMax, freq[..], g.nodes)
    ensures Weighed(g, b.heap[..], freq[..], w)
    ensures total <= 65535 ==> Risen(g, b.heap[..], freq[..], b.depth[..], w, total)
  {
    hide Queue, Grown, ByFrequency, Weighed, Risen;
    n := Remove(b, freq, g.nodes);
    GrownFrame(g, old(b.heap[..]), b.heap[..], dl[..]);
    FrequencyFrame(old(b.heap[..]), b.heap[..], b.heapMax, freq[..], g.nodes);
    WeighedFrame(g, old(b.heap[..]), b.heap[..], freq[..], w);
    if total <= 65535 { RisenFrame(g, old(b.heap[..]), b.heap[..], freq[..], b.depth[..], w, total); }
    Least(b.heap[..], b.heapLen, freq[..], b.depth[..], g.nodes - {n});
    m := b.heap[1];
  }

  /** The heap after Join: a new node on top. */
  lemma JoinQueue(heap: seq<nat>, len: nat, freq: seq<nat>, depth: seq<nat>, nodes: set<nat>, top: nat, n: nat, m: nat,
                  x: nat, f: nat, e: nat)
    requires Queue(heap, len, freq, depth, nodes - {n}) && 1 <= len < top - 2 && top <= |heap| && heap[1] == m
    requires x !in nodes && x < |freq| <= |depth|
    ensures var heap', freq', depth' := heap[top - 1 := n][top - 2 := m][1 := x], freq[x := f], depth[x := e];
      Indexed(heap', len, freq', depth') && Holds(heap', len, nodes - {n, m} + {x}) &&
        HeapedFrom(heap', len, freq', depth', 2)
  {
    hide Queue, HeapedFrom, Holds;
    var mid := heap[top - 1 := n][top - 2 := m];
    QueueFrame(heap, mid, len, freq, depth, nodes - {n});
    ReplaceTop(mid, len, freq, depth, nodes - {n}, x, f, e);
    assert nodes - {n} - {m} + {x} == nodes - {n, m} + {x};
  }

  /** The pairs after Join. */
  lemma JoinGrown(heap: seq<nat>, freq: seq<nat>, dl: seq<nat>, g: Grove, n: nat, m: nat, f: nat)
    requires Grown(g, heap, dl) && ByFrequency(heap, Top(g), freq, g.nodes) && TwoLeast(freq, g.nodes, n, m)
    requires f == freq[n] + freq[m]
    requires Top(g) - 2 > 1 && g.elems + g.made < |freq| == |dl|
    ensures n < |g.place| == |dl| && m < |g.place| && g.elems + g.made !in g.nodes
    ensures var top, x := Top(g), g.elems + g.made;
      var heap' := heap[top - 1 := n][top - 2 := m][1 := x];
      Grown(Merged(g, n, m), heap', dl[n := x][m := x]) &&
        ByFrequency(heap', top - 2, freq[x := f], g.nodes - {n, m} + {x})
  {
    hide ByFrequency, Paired, PairOk;
    var top, x := Top(g), g.elems + g.made;
    NewNode(g, heap, dl);
    GrownMerge(g, heap, dl, n, m);
    FrequencyMerge(heap, top, freq, g.nodes, n, m, x);
    var mid := heap[top - 1 := n][top - 2 := m];
    GrownFrame(Merged(g, n, m), mid, mid[1 := x], dl[n := x][m := x]);
    FrequencyFrame(mid, mid[1 := x], top - 2, freq[x := f], g.nodes - {n, m} + {x});
  }

  /** The costs after Join. */
  lemma JoinWeighed(heap: seq<nat>, freq: seq<nat>, g: Grove, w: nat, n: nat, m: nat, f: nat)
    requires Weighed(g, heap, freq, w) && TwoLeast(freq, g.nodes, n, m) && Top(g) - 2 > 1 && |heap| == HEAP_SIZE
    requires n < |freq| && m < |freq| && |freq| == |g.place| && f == freq[n] + freq[m]
    requires g.elems + g.made < |freq| && g.elems + g.made !in g.nodes && g.elems + g.made !in g.leaves
    ensures var top, x := Top(g), g.elems + g.made;
      Weighed(Merged(g, n, m), heap[top - 1 := n][top - 2 := m][1 := x], freq[x := f], w + f)
  {
    hide Weighed, TwoLeast;
    WeighedMerge(g, heap, freq, w, n, m);
    var x, mid := g.elems + g.made, heap[Top(g) - 1 := n][Top(g) - 2 := m];
    WeighedFrame(Merged(g, n, m), mid, mid[1 := x], freq[x := f], w + f);
  }

  /** The heights after Join. */
  lemma JoinRisen(heap: seq<nat>, dl: seq<nat>, freq: seq<nat>, depth: seq<nat>, g: Grove, w: nat, total: int, n: nat,
                  m: nat, f: nat, e: nat)
    requires Risen(g, heap, freq, depth, w, total) && total <= 65535 && Grown(g, heap, dl) && Top(g) - 2 > 1
    requires Foremost(freq, depth, g.nodes, n) && Foremost(freq, depth, g.nodes - {n}, m) && f == freq[n] + freq[m]
    requires g.elems + g.made < |freq| <= |depth| && g.elems + g.made !in g.nodes && |heap| == HEAP_SIZE
    requires e == ((if depth[n] >= depth[m] then depth[n] else depth[m]) + 1) % 256
    ensures n < |g.place| && m < |g.place|
    ensures var top, x := Top(g), g.elems + g.made;
      Risen(Merged(g, n, m), heap[top - 1 := n][top - 2 := m][1 := x], freq[x := f], depth[x := e], w + f, total)
  {
    hide Risen, Foremost, Grown;
    RisenMerge(g, heap, dl, freq, depth, w, total, n, m, e);
    var x, mid := g.elems + g.made, heap[Top(g) - 1 := n][Top(g) - 2 := m];
    RisenFrame(Merged(g, n, m), mid, mid[1 := x], freq[x := f], depth[x := e], w + f, total);
  }

  /** Writes the pair and its father. */
  method Join(b: Builder, freq: array<nat>, dl: array<nat>, node: nat, n: nat, m: nat)
    requires b.Arrays(freq, dl) && 1 < b.heapMax - 2 && b.heapMax <= HEAP_SIZE && n != m
    requires n < freq.Length && m < freq.Length && node < freq.Length <= HEAP_SIZE
    modifies b`heapMax, b.heap, b.depth, freq, dl
    ensures b.heapMax == old(b.heapMax) - 2
    ensures b.heap[..] == old(b.heap[..])[b.heapMax + 1 := n][b.heapMax := m][1 := node]
    ensures freq[..] == old(freq[..])[node := old(freq[n] + freq[m])] && dl[..] == old(dl[..])[n := node][m := node]
    ensures b.depth[..] == old(b.depth[..])[node := b.depth[node]]
    ensures b.depth[node] == old((if b.depth[n] >= b.depth[m] then b.depth[n] else b.depth[m]) + 1) % 256
  {
    b.heapMax := b.heapMax - 1;
    b.heap[b.heapMax] := n;
    b.heapMax := b.heapMax - 1;
    b.heap[b.heapMax] := m;
    freq[node] := freq[n] + freq[m];
    b.depth[node] := ((if b.depth[n] >= b.depth[m] then b.depth[n] else b.depth[m]) + 1) % 256;
    dl[n], dl[m] := node, node;
    b.heap[1] := node;
  }

  /** Combines the two least frequent nodes under a new one. */
  method MergeOnce(b: Builder, freq: array<nat>, dl: array<nat>, node: nat, ghost g: Grove, ghost w: nat,
                   ghost total: int)
    returns (ghost g': Grove, ghost w': nat, ghost n: nat, ghost m: nat)
    requires Merging(b, freq, dl, g, w, total) && b.heapLen >= 2 && node == g.elems + g.made
    modifies b`heapLen, b`heapMax, b.heap, b.depth, freq, dl
    ensures Merging(b, freq, dl, g', w', total) && b.heapLen == old(b.heapLen) - 1
    ensures g'.made == g.made + 1 && node in g'.nodes
    ensures g'.elems == g.elems && g'.maxCode == g.maxCode && g'.leaves == g.leaves
    ensures forall i :: 0 <= i < g.elems ==> freq[i] == old(freq[i])
    ensures n < freq.Length && m < freq.Length && n < |g.place| && m < |g.place| && Top(g) >= 2
    ensures g' == Merged(g, n, m) && w' == w + old(freq[n] + freq[m])
    ensures Foremost(old(freq[..]), old(b.depth[..]), g.nodes, n)
    ensures Foremost(old(freq[..]), old(b.depth[..]), g.nodes - {n}, m)
    ensures freq[..] == old(freq[..])[node := old(freq[n] + freq[m])]
  {
    hide Queue, Grown, ByFrequency, HeapedFrom, Holds, TwoLeast, Weighed, Foremost, Risen;
    var n', m' := TakeTwo(b, freq, dl, g, w, total);
    n, m := n', m';
    ghost var heap, f, e, was := b.heap[..], freq[..], b.depth[..], dl[..];
    TwoDiffer(f, g.nodes, n, m);
    Join(b, freq, dl, node, n', m');
    JoinGrown(heap, f, was, g, n, m, freq[node]);
    LeavesBelow(g, heap, was);
    JoinWeighed(heap, f, g, w, n, m, freq[node]);
    if total <= 65535 { JoinRisen(heap, was, f, e, g, w, total, n, m, freq[node], b.depth[node]); }
    JoinQueue(heap, b.heapLen, f, e, g.nodes, Top(g), n, m, node, freq[node], b.depth[node]);
    g', w' := Merged(g, n, m), w + freq[node];
    ghost var mid: seq<nat> := b.heap[..];
    DownHeap(b.heap, b.heapLen, freq[..], b.depth[..], 1, g'.nodes);
    QueueIs(b.heap[..], b.heapLen, freq[..], b.depth[..], g'.nodes);
    GrownFrame(g', mid, b.heap[..], dl[..]);
    FrequencyFrame(mid, b.heap[..], b.heapMax, freq[..], g'.nodes);
    WeighedFrame(g', mid, b.heap[..], freq[..], w');
    if total <= 65535 { RisenFrame(g', mid, b.heap[..], freq[..], b.depth[..], w', total); }
  }

  lemma LeavesBelow(g: Grove, heap: seq<nat>, dl: seq<nat>)
    requires Grown(g, heap, dl)
    ensures forall x :: x in g.leaves ==> x < g.elems
  {
  }

  lemma TwoDiffer(freq: seq<nat>, nodes: set<nat>, n: nat, m: nat)
    requires TwoLeast(freq, nodes, n, m)
    ensures n != m && n < |freq| && m < |freq|
  {
  }

  lemma QueueIs(heap: seq<nat>, len: nat, freq: seq<nat>, depth: seq<nat>, nodes: set<nat>)
    requires Indexed(heap, len, freq, depth) && Holds(heap, len, nodes) && HeapedFrom(heap, len, freq, depth, 1)
    ensures Queue(heap, len, freq, depth, nodes)
  {
  }

  lemma QueueFrame(heap: seq<nat>, heap': seq<nat>, len: nat, freq: seq<nat>, depth: seq<nat>, nodes: set<nat>)
    requires Queue(heap, len, freq, depth, nodes) && |heap'| == |heap|
    requires forall i :: 1 <= i <= len ==> heap'[i] == heap[i]
    ensures Queue(heap', len, freq, depth, nodes)
  {
    forall i | 1 <= i ensures FatherOk(heap', len, freq, depth, i) { assert FatherOk(heap, len, freq, depth, i); }
  }

  lemma FrequencyFrame(heap: seq<nat>, heap': seq<nat>, top: nat, freq: seq<nat>, nodes: set<nat>)
    requires ByFrequency(heap, top, freq, nodes) && |heap'| == |heap|
    requires forall i :: top <= i < |heap| ==> heap'[i] == heap[i]
    ensures ByFrequency(heap', top, freq, nodes)
  {
  }

  /** Establishes sub-heaps of increasing size. */
  method Heapify(b: Builder, freq: array<nat>, ghost nodes: set<nat>)
    requires b.heap != b.depth && b.heap != freq && b.depth != freq && b.heapLen >= 2
    requires Indexed(b.heap[..], b.heapLen, freq[..], b.depth[..]) && Holds(b.heap[..], b.heapLen, nodes)
    modifies b.heap
    ensures Queue(b.heap[..], b.heapLen, freq[..], b.depth[..], nodes)
  {
    var n: nat := b.heapLen / 2;
    while n >= 1
      invariant Indexed(b.heap[..], b.heapLen, freq[..], b.depth[..]) && Holds(b.heap[..], b.heapLen, nodes)
      invariant n <= b.heapLen / 2 && HeapedFrom(b.heap[..], b.heapLen, freq[..], b.depth[..], n + 1)
    {
      DownHeap(b.heap, b.heapLen, freq[..], b.depth[..], n, nodes);
      n := n - 1;
    }
  }

  ghost function Planting(d: Desc, freq: seq<nat>, dl: seq<nat>, maxCode: nat): Grove
    requires d.elems <= |freq|
  {
    Grove(d.elems, maxCode, Used(freq, d.elems), 0, Used(freq, d.elems), seq(|dl|, _ => HEAP_SIZE))
  }

  lemma PlantingGrown(d: Desc, heap: seq<nat>, len: nat, freq: seq<nat>, depth: seq<nat>, dl: seq<nat>, maxCode: int)
    requires Collected(heap, len, freq, dl, d.elems, maxCode) && len >= 2 && |freq| <= |depth|
    ensures 0 <= maxCode < d.elems && Indexed(heap, len, freq, depth)
    ensures Grown(Planting(d, freq, dl, maxCode), heap, dl) && ByFrequency(heap, HEAP_SIZE, freq, Used(freq, d.elems))
  {
    hide HeapedFrom;
  }

  /** Merges until one node is left. */
  method MergeAll(b: Builder, freq: array<nat>, dl: array<nat>, elems: nat, ghost g0: Grove, ghost total: int)
    returns (ghost g: Grove, ghost w: nat)
    requires Merging(b, freq, dl, g0, 0, total) && g0.made == 0 && b.heapLen >= 2 && elems == g0.elems
    modifies b`heapLen, b`heapMax, b.heap, b.depth, freq, dl
    ensures Merging(b, freq, dl, g, w, total) && b.heapLen == 1 && g.made == old(b.heapLen) - 1
    ensures g.elems == elems && g.maxCode == g0.maxCode && g.leaves == g0.leaves && elems + g.made - 1 in g.nodes
    ensures forall i :: 0 <= i < elems ==> freq[i] == old(freq[i])
  {
    hide Queue, Grown, ByFrequency, Weighed, Risen;
    g, w := g0, 0;
    var node := elems;
    while b.heapLen >= 2
      invariant Merging(b, freq, dl, g, w, total) && g.made + b.heapLen == old(b.heapLen) && node == elems + g.made
      invariant g.elems == elems && g.maxCode == g0.maxCode && g.leaves == g0.leaves
      invariant (g.made >= 1 ==> node - 1 in g.nodes)
      invariant forall i :: 0 <= i < elems ==> freq[i] == old(freq[i])
      decreases b.heapLen
    {
      ghost var n, m;
      g, w, n, m := MergeOnce(b, freq, dl, node, g, w, total);
      node := node + 1;
    }
  }

  /** The outcome of build_tree(): complete lengths for all symbols in use. */
  ghost predicate Built(d: Desc, freq: seq<nat>, lens: seq<nat>, bl: seq<nat>) {
    && 1 <= |lens| <= d.elems <= |freq| && CountsOf(bl, lens) && Kraft(lens) == Pow2(MAXBITS)
    && (forall n :: 0 <= n < |lens| ==> lens[n] <= d.maxLength)
    && (forall n :: 0 <= n < d.elems && freq[n] > 0 ==> n < |lens| && lens[n] >= 1)
  }

  /** The collected leaves as a heap. */
  method Sprout(b: Builder, d: Desc, freq: array<nat>, dl: array<nat>, maxCode: nat)
    requires b.Arrays(freq, dl) && DescOk(d) && freq.Length == 2 * d.elems + 1 && 2 <= b.heapLen <= d.elems
    requires b.heapMax == HEAP_SIZE
    requires Collected(b.heap[..], b.heapLen, freq[..], dl[..], d.elems, maxCode)
    requires Leafy(freq[..], b.depth[..], d.elems)
    modifies b.heap
    ensures var total := Sum(Weights(freq[..], Used(freq[..], d.elems)));
      Merging(b, freq, dl, Planting(d, freq[..], dl[..], maxCode), 0, total)
  {
    hide Queue, Grown, ByFrequency, Collected, Holds, Pow2, Indexed, Weighed, Risen, Sum;
    ghost var g := Planting(d, freq[..], dl[..], maxCode);
    ghost var heap := b.heap[..];
    PlantingGrown(d, heap, b.heapLen, freq[..], b.depth[..], dl[..], maxCode);
    CollectedHolds(heap, b.heapLen, freq[..], dl[..], d.elems, maxCode);
    Heapify(b, freq, g.nodes);
    GrownFrame(g, heap, b.heap[..], dl[..]);
    FrequencyFrame(heap, b.heap[..], HEAP_SIZE, freq[..], g.nodes);
    WeighedStart(g, b.heap[..], freq[..]);
    RisenStart(g, b.heap[..], freq[..], b.depth[..]);
  }

  /** The depths in the tree are a code of least cost. */
  ghost predicate Thrifty(t: Shape, freq: seq<nat>, leaves: set<nat>) {
    forall deep: seq<nat>, top: nat :: |deep| == |freq| && Deep(t, deep, top) ==> LeastCost(freq, deep, leaves, top)
  }

  /** From the root on, nodes get rarer. */
  ghost predicate Descending(t: Shape, freq: seq<nat>) {
    && (forall p :: 0 <= p < |t.order| ==> t.order[p] < |freq|)
    && forall p, q :: 1 <= p < q < |t.order| ==> freq[t.order[p]] >= freq[t.order[q]]
  }

  lemma FinishedThrifty(g: Grove, heap: seq<nat>, dl: seq<nat>, freq: seq<nat>, w: nat)
    requires Grown(g, heap, dl) && g.nodes == {g.elems + g.made - 1} && g.made >= 1 && 1 <= Top(g)
    requires Weighed(g, heap, freq, w)
    ensures g.elems + g.made <= |g.place| && Thrifty(Finished(g, heap), freq, g.leaves)
  {
    hide Deep, LeastCost, Weighed;
    assert g.elems + g.made <= |g.place|;
    var t := Finished(g, heap);
    forall deep: seq<nat>, top: nat | |deep| == |freq| && Deep(t, deep, top)
      ensures LeastCost(freq, deep, g.leaves, top)
    {
      FinishedLeast(g, heap, dl, freq, w, deep, top);
    }
  }

  /** No code of least cost is less deep than the tree. */
  ghost predicate Sheer(t: Shape, freq: seq<nat>, leaves: set<nat>) {
    forall lens: seq<nat>, top: nat, deep: seq<nat>, top': nat, limit: nat ::
      |lens| == |deep| == |freq| && Codable(lens, leaves, top) && Deep(t, deep, top') ==>
        Steep(t, freq, leaves, lens, deep, limit)
  }

  lemma FinishedSheer(g: Grove, heap: seq<nat>, dl: seq<nat>, freq: seq<nat>, depth: seq<nat>, w: nat, total: int)
    requires Grown(g, heap, dl) && g.nodes == {g.elems + g.made - 1} && g.made >= 1 && 1 <= Top(g)
    requires Weighed(g, heap, freq, w) && Risen(g, heap, freq, depth, w, total)
    ensures g.elems + g.made <= |g.place| && Sheer(Finished(g, heap), freq, g.leaves)
  {
    hide Deep, Weighed, Slender, Grounded, Codable, Steep;
    assert g.elems + g.made <= |g.place|;
    var t := Finished(g, heap);
    forall lens: seq<nat>, top: nat, deep: seq<nat>, top': nat, limit: nat |
      |lens| == |deep| == |freq| && Codable(lens, g.leaves, top) && Deep(t, deep, top')
      ensures Steep(t, freq, g.leaves, lens, deep, limit)
    {
      FinishedSteep(g, heap, dl, freq, depth[..|freq|], w, total, lens, top, deep, top', limit);
    }
  }

  lemma FinishedDescending(g: Grove, heap: seq<nat>, freq: seq<nat>)
    requires |heap| == HEAP_SIZE && g.elems + g.made - 1 in g.nodes
    requires g.made >= 1 && 1 <= Top(g) && g.elems + g.made <= |g.place| && ByFrequency(heap, Top(g), freq, g.nodes)
    ensures Descending(Finished(g, heap), freq)
  {
    var t, top := Finished(g, heap), Top(g) - 1;
    forall p | 1 <= p < |t.order| ensures t.order[p] == heap[top + p] { }
  }

  /** The last node is the root. */
  method PlaceRoot(b: Builder, d: Desc, freq: array<nat>, dl: array<nat>, ghost g: Grove, ghost w: nat,
                   ghost total: int)
    returns (ghost t: Shape)
    requires Merging(b, freq, dl, g, w, total) && DescOk(d) && b.heapLen == 1 && g.elems == d.elems && 1 <= g.made
    requires g.elems + g.made - 1 in g.nodes
    modifies b`heapMax, b.heap
    ensures b.Planted(d, t, dl) && t.maxCode == g.maxCode && |t.order| == 2 * g.made + 1
    ensures Fathered(t, dl[..])
    ensures forall n :: 0 <= n < g.elems && n < |t.pos| && n < dl.Length ==>
        (t.pos[n] < |t.order| <==> n in g.leaves) && (n !in g.leaves ==> dl[n] == 0)
    ensures Thrifty(t, freq[..], g.leaves) && Descending(t, freq[..])
    ensures total <= 65535 ==> Sheer(t, freq[..], g.leaves)
  {
    hide Queue, Grown, ByFrequency, Holds, ShapeOk, Pow2, Fathered, Weighed, Thrifty, Descending, Risen, Sheer;
    ghost var heap := b.heap[..];
    LastNode(heap, freq[..], b.depth[..], g.nodes, g.elems + g.made - 1);
    FinishedShape(g, heap, dl[..]);
    FinishedLeaves(g, heap, dl[..]);
    FinishedThrifty(g, heap, dl[..], freq[..], w);
    FinishedDescending(g, heap, freq[..]);
    if total <= 65535 { FinishedSheer(g, heap, dl[..], freq[..], b.depth[..], w, total); }
    t := Finished(g, heap);
    b.heapMax := b.heapMax - 1;
    b.heap[b.heapMax] := b.heap[1];
    assert b.heap[..] == heap[b.heapMax := heap[1]];
  }

  /** The tree is in heap[heap_max ..]. */
  method Plant(b: Builder, d: Desc, freq: array<nat>, dl: array<nat>, maxCode: nat) returns (ghost t: Shape)
    requires b.Arrays(freq, dl) && DescOk(d) && freq.Length == 2 * d.elems + 1 && 2 <= b.heapLen <= d.elems
    requires b.heapMax == HEAP_SIZE
    requires Collected(b.heap[..], b.heapLen, freq[..], dl[..], d.elems, maxCode) && maxCode < d.elems
    requires Leafy(freq[..], b.depth[..], d.elems)
    modifies b`heapLen, b`heapMax, b.heap, b.depth, freq, dl
    ensures b.Planted(d, t, dl) && t.maxCode == maxCode && |t.order| == 2 * old(b.heapLen) - 1
    ensures Fathered(t, dl[..])
    ensures forall i :: 0 <= i < d.elems ==> freq[i] == old(freq[i])
    ensures forall n :: 0 <= n < d.elems ==> (t.pos[n] < |t.order| <==> freq[n] > 0) && (freq[n] == 0 ==> dl[n] == 0)
    ensures Thrifty(t, freq[..], Used(freq[..], d.elems)) && Descending(t, freq[..])
    ensures Sum(freq[..d.elems]) <= 65535 ==> Sheer(t, freq[..], Used(freq[..], d.elems))
  {
    hide Merging, Collected, Pow2, ShapeOk, Fathered, Thrifty, Descending, Sheer, Sum, Leafy;
    ghost var f := freq[..];
    ghost var total := Sum(Weights(f, Used(f, d.elems)));
    Sprout(b, d, freq, dl, maxCode);
    ghost var g, w := MergeAll(b, freq, dl, d.elems, Planting(d, freq[..], dl[..], maxCode), total);
    t := PlaceRoot(b, d, freq, dl, g, w, total);
    TotalWeight(f, d.elems);
    assert freq[..d.elems] == f[..d.elems];
    RootPlace(t);
    assert Used(freq[..], d.elems) == Used(f, d.elems);
  }

  lemma TotalWeight(freq: seq<nat>, n: nat)
    requires n <= |freq|
    ensures Sum(Weights(freq, Used(freq, n))) == Sum(freq[..n])
  {
    hide Sum;
    var s := Weights(freq, Used(freq, n));
    SumTail(s, n);
    assert s[..n] == freq[..n];
  }

  lemma CollectedHolds(heap: seq<nat>, len: nat, freq: seq<nat>, dl: seq<nat>, n: nat, maxCode: int)
    requires Collected(heap, len, freq, dl, n, maxCode)
    ensures Holds(heap, len, Used(freq, n))
  {
  }

  lemma LastNode(heap: seq<nat>, freq: seq<nat>, depth: seq<nat>, nodes: set<nat>, x: nat)
    requires Queue(heap, 1, freq, depth, nodes) && x in nodes
    ensures heap[1] == x && nodes == {x}
  {
    OnlyOne(nodes, heap[1], x);
    forall y | y in nodes ensures y == x { OnlyOne(nodes, x, y); }
  }

  lemma FinishedLeaves(g: Grove, heap: seq<nat>, dl: seq<nat>)
    requires Grown(g, heap, dl) && g.nodes == {g.elems + g.made - 1} && g.made >= 1 && 1 <= Top(g)
    ensures var t := Finished(g, heap);
      forall n :: 0 <= n < g.elems ==> (t.pos[n] < |t.order| <==> n in g.leaves) && (n !in g.leaves ==> dl[n] == 0)
  {
    var t := Finished(g, heap);
    forall n | 0 <= n < g.elems ensures t.pos[n] < |t.order| <==> n in g.leaves {
      assert n in g.leaves ==> Paired(g, heap, n);
    }
  }

  /** What was taken off in advance is exactly what the forced codes cost. */
  lemma ForcedFree(d: Desc, freq: seq<nat>, freq0: seq<nat>, added: seq<nat>, len: nat, lens: seq<nat>)
    requires DescOk(d) && Forced(d, freq, freq0, added, len) && |lens| <= d.elems <= |freq0|
    requires forall i :: 0 <= i < |added| ==> added[i] < |lens| && lens[added[i]] == 1
    ensures Bill(freq[..|lens|], Per(d, lens)) == Bill(freq0[..|lens|], Per(d, lens)) + |added|
    ensures Bill(freq[..|lens|], StaticPer(d, lens)) == Bill(freq0[..|lens|], StaticPer(d, lens)) + Forgone(d, added)
  {
    hide Bill, Pow2;
    BillBumped(freq0, added, Per(d, lens));
    BillBumped(freq0, added, StaticPer(d, lens));
    OneEach(Per(d, lens), added);
    if d.hasStatic {
      SameAt(StaticPer(d, lens), d.stree, added);
    } else {
      NoneEach(StaticPer(d, lens), added);
    }
  }

  lemma {:induction false} OneEach(per: seq<nat>, added: seq<nat>)
    requires forall i :: 0 <= i < |added| ==> added[i] < |per| && per[added[i]] == 1
    ensures SumAt(per, added) == |added|
    decreases |added|
  {
    if added != [] { OneEach(per, added[..|added| - 1]); }
  }

  lemma {:induction false} NoneEach(per: seq<nat>, added: seq<nat>)
    requires forall i :: 0 <= i < |added| ==> added[i] < |per| && per[added[i]] == 0
    ensures SumAt(per, added) == 0
    decreases |added|
  {
    if added != [] { NoneEach(per, added[..|added| - 1]); }
  }

  lemma {:induction false} SameAt(per: seq<nat>, per': seq<nat>, added: seq<nat>)
    requires forall i :: 0 <= i < |added| ==> added[i] < |per| && added[i] < |per'| && per[added[i]] == per'[added[i]]
    ensures SumAt(per, added) == SumAt(per', added)
    decreases |added|
  {
    if added != [] { SameAt(per, per', added[..|added| - 1]); }
  }

  /** The lengths in the tree are those of the symbols in use. */
  lemma LensAre(t: Shape, dl: seq<nat>, freq: seq<nat>, limit: nat)
    requires ShapeOk(t) && t.elems + t.inner <= |dl| && t.maxCode < |freq| && Within(t, dl, limit)
    requires forall n :: 0 <= n <= t.maxCode ==>
      (t.pos[n] < |t.order| <==> freq[n] > 0) && (freq[n] == 0 ==> dl[n] == 0)
    ensures LensOf(t, dl) == dl[..t.maxCode + 1]
    ensures forall n :: 0 <= n <= t.maxCode ==> dl[n] <= limit && (freq[n] > 0 ==> dl[n] >= 1)
  {
  }

  /** Rarer symbols never have shorter codes. No prefix code is cheaper unless some code has the maximal length, and if
      the frequencies add up to 16 bits, no prefix code is cheaper if and only if a cheapest one keeps to that
      length. */
  ghost predicate Optimal(d: Desc, freq: seq<nat>, lens: seq<nat>)
    requires d.elems <= |freq|
  {
    var f := freq[..d.elems];
    && RarerNoShorter(f, lens) && (Reaching(lens, d.maxLength) || Cheapest(f, lens))
    && (Sum(f) <= 65535 ==> (Cheapest(f, lens) <==> Attainable(f, d.maxLength)))
  }

  /** The levels are a code of least cost. */
  lemma DeepOptimal(d: Desc, t: Shape, freq: seq<nat>, dl: seq<nat>)
    requires d.elems <= |freq| == |dl| && Thrifty(t, freq, Used(freq, d.elems)) && Deep(t, dl, d.maxLength)
    requires KeepsTo(dl[..d.elems], freq[..d.elems], d.maxLength)
    ensures Optimal(d, freq, dl[..d.elems])
  {
    hide Deep, Cheapest, RarerNoShorter, AtLeast, Codable, Sum, Costs, Used, KeepsTo;
    assert LeastCost(freq, dl, Used(freq, d.elems), d.maxLength);
    LeastIsCheapest(freq, dl, d.elems);
    LeastIsRanked(freq, dl, d.elems, d.maxLength);
  }

  /** The levels of all nodes, as lengths. */
  lemma Levels(t: Shape, n: nat) returns (deep: seq<nat>)
    requires ShapeOk(t) && n >= t.elems + t.inner
    ensures |deep| == n && Deep(t, deep, |t.order|)
  {
    deep := seq(n, y requires 0 <= y < n => if y < |t.pos| && t.pos[y] < |t.order| then Level(t, t.pos[y]) else 0);
    forall p | 0 <= p < |t.order| ensures Level(t, p) <= |t.order| { LevelBound(t, p); }
  }

  lemma {:induction false} LevelBound(t: Shape, p: nat)
    requires ShapeOk(t) && p < |t.order|
    ensures Level(t, p) <= p && (p > 0 ==> Level(t, p) >= 1)
    decreases p
  {
    if p > 0 {
      DadFirst(t, p);
      LevelBound(t, t.pos[Dad(t, p)]);
    }
  }

  /** As a code for the symbols. */
  lemma LevelsCode(t: Shape, freq: seq<nat>, deep: seq<nat>, top: nat)
    requires Deep(t, deep, top) && |deep| == |freq| >= t.elems && Codable(deep, Used(freq, t.elems), top)
    requires forall n :: 0 <= n < t.elems && freq[n] > 0 ==> n <= t.maxCode && t.pos[n] < |t.order|
    ensures CodeFor(deep[..t.elems], freq[..t.elems], top)
  {
    hide Codable;
    forall n | 0 <= n < t.elems && freq[n] > 0 ensures deep[n] >= 1 {
      assert t.order[t.pos[n]] == n && t.pos[n] > 0;
      LevelBound(t, t.pos[n]);
    }
    CodableLess(freq, deep, t.elems, top);
  }

  /** If the tree is too deep for the limit, a cheapest code goes beyond it. */
  lemma CheapestOver(d: Desc, t: Shape, freq: seq<nat>, other: seq<nat>, top: nat) returns (k: nat)
    requires ShapeOk(t) && t.elems == d.elems && t.elems + t.inner <= |freq| && TooDeep(t, d.maxLength)
    requires Thrifty(t, freq, Used(freq, d.elems)) && Sheer(t, freq, Used(freq, d.elems))
    requires forall n :: 0 <= n < d.elems && freq[n] > 0 ==> n <= t.maxCode && t.pos[n] < |t.order|
    requires CodeFor(other, freq[..d.elems], top) && Cheapest(freq[..d.elems], other)
    ensures k < d.elems == |other| && freq[k] > 0 && other[k] > d.maxLength
  {
    hide Deep, AtLeast, Codable, Sum, Costs, TooDeep, Bill, ShapeOk;
    var f, used, pad := freq[..d.elems], Used(freq, d.elems), seq(|freq| - d.elems, _ => 0);
    var deep := Levels(t, |freq|);
    var lens := other + pad;
    assert LeastCost(freq, deep, used, |t.order|);
    LevelsCode(t, freq, deep, |t.order|);
    CodableMore(freq, other, d.elems, top, pad);
    BillIsCosts(freq, lens, d.elems);
    BillIsCosts(freq, deep, d.elems);
    assert lens[..d.elems] == other;
    assert Steep(t, freq, used, lens, deep, d.maxLength);
    k :| k in used && k < |lens| && lens[k] > d.maxLength;
  }

  /** So no cheapest code keeps to it. */
  lemma NotWithin(d: Desc, t: Shape, freq: seq<nat>, other: seq<nat>)
    requires ShapeOk(t) && t.elems == d.elems && t.elems + t.inner <= |freq| && TooDeep(t, d.maxLength)
    requires Thrifty(t, freq, Used(freq, d.elems)) && Sheer(t, freq, Used(freq, d.elems))
    requires forall n :: 0 <= n < d.elems && freq[n] > 0 ==> n <= t.maxCode && t.pos[n] < |t.order|
    ensures !(KeepsTo(other, freq[..d.elems], d.maxLength) && Cheapest(freq[..d.elems], other))
  {
    hide TooDeep, ShapeOk, Thrifty, Sheer, Cheapest, CodeFor;
    var f := freq[..d.elems];
    if top: nat :| CodeFor(other, f, top) && Cheapest(f, other) {
      var k := CheapestOver(d, t, freq, other, top);
      assert f[k] > 0 && other[k] > d.maxLength;
    }
  }

  /** Repaired lengths still follow the frequencies. */
  lemma FallingRanked(d: Desc, t: Shape, freq: seq<nat>, dl: seq<nat>)
    requires ShapeOk(t) && t.elems == d.elems <= |freq| == |dl| && t.elems + t.inner <= |dl|
    requires Descending(t, freq) && Falling(t, 0, dl, 1)
    requires forall n :: 0 <= n < d.elems ==> (t.pos[n] < |t.order| <==> freq[n] > 0)
    requires forall n :: 0 <= n < d.elems && freq[n] > 0 ==> n <= t.maxCode
    ensures RarerNoShorter(freq[..d.elems], dl[..d.elems])
  {
    var f, l := freq[..d.elems], dl[..d.elems];
    forall a, b | 0 <= a < |f| && 0 <= b < |f| && 0 < f[a] < f[b] ensures l[a] >= l[b] {
      Places(t, freq, a, b);
    }
  }

  lemma Places(t: Shape, freq: seq<nat>, a: nat, b: nat)
    requires ShapeOk(t) && t.elems + t.inner <= |freq| && Descending(t, freq) && a <= t.maxCode && b <= t.maxCode
    requires t.pos[a] < |t.order| && t.pos[b] < |t.order| && freq[a] < freq[b]
    ensures t.pos[b] < t.pos[a]
  {
    assert t.order[t.pos[a]] == a && t.order[t.pos[b]] == b;
  }

  lemma ReachingMore(lens: seq<nat>, more: seq<nat>, limit: nat)
    requires lens <= more && Reaching(lens, limit)
    ensures Reaching(more, limit)
  {
    var n :| 0 <= n < |lens| && lens[n] == limit;
    assert more[n] == limit;
  }

  lemma LensOptimal(d: Desc, t: Shape, freq: seq<nat>, dl: seq<nat>)
    requires ShapeOk(t) && t.elems == d.elems <= |freq| == |dl| && t.elems + t.inner <= |dl|
    requires Thrifty(t, freq, Used(freq, d.elems)) && Descending(t, freq)
    requires Sum(freq[..d.elems]) <= 65535 ==> Sheer(t, freq, Used(freq, d.elems))
    requires forall n :: 0 <= n < d.elems ==> (t.pos[n] < |t.order| <==> freq[n] > 0)
    requires forall n :: 0 <= n < d.elems && freq[n] > 0 ==> n <= t.maxCode
    requires KeepsTo(dl[..d.elems], freq[..d.elems], d.maxLength)
    requires || Deep(t, dl, d.maxLength)
             || (Reaching(dl[..t.maxCode + 1], d.maxLength) && Falling(t, 0, dl, 1) && TooDeep(t, d.maxLength))
    ensures Optimal(d, freq, dl[..d.elems])
  {
    hide Thrifty, Descending, Deep, Reaching, Falling, Cheapest, RarerNoShorter, Used, Sheer, KeepsTo, TooDeep, Sum,
      ShapeOk;
    if Deep(t, dl, d.maxLength) {
      DeepOptimal(d, t, freq, dl);
    } else {
      FallingRanked(d, t, freq, dl);
      RootPlace(t);
      ReachingMore(dl[..t.maxCode + 1], dl[..d.elems], d.maxLength);
      var f := freq[..d.elems];
      forall other: seq<nat> | Sum(f) <= 65535 ensures !(KeepsTo(other, f, d.maxLength) && Cheapest(f, other)) {
        NotWithin(d, t, freq, other);
      }
    }
  }

  /** gen_bitlen() on the tree: the lengths of all symbols. */
  method Measure(b: Builder, d: Desc, freq: array<nat>, dl: array<nat>, maxCode: nat, ghost t: Shape)
    requires b.Arrays(freq, dl) && freq.Length == 2 * d.elems + 1 && maxCode < d.elems
    requires b.Planted(d, t, dl) && t.maxCode == maxCode && Fathered(t, dl[..])
    requires forall n :: 0 <= n < d.elems ==> (t.pos[n] < |t.order| <==> freq[n] > 0) && (freq[n] == 0 ==> dl[n] == 0)
    requires forall n :: 0 <= n < d.elems && freq[n] > 0 ==> n <= maxCode
    requires Thrifty(t, freq[..], Used(freq[..], d.elems)) && Descending(t, freq[..])
    requires Sum(freq[..d.elems]) <= 65535 ==> Sheer(t, freq[..], Used(freq[..], d.elems))
    modifies dl, b.blCount, b`optLen, b`staticLen
    ensures Built(d, freq[..], dl[..maxCode + 1], b.blCount[..]) && Optimal(d, freq[..], dl[..d.elems])
    ensures |t.order| == 3 ==> forall n :: 0 <= n <= maxCode ==> dl[n] <= 1
    ensures forall n :: 0 <= n < d.elems && freq[n] == 0 ==> dl[n] == 0
    ensures b.Billed(d, freq[..maxCode + 1], dl[..maxCode + 1], old(b.optLen), old(b.staticLen))
  {
    hide Bill, Per, StaticPer, Pow2, Fathered, LensOf, CountsOf, Kraft, Within, OffTree, Thrifty, Descending, Deep,
      Reaching, Falling, Optimal, Used, ShapeOk, Sheer, Sum, TooDeep, KeepsTo;
    ghost var was := dl[..];
    b.GenBitlen(d, maxCode, freq, dl, t);
    RootPlace(t);
    StillZero(t, dl[..], was, freq[..]);
    LensAre(t, dl[..], freq[..], d.maxLength);
    if |t.order| == 3 { LensAre(t, dl[..], freq[..], 1); }
    BuiltKeeps(d, freq[..], dl[..], maxCode + 1, b.blCount[..]);
    LensOptimal(d, t, freq[..], dl[..]);
  }

  /** Complete lengths are a code within the limit. */
  lemma BuiltKeeps(d: Desc, freq: seq<nat>, dl: seq<nat>, n: nat, bl: seq<nat>)
    requires n <= d.elems <= |freq| && d.elems <= |dl| && Built(d, freq, dl[..n], bl) && d.maxLength <= MAXBITS
    ensures KeepsTo(dl[..d.elems], freq[..d.elems], d.maxLength)
  {
    hide Kraft, CountsOf, Pow2, KeepsTo;
    assert dl[..d.elems][..n] == dl[..n];
    KraftKeeps(freq[..d.elems], dl[..d.elems], n, d.maxLength);
  }

  /** Adding the forced codes changes nothing about costs. */
  lemma ForcedOptimal(d: Desc, freq: seq<nat>, freq0: seq<nat>, added: seq<nat>, lens: seq<nat>, n: nat)
    requires d.elems <= |freq| == |freq0| && |lens| == d.elems && n <= d.elems && Optimal(d, freq, lens)
    requires added == [] ==> freq == freq0
    requires added != [] ==> forall k :: 0 <= k < n ==> lens[k] <= 1
    requires forall k :: n <= k < d.elems ==> lens[k] == 0
    requires forall k :: 0 <= k < d.elems && freq0[k] > 0 ==> lens[k] >= 1
    requires KeepsTo(lens, freq0[..d.elems], d.maxLength)
    ensures Optimal(d, freq0, lens)
  {
    hide Cheapest, RarerNoShorter, Reaching, KeepsTo, Sum;
    if added != [] { OneBitEach(freq0[..d.elems], lens); }
  }

  /** build_tree(): a complete code over all symbols in use, within the length limit and otherwise of least cost, and
      opt_len and static_len grown by exactly what the symbols cost; the forced codes cost nothing. */
  method BuildTree(b: Builder, d: Desc, freq: array<nat>, dl: array<nat>) returns (maxCode: nat)
    requires b.Arrays(freq, dl) && DescOk(d) && freq.Length == 2 * d.elems + 1
    modifies b, b.heap, b.depth, b.blCount, freq, dl
    ensures maxCode < d.elems && Built(d, old(freq[..]), dl[..maxCode + 1], b.blCount[..])
    ensures forall n :: maxCode < n < d.elems ==> dl[n] == 0
    ensures Optimal(d, old(freq[..]), dl[..d.elems])
    ensures KeepsTo(dl[..d.elems], old(freq[..])[..d.elems], d.maxLength)
    ensures b.optLen == old(b.optLen) + Bill(old(freq[..])[..maxCode + 1], Per(d, dl[..maxCode + 1]))
    ensures b.staticLen == old(b.staticLen) + Bill(old(freq[..])[..maxCode + 1], StaticPer(d, dl[..maxCode + 1]))
  {
    hide Bill, Per, StaticPer, Pow2, Collected, Forced, ShapeOk, Fathered, CountsOf, Kraft, Thrifty, Descending,
      Optimal, Used, Leafy, Sheer, Sum, KeepsTo;
    ghost var freq0 := freq[..];
    var max := Collect(b, d, freq, dl);
    ghost var added: seq<nat>;
    max, added := Force(b, d, freq, dl, max);
    ghost var f: seq<nat>, len := freq[..], b.heapLen;
    UsedBelow(b.heap[..], len, f, dl[..], d.elems, max);
    maxCode := max;
    ghost var t := Plant(b, d, freq, dl, maxCode);
    Measure(b, d, freq, dl, maxCode, t);
    assert freq[..maxCode + 1] == f[..maxCode + 1];
    BuiltFrame(d, freq[..], f, dl[..], maxCode + 1, b.blCount[..]);
    Unforced(d, f, freq0, added, len, dl[..], maxCode + 1, b.blCount[..]);
  }

  lemma BuiltFrame(d: Desc, freq: seq<nat>, freq': seq<nat>, dl: seq<nat>, n: nat, bl: seq<nat>)
    requires d.elems <= |freq| && d.elems <= |freq'| && forall i :: 0 <= i < d.elems ==> freq'[i] == freq[i]
    requires n <= d.elems <= |dl| && Built(d, freq, dl[..n], bl) && Optimal(d, freq, dl[..d.elems])
    ensures Built(d, freq', dl[..n], bl) && Optimal(d, freq', dl[..d.elems])
  {
    hide Kraft, CountsOf, Pow2, Optimal;
    OptimalFrame(d, freq, freq', dl[..d.elems]);
  }

  /** The same lengths for the frequencies without the forced codes. */
  lemma Unforced(d: Desc, freq: seq<nat>, freq0: seq<nat>, added: seq<nat>, len: nat, dl: seq<nat>, n: nat,
                 bl: seq<nat>)
    requires DescOk(d) && Forced(d, freq, freq0, added, len) && len >= 2 && n <= d.elems <= |freq| && d.elems <= |dl|
    requires Built(d, freq, dl[..n], bl) && Optimal(d, freq, dl[..d.elems]) && |freq| == |freq0|
    requires len == 2 ==> forall k :: 0 <= k < n ==> dl[k] <= 1
    requires forall k :: n <= k < d.elems ==> dl[k] == 0
    ensures Built(d, freq0, dl[..n], bl) && Optimal(d, freq0, dl[..d.elems])
    ensures KeepsTo(dl[..d.elems], freq0[..d.elems], d.maxLength)
    ensures Bill(freq[..n], Per(d, dl[..n])) == Bill(freq0[..n], Per(d, dl[..n])) + |added|
    ensures (forall i :: 0 <= i < |added| ==> added[i] < 3) &&
            Bill(freq[..n], StaticPer(d, dl[..n])) == Bill(freq0[..n], StaticPer(d, dl[..n])) + Forgone(d, added)
  {
    hide Kraft, CountsOf, Pow2, Optimal, Bill, Per, StaticPer, KeepsTo, Forgone;
    var lens := dl[..n];
    ForcedSmall(d, freq, freq0, added, len, lens);
    ForcedFree(d, freq, freq0, added, len, lens);
    BuiltKeeps(d, freq0, dl, n, bl);
    ForcedOptimal(d, freq, freq0, added, dl[..d.elems], n);
  }

  lemma OptimalFrame(d: Desc, freq: seq<nat>, freq': seq<nat>, lens: seq<nat>)
    requires d.elems <= |freq| && d.elems <= |freq'| && forall i :: 0 <= i < d.elems ==> freq'[i] == freq[i]
    requires Optimal(d, freq, lens)
    ensures Optimal(d, freq', lens)
  {
    assert freq[..d.elems] == freq'[..d.elems];
  }

  lemma UsedBelow(heap: seq<nat>, len: nat, freq: seq<nat>, dl: seq<nat>, elems: nat, maxCode: int)
    requires Collected(heap, len, freq, dl, elems, maxCode) && len >= 2
    ensures 0 <= maxCode < elems <= |freq| && forall n :: 0 <= n < elems && freq[n] > 0 ==> n <= maxCode
  {
  }

  lemma StillZero(t: Shape, dl: seq<nat>, was: seq<nat>, freq: seq<nat>)
    requires OffTree(t, dl, was) && t.elems <= |freq| && t.elems <= |t.pos| && t.elems <= |dl|
    requires forall n :: 0 <= n < t.elems ==> (t.pos[n] < |t.order| <==> freq[n] > 0) && (freq[n] == 0 ==> was[n] == 0)
    ensures forall n :: 0 <= n < t.elems && freq[n] == 0 ==> dl[n] == 0
  {
  }

  /** When codes were forced there are just two, of one bit each. */
  lemma ForcedSmall(d: Desc, freq: seq<nat>, freq0: seq<nat>, added: seq<nat>, len: nat, lens: seq<nat>)
    requires Forced(d, freq, freq0, added, len) && len >= 2 && |lens| <= |freq|
    requires forall n :: 0 <= n < |freq| && n < d.elems && freq[n] > 0 ==> n < |lens| && lens[n] >= 1
    requires len == 2 ==> forall n :: 0 <= n < |lens| ==> lens[n] <= 1
    requires 3 <= d.elems
    ensures forall i :: 0 <= i < |added| ==> added[i] < |lens| && lens[added[i]] == 1
    ensures forall n :: 0 <= n < |freq| && freq0[n] > 0 ==> freq[n] > 0
    ensures added == [] ==> freq == freq0
    ensures added != [] ==> len == 2
  {
    forall n | 0 <= n < |freq| ensures freq[n] >= freq0[n] { BumpedMore(freq0, added, n); }
  }
}
