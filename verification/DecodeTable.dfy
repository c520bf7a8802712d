/** Two-level decoding tables for a canonical Huffman code: how a word is looked up, what makes a
    table correct, and why entering the symbols one by one, shortest code first, keeps it so. */
module DecodeTable {
  import opened Bits
  import opened Huffman
  import opened Ranks

  /** One `code` structure: op says what the entry is, bits how much to drop, val its value. */
  datatype Entry = Entry(op: nat, bits: nat, val: nat)

  datatype Found = Found(op: nat, val: nat, drop: nat) | OutOfTable

  /** What each symbol means, with the bits field left open. */
  ghost predicate Meanings(lens: seq<nat>, ents: seq<Entry>) {
    |ents| == |lens| && forall s :: 0 <= s < |ents| ==> !IsLink(ents[s])
  }

  /** op in 1 .. 15: a pointer to a second-level table with op index bits. */
  predicate IsLink(e: Entry) { 1 <= e.op < 16 }

  const INVALID := Entry(64, 1, 0)

  /** Look a word up as the decoding loops do. */
  function Lookup(t: seq<Entry>, root: nat, w: nat): Found {
    var i := Low(w, root);
    if i >= |t| then OutOfTable
    else if !IsLink(t[i]) then Found(t[i].op, t[i].val, t[i].bits)
    else
      var j := t[i].val + Low(Shr(w, t[i].bits), t[i].op);
      if j >= |t| then OutOfTable else Found(t[j].op, t[j].val, t[i].bits + t[j].bits)
  }

  ghost predicate StartsWith(lens: seq<nat>, s: nat, w: nat) {
    IsSymbol(lens, s) && Low(w, lens[s]) == Code(lens, s)
  }

  /** The contract of a table: a word that starts with a code word finds that symbol and drops
      exactly its length; a word that starts with none finds the one-bit invalid marker; a link
      stands for exactly the root index bits. */
  ghost predicate Decodes(t: seq<Entry>, root: nat, lens: seq<nat>, ents: seq<Entry>)
    requires Meanings(lens, ents)
  {
    && (forall s: nat, w: nat :: StartsWith(lens, s, w) ==>
          Lookup(t, root, w) == Found(ents[s].op, ents[s].val, lens[s]))
    && (forall w: nat :: (forall s: nat :: !StartsWith(lens, s, w)) ==>
          Lookup(t, root, w) == Found(INVALID.op, INVALID.val, INVALID.bits))
    && LinksWhole(t, root)
  }

  ghost predicate LinksWhole(t: seq<Entry>, root: nat) {
    forall i: nat :: i < |t| && i < Pow2(root) && IsLink(t[i]) ==> t[i].bits == root
  }

  /** Two symbols cannot both start the same word. */
  lemma NoClash(lens: seq<nat>, s: nat, t: nat, w: nat)
    requires Kraft(lens) <= Pow2(MAXBITS)
    requires StartsWith(lens, s, w) && StartsWith(lens, t, w)
    ensures s == t
  {
    if s != t {
      if lens[s] <= lens[t] {
        LowLow(w, lens[s], lens[t]);
        PrefixFree(lens, s, t);
      } else {
        LowLow(w, lens[t], lens[s]);
        PrefixFree(lens, t, s);
      }
    }
  }

  // ----- where each symbol is stored -----

  /** Symbol s is completely entered in table t, of which the first `used` entries are taken. */
  ghost predicate Placed(t: seq<Entry>, used: nat, root: nat, lens: seq<nat>, ents: seq<Entry>, s: nat)
    requires Meanings(lens, ents) && IsSymbol(lens, s)
    requires Pow2(root) <= used <= |t|
  {
    if lens[s] <= root then PlacedRoot(t, root, lens, ents, s) else PlacedSub(t, used, root, lens, ents, s)
  }

  ghost predicate PlacedRoot(t: seq<Entry>, root: nat, lens: seq<nat>, ents: seq<Entry>, s: nat)
    requires Meanings(lens, ents) && IsSymbol(lens, s) && Pow2(root) <= |t|
  {
    forall i: nat :: i < Pow2(root) && StartsWith(lens, s, i) ==> t[i] == ents[s].(bits := lens[s])
  }

  ghost predicate PlacedSub(t: seq<Entry>, used: nat, root: nat, lens: seq<nat>, ents: seq<Entry>, s: nat)
    requires Meanings(lens, ents) && IsSymbol(lens, s) && root < lens[s]
    requires Pow2(root) <= used <= |t|
  {
    var e := t[Link(lens, root, s)];
    && IsLink(e) && e.bits == root && lens[s] <= root + e.op
    && Pow2(root) <= e.val && e.val + Pow2(e.op) <= used
    && forall i: nat :: i < Pow2(e.op) && SubIndex(lens, root, s, i) ==>
         t[e.val + i] == ents[s].(bits := lens[s] - root)
  }

  /** The index i of a second-level table belongs to the long code of s. */
  ghost predicate SubIndex(lens: seq<nat>, root: nat, s: nat, i: nat)
    requires IsSymbol(lens, s) && root <= lens[s]
  {
    Low(i, lens[s] - root) == Shr(Code(lens, s), root)
  }

  /** The root entry through which a long code is reached. */
  function Link(lens: seq<nat>, root: nat, s: nat): (i: nat)
    requires s < |lens|
    ensures i < Pow2(root)
  {
    Low(Code(lens, s), root)
  }

  ghost predicate AllPlaced(t: seq<Entry>, used: nat, root: nat, lens: seq<nat>, ents: seq<Entry>, k: nat)
    requires Meanings(lens, ents) && Pow2(root) <= used <= |t|
  {
    forall s: nat :: IsSymbol(lens, s) && Rank(lens, s) < k ==> Placed(t, used, root, lens, ents, s)
  }

  /** The second-level tables made so far end at `next`, except the one linked from `low`. */
  ghost predicate LinksBelow(t: seq<Entry>, root: nat, lens: seq<nat>, k: nat, next: nat, low: int)
    requires Pow2(root) <= |t|
  {
    forall s: nat ::
      (IsSymbol(lens, s) && Rank(lens, s) < k && lens[s] > root && Link(lens, root, s) != low) ==>
        var e := t[Link(lens, root, s)]; e.val + Pow2(e.op) <= next
  }

  /** t' is t with `here` at every index of the table at `base` whose low l bits are h. */
  ghost predicate Filled(t: seq<Entry>, t': seq<Entry>, base: nat, curr: nat, l: nat, h: nat, here: Entry) {
    && |t'| == |t| && base + Pow2(curr) <= |t|
    && (forall i: nat :: i < |t| && !(base <= i < base + Pow2(curr)) ==> t'[i] == t[i])
    && (forall i: nat {:trigger Low(i, l)} :: i < Pow2(curr) ==>
          t'[base + i] == if Low(i, l) == h then here else t[base + i])
  }

  lemma FillRoot(t: seq<Entry>, t': seq<Entry>, used: nat, root: nat, lens: seq<nat>, ents: seq<Entry>, s: nat)
    requires Meanings(lens, ents) && IsSymbol(lens, s) && lens[s] <= root
    requires Pow2(root) <= used <= |t| && Kraft(lens) <= Pow2(MAXBITS)
    requires AllPlaced(t, used, root, lens, ents, Rank(lens, s))
    requires Filled(t, t', 0, root, lens[s], Code(lens, s), ents[s].(bits := lens[s]))
    ensures AllPlaced(t', used, root, lens, ents, Rank(lens, s) + 1)
  {
    forall u: nat | IsSymbol(lens, u) && Rank(lens, u) < Rank(lens, s) + 1
      ensures Placed(t', used, root, lens, ents, u)
    {
      RankOrder(lens, u, s);
      if u != s {
        assert lens[u] <= root;
        forall i: nat | i < Pow2(root) && StartsWith(lens, u, i)
          ensures t'[i] == ents[u].(bits := lens[u])
        {
          if StartsWith(lens, s, i) { NoClash(lens, s, u, i); }
        }
      }
    }
  }

  /** A root index followed by a second-level index is a word. */
  lemma Rejoin(lens: seq<nat>, root: nat, s: nat, i: nat)
    requires IsSymbol(lens, s) && lens[s] > root && SubIndex(lens, root, s, i)
    ensures StartsWith(lens, s, Link(lens, root, s) + Shl(i, root))
  {
    hide Low, Shr, Shl, Pow2, Code;
    var c, w := Code(lens, s), Link(lens, root, s) + Shl(i, root);
    SplitUnique(w, root, i, Link(lens, root, s));
    LowSplit(w, root, lens[s] - root);
    Split(c, root);
  }

  lemma SubNoClash(lens: seq<nat>, root: nat, s: nat, u: nat, i: nat)
    requires IsSymbol(lens, s) && lens[s] > root && SubIndex(lens, root, s, i)
    requires IsSymbol(lens, u) && lens[u] > root && SubIndex(lens, root, u, i)
    requires Kraft(lens) <= Pow2(MAXBITS) && Link(lens, root, u) == Link(lens, root, s)
    ensures u == s
  {
    Rejoin(lens, root, u, i);
    Rejoin(lens, root, s, i);
    NoClash(lens, s, u, Link(lens, root, s) + Shl(i, root));
  }

  /** Filling the current second-level table for s leaves an earlier symbol u in place. */
  lemma FillSubKeeps(t: seq<Entry>, t': seq<Entry>, used: nat, root: nat, lens: seq<nat>, ents: seq<Entry>,
                     s: nat, u: nat, next: nat, curr: nat)
    requires Meanings(lens, ents) && IsSymbol(lens, s) && root < lens[s]
    requires IsSymbol(lens, u) && u != s && root < lens[u]
    requires Pow2(root) <= next && next + Pow2(curr) == used <= |t| && Kraft(lens) <= Pow2(MAXBITS)
    requires t[Link(lens, root, s)] == Entry(curr, root, next)
    requires PlacedSub(t, used, root, lens, ents, u)
    requires Link(lens, root, u) != Link(lens, root, s) ==>
               var e := t[Link(lens, root, u)]; e.val + Pow2(e.op) <= next
    requires Filled(t, t', next, curr, lens[s] - root, Shr(Code(lens, s), root),
                    ents[s].(bits := lens[s] - root))
    ensures PlacedSub(t', used, root, lens, ents, u)
  {
    hide Low, Shr, Pow2, Code, Kraft;
    var e := t[Link(lens, root, u)];
    assert t'[Link(lens, root, u)] == e;
    forall i: nat | i < Pow2(e.op) && SubIndex(lens, root, u, i)
      ensures t'[e.val + i] == t[e.val + i]
    {
      if Link(lens, root, u) == Link(lens, root, s) {
        if SubIndex(lens, root, s, i) { SubNoClash(lens, root, s, u, i); }
        assert t'[next + i] == t[next + i];
      }
    }
  }

  lemma FillSubSelf(t: seq<Entry>, t': seq<Entry>, used: nat, root: nat, lens: seq<nat>, ents: seq<Entry>,
                    s: nat, next: nat, curr: nat)
    requires Meanings(lens, ents) && IsSymbol(lens, s) && root < lens[s] <= root + curr
    requires Pow2(root) <= next && next + Pow2(curr) == used <= |t|
    requires 1 <= curr < 16 && t[Link(lens, root, s)] == Entry(curr, root, next)
    requires Filled(t, t', next, curr, lens[s] - root, Shr(Code(lens, s), root),
                    ents[s].(bits := lens[s] - root))
    ensures PlacedSub(t', used, root, lens, ents, s)
  {
    hide Low, Shr, Pow2, Code;
  }

  lemma FillSub(t: seq<Entry>, t': seq<Entry>, used: nat, root: nat, lens: seq<nat>, ents: seq<Entry>, s: nat,
                next: nat, curr: nat)
    requires Meanings(lens, ents) && IsSymbol(lens, s) && root < lens[s] <= root + curr
    requires Pow2(root) <= next && next + Pow2(curr) == used <= |t| && Kraft(lens) <= Pow2(MAXBITS)
    requires 1 <= curr < 16 && t[Link(lens, root, s)] == Entry(curr, root, next)
    requires AllPlaced(t, used, root, lens, ents, Rank(lens, s))
    requires LinksBelow(t, root, lens, Rank(lens, s), next, Link(lens, root, s))
    requires Filled(t, t', next, curr, lens[s] - root, Shr(Code(lens, s), root),
                    ents[s].(bits := lens[s] - root))
    ensures AllPlaced(t', used, root, lens, ents, Rank(lens, s) + 1)
    ensures LinksBelow(t', root, lens, Rank(lens, s) + 1, next, Link(lens, root, s))
    ensures t'[Link(lens, root, s)] == Entry(curr, root, next)
  {
    hide Low, Shr, Pow2, Code, Kraft, Rank, PlacedSub;
    forall u: nat | IsSymbol(lens, u) && Rank(lens, u) < Rank(lens, s) + 1
      ensures Placed(t', used, root, lens, ents, u)
    {
      RankOrder(lens, u, s);
      if u == s {
        FillSubSelf(t, t', used, root, lens, ents, s, next, curr);
      } else if lens[u] > root {
        FillSubKeeps(t, t', used, root, lens, ents, s, u, next, curr);
      }
    }
    forall u: nat | IsSymbol(lens, u) && Rank(lens, u) < Rank(lens, s) + 1 && lens[u] > root
      && Link(lens, root, u) != Link(lens, root, s)
      ensures var e := t'[Link(lens, root, u)]; e.val + Pow2(e.op) <= next
    {
      RankOrder(lens, u, s);
      assert t'[Link(lens, root, u)] == t[Link(lens, root, u)];
    }
  }

  /** Codes longer than root bits are reached through the cell of [0, 2^root) that holds them. */
  function Cell(lens: seq<nat>, root: nat, s: nat): nat
    requires IsSymbol(lens, s) && root <= lens[s]
  {
    Shr(Pos(lens, s), MAXBITS - root)
  }

  lemma CellIsTop(lens: seq<nat>, root: nat, s: nat)
    requires IsSymbol(lens, s) && root <= lens[s]
    ensures Cell(lens, root, s) == Shr(Canon(lens, s), lens[s] - root)
  {
    var l := lens[s];
    PosIsCanon(lens, s);
    SplitUnique(Pos(lens, s), MAXBITS - l, Canon(lens, s), 0);
    ShrShr(Pos(lens, s), MAXBITS - l, l - root);
  }

  lemma LinkIsCell(lens: seq<nat>, root: nat, s: nat)
    requires IsSymbol(lens, s) && root <= lens[s] && Kraft(lens) <= Pow2(MAXBITS)
    ensures Cell(lens, root, s) < Pow2(root) && Link(lens, root, s) == Rev(Cell(lens, root, s), root)
  {
    hide Low, Shr, Shl, Pow2, Rev, Canon, Pos, Kraft;
    CellIsTop(lens, root, s);
    CanonFits(lens, s);
    RevLow(Canon(lens, s), lens[s], root);
    var d := lens[s] - root;
    assert lens[s] - d == root;
    ShrLess(Canon(lens, s), d, lens[s]);
  }

  /** Cells are entered in increasing order, so a new one has never been linked before. */
  lemma NewCell(lens: seq<nat>, root: nat, p: nat, s: nat, u: nat)
    requires IsSymbol(lens, p) && IsSymbol(lens, s) && IsSymbol(lens, u) && Kraft(lens) <= Pow2(MAXBITS)
    requires root < lens[p] && root < lens[s] && root < lens[u]
    requires Rank(lens, u) <= Rank(lens, p) < Rank(lens, s)
    requires Link(lens, root, p) != Link(lens, root, s)
    ensures Link(lens, root, u) != Link(lens, root, s)
  {
    hide Low, Shr, Shl, Pow2, Rev, Link, Pos, Rank, Kraft;
    LinkIsCell(lens, root, p);
    LinkIsCell(lens, root, s);
    LinkIsCell(lens, root, u);
    RankOrder(lens, u, p);
    RankOrder(lens, p, s);
    if u != p { PosOrder(lens, u, p); }
    PosOrder(lens, p, s);
    ShrMono(Pos(lens, u), Pos(lens, p), MAXBITS - root);
    ShrMono(Pos(lens, p), Pos(lens, s), MAXBITS - root);
    if Link(lens, root, u) == Link(lens, root, s) {
      RevInjective(Cell(lens, root, u), Cell(lens, root, s), root);
    }
  }

  /** Linking a new second-level table from the root entry of s keeps an earlier symbol u. */
  lemma AddLinkKeeps(t: seq<Entry>, used: nat, used': nat, root: nat, lens: seq<nat>, ents: seq<Entry>,
                     s: nat, u: nat, link: Entry)
    requires Meanings(lens, ents) && IsSymbol(lens, s) && root < lens[s] && IsSymbol(lens, u)
    requires Pow2(root) <= used <= used' <= |t| && Kraft(lens) <= Pow2(MAXBITS)
    requires Before(lens, u, s) && Placed(t, used, root, lens, ents, u)
    requires lens[u] > root ==> Link(lens, root, u) != Link(lens, root, s)
    ensures Placed(t[Link(lens, root, s) := link], used', root, lens, ents, u)
  {
    hide Low, Shr, Pow2, Code, Kraft;
    if lens[u] <= root {
      LowLow(Code(lens, s), lens[u], root);
      PrefixFree(lens, u, s);
      assert !StartsWith(lens, u, Link(lens, root, s));
    }
  }

  lemma AddLink(t: seq<Entry>, used: nat, used': nat, root: nat, lens: seq<nat>, ents: seq<Entry>, s: nat,
                link: Entry)
    requires Meanings(lens, ents) && IsSymbol(lens, s) && root < lens[s]
    requires Pow2(root) <= used <= used' <= |t| && Kraft(lens) <= Pow2(MAXBITS)
    requires AllPlaced(t, used, root, lens, ents, Rank(lens, s))
    requires forall u: nat :: IsSymbol(lens, u) && Rank(lens, u) < Rank(lens, s) && lens[u] > root ==>
               Link(lens, root, u) != Link(lens, root, s)
    ensures AllPlaced(t[Link(lens, root, s) := link], used', root, lens, ents, Rank(lens, s))
    ensures LinksBelow(t[Link(lens, root, s) := link], root, lens, Rank(lens, s), used, Link(lens, root, s))
  {
    forall u: nat | IsSymbol(lens, u) && Rank(lens, u) < Rank(lens, s)
      ensures Placed(t[Link(lens, root, s) := link], used', root, lens, ents, u)
    {
      RankOrder(lens, u, s);
      AddLinkKeeps(t, used, used', root, lens, ents, s, u, link);
    }
    forall u: nat | IsSymbol(lens, u) && Rank(lens, u) < Rank(lens, s) && lens[u] > root
      ensures var e := t[Link(lens, root, s) := link][Link(lens, root, u)]; e.val + Pow2(e.op) <= used
    {
      assert Placed(t, used, root, lens, ents, u);
    }
  }

  lemma LookupRoot(t: seq<Entry>, used: nat, root: nat, lens: seq<nat>, ents: seq<Entry>, s: nat, w: nat)
    requires Meanings(lens, ents) && StartsWith(lens, s, w) && lens[s] <= root
    requires Pow2(root) <= used <= |t| && PlacedRoot(t, root, lens, ents, s)
    ensures Lookup(t[..used], root, w) == Found(ents[s].op, ents[s].val, lens[s])
  {
    LowLow(w, lens[s], root);
    assert StartsWith(lens, s, Low(w, root));
  }

  /** The two indices of a word that starts with a long code. */
  lemma WordIndices(lens: seq<nat>, root: nat, s: nat, w: nat, op: nat)
    requires StartsWith(lens, s, w) && root < lens[s] <= root + op
    ensures Low(w, root) == Link(lens, root, s)
    ensures SubIndex(lens, root, s, Low(Shr(w, root), op))
  {
    hide Low, Shr, Shl, Pow2, Code;
    var d := lens[s] - root;
    LowLow(w, root, lens[s]);
    LowLow(Shr(w, root), d, op);
    LowSplit(w, root, d);
    SplitUnique(Low(w, lens[s]), root, Low(Shr(w, root), d), Low(w, root));
  }

  lemma LookupSub(t: seq<Entry>, used: nat, root: nat, lens: seq<nat>, ents: seq<Entry>, s: nat, w: nat)
    requires Meanings(lens, ents) && StartsWith(lens, s, w) && root < lens[s]
    requires Pow2(root) <= used <= |t| && PlacedSub(t, used, root, lens, ents, s)
    ensures Lookup(t[..used], root, w) == Found(ents[s].op, ents[s].val, lens[s])
  {
    hide Low, Shr, Pow2, Code;
    var e := t[Link(lens, root, s)];
    WordIndices(lens, root, s, w, e.op);
    var i := Low(Shr(w, root), e.op);
    assert t[e.val + i] == ents[s].(bits := lens[s] - root);
  }

  /** A root entry of a complete code belongs to a short code or is the link of a long one. */
  lemma RootEntry(t: seq<Entry>, used: nat, root: nat, lens: seq<nat>, ents: seq<Entry>, i: nat)
    requires Meanings(lens, ents) && Pow2(root) <= used <= |t| && i < Pow2(root)
    requires AllPlaced(t, used, root, lens, ents, Symbols(lens)) && Kraft(lens) == Pow2(MAXBITS)
    ensures IsLink(t[i]) ==> t[i].bits == root
  {
    hide Low, Shr, Pow2, Code, Kraft, Rank;
    var s := CompleteDecodes(lens, i);
    assert StartsWith(lens, s, i);
    RankBound(lens, s);
    assert Placed(t, used, root, lens, ents, s);
    if root < lens[s] {
      WordIndices(lens, root, s, i, lens[s] - root);
      LowSmall(i, root);
    }
  }

  /** Once every symbol is in place the table decodes: words of a complete code always start with
      a code word, and any other word must find the invalid marker. */
  lemma PlacedDecodes(t: seq<Entry>, used: nat, root: nat, lens: seq<nat>, ents: seq<Entry>)
    requires Meanings(lens, ents) && Pow2(root) <= used <= |t|
    requires AllPlaced(t, used, root, lens, ents, Symbols(lens))
    requires Kraft(lens) == Pow2(MAXBITS)
      || (LinksWhole(t[..used], root) && forall w: nat :: (forall s: nat :: !StartsWith(lens, s, w)) ==>
            Lookup(t[..used], root, w) == Found(INVALID.op, INVALID.val, INVALID.bits))
    ensures Decodes(t[..used], root, lens, ents)
  {
    hide Low, Shr, Pow2, Code, Kraft, Rank, PlacedSub, PlacedRoot, Lookup;
    forall s: nat, w: nat | StartsWith(lens, s, w)
      ensures Lookup(t[..used], root, w) == Found(ents[s].op, ents[s].val, lens[s])
    {
      RankBound(lens, s);
      if lens[s] <= root { LookupRoot(t, used, root, lens, ents, s, w); }
      else { LookupSub(t, used, root, lens, ents, s, w); }
    }
    forall w: nat
      ensures (exists s: nat :: StartsWith(lens, s, w))
           || Lookup(t[..used], root, w) == Found(INVALID.op, INVALID.val, INVALID.bits)
    {
      if Kraft(lens) == Pow2(MAXBITS) {
        var s := CompleteDecodes(lens, w);
        assert StartsWith(lens, s, w);
      }
    }
    if Kraft(lens) == Pow2(MAXBITS) {
      forall i: nat | i < Pow2(root) ensures IsLink(t[i]) ==> t[i].bits == root {
        RootEntry(t, used, root, lens, ents, i);
      }
    }
  }
}
