/** The tables that inflate() of zlib/inflate.c builds for a coded block, and the bits it may hold between codes. */
module BlockTables {
  import opened Bits
  import opened Huffman
  import opened DecodeTable
  import opened InflateTable
  import opened InflateSpec
  import opened BitReader
  import opened InflateWindow
  import opened CodedStates
  import opened BlockCost
  import opened BlockTypes
  import opened Header

  /** There is room for the table: the numbers are those inflate() works with, or no code is longer than the index. */
  ghost predicate Roomy(ty: CodeType, lens: seq<nat>, bits: nat) { Planned(ty, lens, bits) || !LongCode(lens, bits) }

  /** One table. */
  method MakeTable(ty: CodeType, lens: seq<nat>, bits: nat) returns (ok: bool, tab: Table)
    requires ty != CODES && ValidLengths(lens) && InAlphabet(ty, |lens|) && bits <= 9
    ensures ok ==> TableOk(tab, ty, lens) && !Refused(ty, lens)
    ensures Roomy(ty, lens, bits) ==> (ok <==> !Refused(ty, lens))
  {
    hide Decodes, Meaning, Refused, LongCode, Usable, Planned;
    var table := new Entry[Enough(ty)](_ => INVALID);
    var work := new nat[288](_ => 0);
    var ret, root, used := InflateTable.InflateTable(ty, lens, table, bits, work);
    Pow2Mono(bits, 9);
    ok := ret == 0;
    tab := Table([], 0);
    if ok {
      AcceptedIsUsable(ty, lens);
      tab := Table(table[..used], root);
    }
  }

  /** The table of the code length code. */
  method MakeLenTable(bl: seq<nat>) returns (ok: bool, tab: Table)
    requires |bl| <= 19 && forall s :: 0 <= s < |bl| ==> bl[s] <= 7
    ensures ok <==> !Refused(CODES, bl)
    ensures ok ==> TableOk(tab, CODES, bl)
  {
    hide Decodes, Meaning, Refused, Usable, Pow2;
    SmallPowers();
    var table := new Entry[128](_ => INVALID);
    var work := new nat[288](_ => 0);
    var ret, root, used := InflateTable.InflateTable(CODES, bl, table, 7, work);
    ok := ret == 0;
    tab := Table([], 0);
    if ok {
      AcceptedIsUsable(CODES, bl);
      tab := Table(table[..used], root);
    }
  }

  /** Both tables of a block. */
  method MakeTables(c: Codes, distBits: nat) returns (ok: bool, lt: Table, dt: Table)
    requires ValidCodes(c) && ValidLengths(c.ll) && ValidLengths(c.dl) && distBits <= 9
    ensures ok ==> TableOk(lt, LENS, c.ll) && TableOk(dt, DISTS, c.dl)
    ensures ok ==> !Refused(LENS, c.ll) && !Refused(DISTS, c.dl)
    ensures Roomy(LENS, c.ll, 9) && Roomy(DISTS, c.dl, distBits) ==>
      (ok <==> !Refused(LENS, c.ll) && !Refused(DISTS, c.dl))
  {
    hide TableOk, Refused, Roomy;
    dt := Table([], 0);
    ok, lt := MakeTable(LENS, c.ll, 9);
    if ok { ok, dt := MakeTable(DISTS, c.dl, distBits); }
  }

  // ----- the fixed code -----

  lemma FixedShort()
    ensures ValidCodes(Fixed()) && ValidLengths(Fixed().ll) && ValidLengths(Fixed().dl)
    ensures Roomy(LENS, Fixed().ll, 9) && Roomy(DISTS, Fixed().dl, 5)
  {
  }

  /** The tables of the fixed code are always built. */
  method FixedTables() returns (lt: Table, dt: Table)
    ensures TableOk(lt, LENS, Fixed().ll) && TableOk(dt, DISTS, Fixed().dl)
  {
    hide TableOk, Refused, Roomy, Kraft, Pow2, StaticLengths, StaticDistances;
    FixedShort();
    FixedComplete();
    CompleteAccepted(LENS, Fixed().ll);
    CompleteAccepted(DISTS, Fixed().dl);
    var ok;
    ok, lt, dt := MakeTables(Fixed(), 5);
  }

  // ----- bits held on entry to inflate_fast() -----

  /** The first eight bits of a longer code decide nothing. */
  lemma EightBits(lens: seq<nat>, s: nat, b: byte)
    requires IsSymbol(lens, s) && lens[s] > 8 && Kraft(lens) <= Pow2(MAXBITS) && b == Low(Code(lens, s), 8)
    ensures Decode(lens, BytesToBits([b])).TooShort?
  {
    hide Code, Kraft, Pow2, FromBits, ToBits, Low;
    var bits := BytesToBits([b]);
    SmallPowers();
    assert bits == ToBits(b, 8);
    forall u: nat ensures !HasPrefix(lens, u, bits) {
      if HasPrefix(lens, u, bits) {
        PrefixOf(b, 8, lens[u]);
        LowLow(Code(lens, s), lens[u], 8);
        PrefixFree(lens, u, s);
      }
    }
    PrefixOf(b, 8, 8);
    assert bits[..8] == bits;
    LowSmall(b, 8);
    assert MayStart(lens, s, bits);
  }

  lemma PrefixOf(v: nat, n: nat, l: nat)
    requires l <= n
    ensures FromBits(ToBits(v, n)[..l]) == Low(v, l)
  {
    hide ToBits, FromBits, Low;
    assert l + (n - l) == n;
    ToBitsSplit(v, l, n - l);
    assert ToBits(v, n)[..l] == ToBits(v, l);
    FromToBits(v, l);
  }

  /** The comment on inflate_fast() asks for fewer than eight bits held. Between calls this is so in every state if and
      only if no literal/length code is longer than eight bits. */
  lemma FewBitsHeld(c: Codes, lt: Table, dt: Table)
    requires ValidCodes(c) && ValidLengths(c.ll) && TableOk(lt, LENS, c.ll)
    ensures !LongCode(c.ll, 8) <==>
      forall hold: nat, bits: nat :: hold < Pow2(bits) && Settled(lt, dt, LEN, Reader(hold, bits, 0)) ==> bits < 8
  {
    hide Decodes, Meaning, Lookup, Usable, Pow2;
    var ents := Meaning(LENS, |c.ll|);
    if LongCode(c.ll, 8) {
      var s: nat :| s < |c.ll| && c.ll[s] > 8;
      EightUndecided(c, lt, s);
      var hold := Low(Code(c.ll, s), 8);
      assert hold < Pow2(8) && Settled(lt, dt, LEN, Reader(hold, 8, 0));
    } else {
      forall hold: nat, bits: nat | hold < Pow2(bits) && Settled(lt, dt, LEN, Reader(hold, bits, 0)) ensures bits < 8 {
        FoundCases(lt.t, lt.root, c.ll, ents, hold);
      }
    }
  }

  lemma EightUndecided(c: Codes, lt: Table, s: nat)
    requires ValidCodes(c) && TableOk(lt, LENS, c.ll) && IsSymbol(c.ll, s) && c.ll[s] > 8
    ensures Undecided(lt, Reader(Low(Code(c.ll, s), 8), 8, 0), 8)
  {
    hide Meaning, Lookup, Usable, Pow2, Low, Code, Kraft;
    var lens, hold := c.ll, Low(Code(c.ll, s), 8);
    StartsOrOneBit(lens, hold);
    var u: nat :| StartsWith(lens, u, hold);
    if lens[u] <= 8 {
      LowLow(Code(lens, s), lens[u], 8);
      UsableKraft(lens);
      PrefixFree(lens, u, s);
    }
    assert Lookup(lt.t, lt.root, hold).drop == lens[u];
  }

  lemma UsableKraft(lens: seq<nat>)
    requires Usable(lens)
    ensures Kraft(lens) <= Pow2(MAXBITS)
  {
  }

  lemma LongKraft(c: Codes, lt: Table)
    requires TableOk(lt, LENS, c.ll)
    ensures Kraft(c.ll) <= Pow2(MAXBITS)
  {
    UsableKraft(c.ll);
  }

  /** With a longer code such a state is reached: given the first eight bits of it, the LEN state keeps them. The next
      call with enough input and output space enters inflate_fast() with them. */
  method HoldsEight(lt: Table, dt: Table, win: Window, ghost c: Codes, ghost s: nat, b: byte, ghost sent: seq<byte>)
    returns (go: bool, m: Mode, r: Reader)
    requires ValidCodes(c) && TableOk(lt, LENS, c.ll) && TableOk(dt, DISTS, c.dl) && win.Holding(sent)
    requires IsSymbol(c.ll, s) && c.ll[s] > 8 && b == Low(Code(c.ll, s), 8)
    ensures !go && m == LEN && r.bits == 8 && Settled(lt, dt, m, r)
  {
    hide TableOk, Eval, Decode, Pow2, Holds, BytesToBits, Code, Low, Kraft, Starved;
    LongKraft(c, lt);
    EightBits(c.ll, s, b);
    NoBitsHeld([b]);
    var out;
    go, m, r, out := CodedTurn(lt, dt, win, LEN, Reader(0, 0, 0), [], 1, [b], c, [], sent);
  }

  lemma NoBitsHeld(input: seq<byte>)
    ensures Pow2(0) == 1 && Stream(Reader(0, 0, 0), input, []) == BytesToBits(input)
  {
    StreamIs(Reader(0, 0, 0), input, []);
    assert input[0..] + [] == input;
  }

  /** The fixed code has such codes. */
  lemma FixedLong()
    ensures IsSymbol(Fixed().ll, 144) && Fixed().ll[144] > 8 && LongCode(Fixed().ll, 8)
  {
  }
}
