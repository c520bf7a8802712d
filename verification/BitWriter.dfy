/** The bit buffer of zlib/trees.c and the assignment of code words by gen_codes().
    The output is a bit string: sending a value appends its bits, whatever the buffer holds. */
module BitWriter {
  import opened Bits
  import opened Huffman

  const BUF_SIZE: nat := 16

  /** How many bits are missing to a byte boundary. */
  function Pad(n: nat): nat { (8 - n % 8) % 8 }

  /** bi_buf and bi_valid, and the bytes already put in pending_buf. */
  class Writer {
    var buf: nat
    var valid: nat
    var pending: seq<byte>

    ghost predicate Valid()
      reads this
    {
      valid <= BUF_SIZE && buf < Pow2(valid)
    }

    /** Everything sent so far, in stream order. */
    ghost function Sent(): seq<bool>
      reads this
    {
      BytesToBits(pending) + ToBits(buf, valid)
    }

    constructor ()
      ensures Valid() && Sent() == []
    {
      buf, valid, pending := 0, 0, [];
    }

    /** put_short: low byte first. */
    method PutShort(w: nat)
      requires w < 65536
      modifies this`pending
      ensures pending == old(pending) + [w % 256, w / 256]
    {
      pending := pending + [w % 256];
      pending := pending + [w / 256];
    }

    /** send_bits: when the value does not fit, the full 16 bits go out and the rest stays. */
    method SendBits(value: nat, length: nat)
      requires Valid() && length <= BUF_SIZE && value < Pow2(length)
      modifies this
      ensures Valid() && Sent() == old(Sent()) + ToBits(value, length)
    {
      hide Low, Shr, Shl, ToBits, BytesToBits, Pow2;
      ghost var before := Sent();
      ToBitsJoin(buf, valid, value, length);
      ghost var whole := buf + Shl(value, valid);
      Append(BytesToBits(pending), ToBits(buf, valid), ToBits(value, length));
      if valid > BUF_SIZE - length {
        ghost var n := BUF_SIZE - valid;
        var out := Low(buf + Shl(value, valid), BUF_SIZE);
        ToBitsSplit(whole, BUF_SIZE, valid + length - BUF_SIZE);
        OverflowRest(buf, valid, value);
        ShrLess(value, n, length);
        ShortBits(whole);
        ghost var sofar := pending;
        PutShort(out);
        buf := Shr(value, BUF_SIZE - valid);
        valid := valid + length - BUF_SIZE;
        BytesToBitsConcat(sofar, [out % 256, out / 256]);
        Append(BytesToBits(sofar), ToBits(whole, BUF_SIZE), ToBits(buf, valid));
      } else {
        buf := buf + Shl(value, valid);
        valid := valid + length;
      }
    }

    /** bi_windup: the last byte is filled up with zeros. */
    method Windup()
      requires Valid()
      modifies this
      ensures Valid() && valid == 0 && Sent() == old(Sent()) + ToBits(0, Pad(|old(Sent())|))
      ensures BytesToBits(pending) == Sent()
    {
      hide Low, Shr, Shl, ToBits, BytesToBits, Pow2, Pad;
      ghost var sofar, b, v := pending, buf, valid;
      PadOf(|sofar|, v);
      NoBitsLeft();
      if valid > 8 {
        FillShort(b, v);
        PutShort(buf);
        BytesToBitsConcat(sofar, [b % 256, b / 256]);
        Append(BytesToBits(sofar), ToBits(b, v), ToBits(0, 16 - v));
      } else if valid > 0 {
        FillByte(b, v);
        pending := pending + [buf];
        BytesToBitsConcat(sofar, [b]);
        Append(BytesToBits(sofar), ToBits(b, v), ToBits(0, 8 - v));
      }
      buf, valid := 0, 0;
      assert BytesToBits(pending) + [] == BytesToBits(pending);
    }

    /** bi_flush: whole bytes go out, at most seven bits stay. */
    method Flush()
      requires Valid()
      modifies this
      ensures Valid() && valid < 8 && Sent() == old(Sent())
    {
      hide Low, Shr, Shl, ToBits, BytesToBits, Pow2;
      if valid == 16 {
        ShortBits(buf);
        LowSmall(buf, 16);
        ghost var sofar, b := pending, buf;
        PowerFacts();
        PutShort(buf);
        BytesToBitsConcat(sofar, [b % 256, b / 256]);
        buf, valid := 0, 0;
        NoBitsLeft();
        assert BytesToBits(sofar) + ToBits(b, 16) == BytesToBits(pending) + [];
      } else if valid >= 8 {
        ghost var sofar, b, v := pending, buf, valid;
        ToBitsSplit(b, 8, v - 8);
        ByteBits(b);
        ShrLess(b, 8, v);
        pending := pending + [Low(buf, 8)];
        buf, valid := Shr(buf, 8), valid - 8;
        BytesToBitsConcat(sofar, [Low(b, 8)]);
        Append(BytesToBits(sofar), ToBits(b, 8), ToBits(buf, valid));
      }
    }
  }

  lemma Append(a: seq<bool>, b: seq<bool>, c: seq<bool>)
    ensures (a + b) + c == a + (b + c)
  {
  }

  lemma PowerFacts()
    ensures Pow2(8) == 256 && Pow2(16) == 65536
  {
  }

  lemma NoBitsLeft()
    ensures ToBits(0, 0) == [] && 0 < Pow2(0)
  {
  }

  lemma PadOf(n: nat, v: nat)
    requires v <= 16
    ensures Pad(8 * n + v) == if v > 8 then 16 - v else if v > 0 then 8 - v else 0
  {
    assert (8 * n + v) % 8 == v % 8;
  }

  lemma FillShort(b: nat, v: nat)
    requires 8 < v <= 16 && b < Pow2(v)
    ensures b < 65536 && BytesToBits([b % 256, b / 256]) == ToBits(b, v) + ToBits(0, 16 - v)
  {
    hide Low, Shr, Shl, ToBits, BytesToBits, Pow2;
    LowSmall(b, v);
    ToBitsSplit(b, v, 16 - v);
    ShortBits(b);
    Pow2Mono(v, 16);
    LowSmall(b, 16);
    PowerFacts();
  }

  lemma FillByte(b: nat, v: nat)
    requires 0 < v <= 8 && b < Pow2(v)
    ensures b < 256 && BytesToBits([b]) == ToBits(b, v) + ToBits(0, 8 - v)
  {
    hide Low, Shr, Shl, ToBits, BytesToBits, Pow2;
    LowSmall(b, v);
    ToBitsSplit(b, v, 8 - v);
    ByteBits(b);
    Pow2Mono(v, 8);
    LowSmall(b, 8);
    PowerFacts();
  }

  lemma ByteBits(w: nat)
    ensures Low(w, 8) < 256 && BytesToBits([Low(w, 8)]) == ToBits(w, 8)
  {
    PowerFacts();
    ToBitsLow(w, 8, 8);
    assert BytesToBits([Low(w, 8)]) == ToBits(Low(w, 8), 8) + BytesToBits([]);
  }

  /** The two bytes of put_short are the low 16 bits. */
  lemma ShortBits(w: nat)
    ensures Low(w, 16) < 65536
    ensures BytesToBits([Low(w, 16) % 256, Low(w, 16) / 256]) == ToBits(w, 16)
  {
    hide Low, Shr, Shl, ToBits, BytesToBits;
    var v := Low(w, 16);
    PowerFacts();
    ToBitsLow(w, 16, 16);
    ShiftMeaning(v, 8);
    assert Low(v, 8) == v % 256 && Shr(v, 8) == v / 256;
    ToBitsSplit(v, 8, 8);
    TwoBytes(v % 256, v / 256);
    ToBitsLow(v, 8, 8);
  }

  lemma TwoBytes(a: byte, b: byte)
    ensures BytesToBits([a, b]) == ToBits(a, 8) + ToBits(b, 8)
  {
    assert [a, b][1..] == [b];
    assert [b][1..] == [];
    assert ToBits(b, 8) + [] == ToBits(b, 8);
  }

  /** What stays in the buffer after an overflow is the top of the value. */
  lemma OverflowRest(buf: nat, valid: nat, value: nat)
    requires valid <= BUF_SIZE && buf < Pow2(valid)
    ensures Shr(buf + Shl(value, valid), BUF_SIZE) == Shr(value, BUF_SIZE - valid)
  {
    hide Low, Shr, Shl, Pow2;
    var w := buf + Shl(value, valid);
    SplitUnique(w, valid, value, buf);
    ShrShr(w, valid, BUF_SIZE - valid);
  }

  // ----- code words -----

  /** bi_reverse: reverse the first len bits of a code. */
  method BiReverse(code: nat, len: nat) returns (res: nat)
    requires 1 <= len
    ensures res == Rev(code, len)
  {
    hide Rev, Shr, Shl;
    var c, i := code, 0;
    res := 0;
    NoneReversed(code);
    while i < len
      invariant i <= len && c == Shr(code, i) && res == 2 * Rev(code, i)
    {
      RevAddBit(code, i);
      res := res + c % 2;
      c := c / 2;
      res := 2 * res;
      i := i + 1;
    }
    res := res / 2;
  }

  lemma NoneReversed(code: nat)
    ensures Rev(code, 0) == 0 && Shr(code, 0) == code
  {
  }

  lemma RevAddBit(c: nat, i: nat)
    ensures Rev(c, i + 1) == 2 * Rev(c, i) + Shr(c, i) % 2
    ensures Shr(c, i + 1) == Shr(c, i) / 2
  {
    RevSplit(c, i, 1);
    OneBit(Shr(c, i) % 2, Rev(c, i));
    ShrShr(c, i, 1);
    assert Rev(Shr(c, i), 1) == Shr(c, i) % 2;
    assert Shr(Shr(c, i), 1) == Shr(c, i) / 2;
  }

  /** A tree element: its code word and its length in bits. */
  datatype Ct = Ct(code: nat, len: nat)

  /** Every element with a length has the code word of section 3.2.2 of RFC 1951, reversed. */
  ghost predicate Coded(tree: seq<Ct>, lens: seq<nat>) {
    && |tree| == |lens|
    && forall n: nat :: n < |lens| ==> tree[n].len == lens[n] && (IsSymbol(lens, n) ==> tree[n].code == Code(lens, n))
  }

  /** The starting code of each length. */
  method NextCodes(lens: seq<nat>, blCount: seq<nat>) returns (next: array<nat>)
    requires |blCount| == MAXBITS + 1 && forall l :: 0 <= l <= MAXBITS ==> blCount[l] == BlCount(lens, l)
    ensures fresh(next) && next.Length == MAXBITS + 1
    ensures forall l :: 1 <= l <= MAXBITS ==> next[l] == FirstCode(lens, l)
  {
    hide FirstCode, BlCount;
    next := new nat[MAXBITS + 1](_ => 0);
    var code := 0;
    FirstZero(lens);
    for bits := 1 to MAXBITS + 1
      invariant code == FirstCode(lens, bits - 1)
      invariant forall l :: 1 <= l < bits ==> next[l] == FirstCode(lens, l)
    {
      FirstStep(lens, bits);
      code := 2 * (code + blCount[bits - 1]);
      next[bits] := code;
    }
  }

  lemma FirstZero(lens: seq<nat>)
    ensures FirstCode(lens, 0) == 0
  {
  }

  lemma FirstStep(lens: seq<nat>, l: nat)
    requires l >= 1
    ensures FirstCode(lens, l) == 2 * (FirstCode(lens, l - 1) + BlCount(lens, l - 1))
  {
  }

  lemma CountStep(lens: seq<nat>, n: nat, l: nat)
    requires n < |lens|
    ensures Count(lens, n + 1, l) == Count(lens, n, l) + (if lens[n] == l then 1 else 0)
  {
  }

  lemma CodeIs(lens: seq<nat>, n: nat)
    requires n < |lens|
    ensures Code(lens, n) == Rev(FirstCode(lens, lens[n]) + Count(lens, n, lens[n]), lens[n])
  {
    hide FirstCode;
  }

  lemma CountZero(lens: seq<nat>)
    ensures forall l: nat :: Count(lens, 0, l) == 0
  {
  }

  /** gen_codes: number the symbols of each length in order and reverse the bits. */
  method GenCodes(tree: array<Ct>, lens: seq<nat>, blCount: seq<nat>)
    requires tree.Length == |lens| && ValidLengths(lens)
    requires forall n :: 0 <= n < |lens| ==> tree[n].len == lens[n]
    requires |blCount| == MAXBITS + 1 && forall l :: 0 <= l <= MAXBITS ==> blCount[l] == BlCount(lens, l)
    modifies tree
    ensures Coded(tree[..], lens)
    ensures forall n :: 0 <= n < |lens| && lens[n] == 0 ==> tree[n] == old(tree[n])
  {
    hide Rev, FirstCode, Count, Code, BlCount;
    var next := NextCodes(lens, blCount);
    CountZero(lens);
    for n := 0 to |lens|
      invariant next.Length == MAXBITS + 1
      invariant forall l :: 1 <= l <= MAXBITS ==> next[l] == FirstCode(lens, l) + Count(lens, n, l)
      invariant forall k :: 0 <= k < |lens| ==> tree[k].len == lens[k]
      invariant forall k: nat :: k < n && IsSymbol(lens, k) ==> tree[k].code == Code(lens, k)
      invariant forall k :: 0 <= k < |lens| && (lens[k] == 0 || k >= n) ==> tree[k] == old(tree[k])
    {
      CodeIs(lens, n);
      var len := tree[n].len;
      if len != 0 {
        var code := BiReverse(next[len], len);
        next[len] := next[len] + 1;
        tree[n] := Ct(code, len);
      }
      forall l | 1 <= l <= MAXBITS ensures next[l] == FirstCode(lens, l) + Count(lens, n + 1, l) {
        CountStep(lens, n, l);
      }
    }
  }
}
