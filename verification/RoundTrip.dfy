/** The compressor and the decompressor together. */
module RoundTrip {
  import opened Bits
  import opened Hash
  import opened Inflate
  import S = Stream

  /** deflate() at any settings, then inflate() with any cut of input and output space into calls: the data comes back,
      and what follows the stream is left alone. */
  method PackAndUnpack(data: seq<byte>, more: seq<byte>, wbits: nat, hashBits: nat, good: nat, lazy: nat, nice: int,
                       chain: nat, filtered: bool, symEnd: nat, fixedOnly: bool, piece: nat, room: nat, finish: bool)
    returns (packed: seq<byte>, verdict: Verdict, used: nat, back: seq<byte>)
    requires 9 <= wbits <= 15 && HashSize(hashBits) && symEnd >= 1 && piece >= 1 && room >= 1
    ensures verdict == StreamEnd && back == data && used == |packed|
  {
    hide S.Inflates, BytesToBits, StreamSpec.Inflated, Answers;
    ghost var how;
    packed, how := S.Compress(data, wbits, hashBits, good, lazy, nice, chain, filtered, symEnd, fixedOnly);
    verdict, used, back := InflateAll(packed + more, piece, room, finish);
    Back(packed, more, data, verdict, used, back);
  }

  lemma Back(packed: seq<byte>, more: seq<byte>, data: seq<byte>, verdict: Verdict, used: nat, back: seq<byte>)
    requires S.Inflates(BytesToBits(packed), data)
    requires Answers(StreamSpec.Inflated(0, BytesToBits(packed + more), []), packed + more, verdict, used, back)
    ensures verdict == StreamEnd && back == data && used == |packed|
  {
    hide BytesToBits, StreamSpec.Inflated;
    var tail := BytesToBits(more);
    BytesToBitsConcat(packed, more);
    var spec := StreamSpec.Inflated(0, BytesToBits(packed) + tail, []);
    assert S.Ends(spec, data, tail);
    LastByte(|spec.rest|, |more|);
  }

  lemma LastByte(n: nat, k: nat)
    requires 8 * k <= n < 8 * k + 8
    ensures n - n % 8 == 8 * k
  {
  }
}
