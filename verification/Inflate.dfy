/** inflate() of zlib/inflate.c on raw streams: a resumable call over all kinds of block, and whole runs of calls. */
module Inflate {
  import opened Bits
  import opened InflateSpec
  import opened BitReader
  import opened InflateWindow
  import opened CodedStates
  import opened BitWriter
  import opened StreamSpec
  import opened StreamStates
  import opened StreamTurns

  /** What inflate() keeps between calls. */
  class Inflater {
    const win: Window
    var stage: Stage
    var last: bool
    var hold: nat
    var bits: nat
    ghost var sent: seq<byte>
    /** Bits of the stream used up, not counting those in the accumulator. */
    ghost var at: nat

    /** The start of a stream. */
    constructor ()
      ensures Valid() && fresh(win) && fresh(win.data)
      ensures stage == Head && !last && hold == 0 && bits == 0 && sent == [] && at == 0
    {
      win := new Window();
      stage, last, hold, bits := Head, false, 0, 0;
      sent, at := [], 0;
    }

    ghost predicate Valid()
      reads this, win, win.data
    {
      && StageOk(stage) && hold < Pow2(bits) && Fed(stage, Reader(hold, bits, 0)) && (at + bits) % 8 == 0
      && ((stage != Broken && stage != Finished) || win.wsize != 0 ==> win.Holding(sent))
    }

    /** What the specification gives for the rest of the stream. */
    ghost function Rest(later: seq<byte>): Outcome
      requires StageOk(stage)
      reads this
    {
      Result(stage, last, at + bits + 8 * |later|, ToBits(hold, bits) + BytesToBits(later), sent)
    }

    /** One call, with Z_FINISH or without: take what is needed of the input, write at most `avail` bytes. Whatever
        input comes later, the final result stays the same. */
    method Inflate(input: seq<byte>, avail: nat, finish: bool, ghost future: seq<byte>)
      returns (used: nat, out: seq<byte>)
      requires Valid()
      modifies this, win, win.data
      ensures Valid() && used <= |input| && |out| <= avail
      ensures sent == old(sent) + out
      ensures Rest(input[used..] + future) == old(Rest(input + future))
      ensures Stops(stage, last, Reader(hold, bits, used), input, |out| == avail)
    {
      hide StageOk, Fed, Result, Pow2, Holds, Stops, Stream, ToBits, BytesToBits;
      var r := Reader(hold, bits, 0);
      assert input[0..] == input;
      StreamIs(r, input, future);
      assert sent + [] == sent;
      WholeBytes(at + bits, |input + future|);
      var st, la;
      st, la, r, out := Turns(stage, last, win, r, avail, input, future, at + bits + 8 * |input + future|, sent);
      WholeBytes(at + bits, r.pos);
      ghost var at' := at + bits + 8 * r.pos - r.bits;
      stage, last, hold, bits, at := st, la, r.hold, r.bits, at';
      if win.wsize != 0 || (out != [] && stage != Broken && (stage != Finished || !finish)) {
        win.Update(out, sent);
      }
      sent := sent + out;
      used := r.pos;
      StreamIs(r, input, future);
      FedAnywhere(st, r);
    }
  }

  lemma WholeBytes(n: nat, k: nat)
    requires n % 8 == 0
    ensures (n + 8 * k) % 8 == 0
  {
  }

  lemma FedAnywhere(st: Stage, r: Reader)
    requires Fed(st, r)
    ensures Fed(st, Reader(r.hold, r.bits, 0))
  {
  }

  /** What the final result says about the state between calls. */
  lemma StateMeans(st: Stage, last: bool, at: nat, hold: nat, bits: nat, sent: seq<byte>, later: seq<byte>)
    requires StageOk(st) && hold < Pow2(bits) && Fed(st, Reader(hold, bits, 0)) && (at + bits) % 8 == 0
    ensures var spec := Result(st, last, at + bits + 8 * |later|, ToBits(hold, bits) + BytesToBits(later), sent);
      && sent <= spec.out
      && (st == Finished ==> spec == Done(sent, BytesToBits(later)))
      && (st == Broken ==> spec == Invalid(sent))
      && (later == [] && Hungry(st, last, Reader(hold, bits, 0)) ==> spec == Incomplete(sent))
  {
    hide StageOk, Pow2, Fed, Hungry, Result, ToBits, BytesToBits;
    var end, all := at + bits + 8 * |later|, ToBits(hold, bits) + BytesToBits(later);
    Extends(st, last, end, all, sent);
    if st == Finished {
      NothingHeld(hold, bits, later);
      WholeBytes(at + bits, |later|);
      FinishedDone(last, end, BytesToBits(later), |later|, sent);
    }
    if st == Broken { BrokenInvalid(last, end, all, sent); }
    if later == [] {
      assert all == ToBits(hold, bits);
      if Hungry(st, last, Reader(hold, bits, 0)) { HungryIncomplete(st, last, end, Reader(hold, bits, 0), sent); }
    }
  }

  lemma NothingHeld(hold: nat, bits: nat, later: seq<byte>)
    requires Fed(Finished, Reader(hold, bits, 0))
    ensures bits == 0 && ToBits(hold, bits) + BytesToBits(later) == BytesToBits(later)
  {
  }

  lemma FinishedDone(last: bool, end: nat, bits: seq<bool>, n: nat, out: seq<byte>)
    requires |bits| == 8 * n <= end && end % 8 == 0
    ensures Result(Finished, last, end, bits, out) == Done(out, bits)
  {
    hide Pad;
    PadOdd(end / 8, n, 0);
    assert bits[0..] == bits;
  }

  lemma BrokenInvalid(last: bool, end: nat, bits: seq<bool>, out: seq<byte>)
    ensures Result(Broken, last, end, bits, out) == Invalid(out)
  {
  }

  /** One call of a run: how many of the remaining bytes are offered, how much output space, and whether the caller
      asks for the end. */
  datatype Call = Call(offer: nat, avail: nat, finish: bool)

  /** A whole run: however input and output space are cut into calls, the bytes produced so far are a prefix of the
      specified output, and a finished stream has exactly that output, error verdict and end. */
  method Run(z: Inflater, data: seq<byte>, calls: seq<Call>, ghost spec: Outcome) returns (pos: nat)
    requires z.Valid() && spec == z.Rest(data)
    modifies z, z.win, z.win.data
    ensures z.Valid() && pos <= |data| && z.Rest(data[pos..]) == spec
    ensures old(z.sent) <= z.sent <= spec.out
    ensures z.stage == Finished ==> spec == Done(z.sent, BytesToBits(data[pos..]))
    ensures z.stage == Broken ==> spec == Invalid(z.sent)
    ensures pos == |data| && Hungry(z.stage, z.last, Reader(z.hold, z.bits, 0)) ==> spec == Incomplete(z.sent)
  {
    hide StageOk, Fed, Result, Holds, Hungry, Pow2, ToBits, BytesToBits;
    pos := 0;
    assert data[0..] == data;
    for i := 0 to |calls|
      invariant z.Valid() && pos <= |data| && z.Rest(data[pos..]) == spec && old(z.sent) <= z.sent
    {
      var used, out := Step(z, data, pos, calls[i], spec);
      pos := pos + used;
    }
    StateMeans(z.stage, z.last, z.at, z.hold, z.bits, z.sent, data[pos..]);
  }

  /** One call of a run. */
  method Step(z: Inflater, data: seq<byte>, pos: nat, call: Call, ghost spec: Outcome)
    returns (used: nat, out: seq<byte>)
    requires z.Valid() && pos <= |data| && z.Rest(data[pos..]) == spec
    modifies z, z.win, z.win.data
    ensures z.Valid() && pos + used <= |data| && z.Rest(data[pos + used..]) == spec && z.sent == old(z.sent) + out
    ensures z.stage == Finished || z.stage == Broken || |out| == call.avail || used == call.offer ||
      (pos + used == |data| && Hungry(z.stage, z.last, Reader(z.hold, z.bits, 0)))
  {
    hide StageOk, Fed, Result, Holds, Hungry, Pow2, ToBits, BytesToBits;
    var n := if call.offer <= |data| - pos then call.offer else |data| - pos;
    assert data[pos..] == data[pos..pos + n] + data[pos + n..];
    used, out := z.Inflate(data[pos..pos + n], call.avail, call.finish, data[pos + n..]);
    assert data[pos..pos + n][used..] + data[pos + n..] == data[pos + used..];
    HungryAnywhere(z.stage, z.last, Reader(z.hold, z.bits, used));
  }

  lemma HungryAnywhere(st: Stage, last: bool, r: Reader)
    ensures Hungry(st, last, r) ==> Hungry(st, last, Reader(r.hold, r.bits, 0))
  {
  }

  /** Z_STREAM_END, Z_DATA_ERROR, or asking for more input than there is. */
  datatype Verdict = StreamEnd | DataError | MoreInput

  function VerdictOf(o: Outcome): Verdict {
    match o
    case Done(_, _) => StreamEnd
    case Invalid(_) => DataError
    case Incomplete(_) => MoreInput
  }

  /** The bits from the next byte on. */
  ghost function FromByte(bits: seq<bool>): seq<bool> { bits[|bits| % 8..] }

  /** Output, verdict and unused input as the stream says. */
  ghost predicate Answers(spec: Outcome, data: seq<byte>, verdict: Verdict, used: nat, out: seq<byte>) {
    && out == spec.out && verdict == VerdictOf(spec) && used <= |data|
    && (spec.Done? ==> FromByte(spec.rest) == BytesToBits(data[used..]))
  }

  /** Calls inflate() until it has an answer, with any sizes of the pieces: output and verdict are those of the stream,
      and the unused input is all that follows its last byte. */
  method InflateAll(data: seq<byte>, piece: nat, room: nat, finish: bool)
    returns (verdict: Verdict, used: nat, out: seq<byte>)
    requires piece >= 1 && room >= 1
    ensures Answers(Inflated(0, BytesToBits(data), []), data, verdict, used, out)
  {
    hide StageOk, Fed, Result, Holds, Hungry, Pow2, ToBits, BytesToBits, Inflated, Ended, FromByte;
    var z := new Inflater();
    AtStart(data);
    ghost var spec := z.Rest(data);
    verdict, used, out := MoreInput, 0, [];
    assert data[0..] == data;
    var answered := false;
    while !answered
      invariant z.Valid() && used <= |data| && z.Rest(data[used..]) == spec && z.sent == out <= spec.out
      invariant fresh(z) && fresh(z.win) && fresh(z.win.data)
      invariant answered ==> Settles(spec, data, verdict, used, out)
      decreases !answered, |data| - used + |spec.out| - |out|
    {
      var n, more := Step(z, data, used, Call(piece, room, finish), spec);
      used, out := used + n, out + more;
      StateMeans(z.stage, z.last, z.at, z.hold, z.bits, z.sent, data[used..]);
      if z.stage == Finished {
        answered, verdict := true, StreamEnd;
      } else if z.stage == Broken {
        answered, verdict := true, DataError;
      } else if n == 0 && more == [] {
        answered, verdict := true, MoreInput;
      }
    }
    SpecEnds(data);
  }

  /** The answer on the level of the state machine, which has skipped to the next byte. */
  ghost predicate Settles(spec: Outcome, data: seq<byte>, verdict: Verdict, used: nat, out: seq<byte>) {
    && out == spec.out && verdict == VerdictOf(spec) && used <= |data|
    && (spec.Done? ==> spec.rest == BytesToBits(data[used..]))
  }

  lemma AtStart(data: seq<byte>)
    ensures ToBits(0, 0) + BytesToBits(data) == BytesToBits(data) && |BytesToBits(data)| == 8 * |data|
    ensures Result(Head, false, 8 * |data|, BytesToBits(data), []) ==
      Ended(8 * |data|, Inflated(0, BytesToBits(data), []))
  {
    hide BytesToBits, Inflated, Ended, Result;
    assert [] + BytesToBits(data) == BytesToBits(data);
    WholeStream(BytesToBits(data));
  }

  lemma SpecEnds(data: seq<byte>)
    ensures var spec := Inflated(0, BytesToBits(data), []);
      Ended(8 * |data|, spec) == if spec.Done? then Done(spec.out, FromByte(spec.rest)) else spec
  {
    hide BytesToBits, Inflated, Pad;
    var spec := Inflated(0, BytesToBits(data), []);
    InflatedShrinks(0, BytesToBits(data), []);
    if spec.Done? { PadOdd(|data|, 0, |spec.rest|); }
  }
}
