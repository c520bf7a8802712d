/** The circular window of inflate(): updatewindow() of zlib/inflate.c.
    Between calls the window holds, in order, the last bytes of everything output so far. */
module InflateWindow {
  import opened Bits

  /** A 32K window, wbits == 15. */
  const WSIZE: nat := 32768

  /** The window index of the byte d places before the write position. */
  function Slot(wnext: nat, d: nat): int {
    if d <= wnext then wnext - d else WSIZE + wnext - d
  }

  /** The window holds the last min(|sent|, WSIZE) bytes of sent; wsize == 0 means not in use yet. */
  ghost predicate Holds(data: seq<byte>, wsize: nat, wnext: nat, whave: nat, sent: seq<byte>) {
    && |data| == WSIZE && wnext < WSIZE
    && (wsize == 0 || wsize == WSIZE)
    && (wsize == 0 ==> whave == 0 && wnext == 0 && sent == [])
    && whave == (if |sent| < WSIZE then |sent| else WSIZE)
    && (whave < WSIZE ==> wnext == whave)
    && forall d: nat {:trigger Slot(wnext, d)} :: 1 <= d <= whave ==> data[Slot(wnext, d)] == sent[|sent| - d]
  }

  /** data with src written at index `at`. */
  function Put(data: seq<byte>, at: nat, src: seq<byte>): (r: seq<byte>)
    requires at + |src| <= |data|
    ensures |r| == |data|
    ensures forall i :: 0 <= i < |data| ==> r[i] == if at <= i < at + |src| then src[i - at] else data[i]
  {
    data[..at] + src + data[at + |src|..]
  }

  /** zmemcpy into the window. */
  method CopyInto(dst: array<byte>, at: nat, src: seq<byte>)
    requires at + |src| <= dst.Length
    modifies dst
    ensures dst[..] == Put(old(dst[..]), at, src)
  {
    for i := 0 to |src|
      invariant forall k :: 0 <= k < dst.Length ==>
                  dst[k] == if at <= k < at + i then src[k - at] else old(dst[k])
    {
      dst[at + i] := src[i];
    }
  }

  lemma Bounds(data: seq<byte>, wsize: nat, wnext: nat, whave: nat, sent: seq<byte>)
    requires Holds(data, wsize, wnext, whave, sent)
    ensures |data| == WSIZE && wnext < WSIZE && whave <= WSIZE
    ensures wsize == 0 || wsize == WSIZE
    ensures wsize == 0 ==> Holds(data, WSIZE, 0, 0, sent)
  {
  }

  /** At least a window's worth of output replaces the whole window. */
  lemma ReplaceAll(data: seq<byte>, wnext: nat, whave: nat, sent: seq<byte>, out: seq<byte>)
    requires |data| == WSIZE && |out| >= WSIZE
    ensures Holds(Put(data, 0, out[|out| - WSIZE..]), WSIZE, 0, WSIZE, sent + out)
  {
    var data' := Put(data, 0, out[|out| - WSIZE..]);
    forall d: nat | 1 <= d <= WSIZE ensures data'[Slot(0, d)] == (sent + out)[|sent + out| - d] {
      assert Slot(0, d) == WSIZE - d;
      assert (sent + out)[|sent + out| - d] == out[|out| - d];
    }
  }

  /** Less output that fits before the end of the window is appended at wnext. */
  lemma Append(data: seq<byte>, wsize: nat, wnext: nat, whave: nat, sent: seq<byte>, out: seq<byte>)
    requires Holds(data, wsize, wnext, whave, sent) && |out| < WSIZE && wnext + |out| <= WSIZE
    ensures Holds(Put(data, wnext, out), WSIZE, if wnext + |out| == WSIZE then 0 else wnext + |out|,
                  if whave < WSIZE then whave + |out| else whave, sent + out)
  {
    var data' := Put(data, wnext, out);
    var n := if wnext + |out| == WSIZE then 0 else wnext + |out|;
    var h := if whave < WSIZE then whave + |out| else whave;
    forall d: nat | 1 <= d <= h ensures data'[Slot(n, d)] == (sent + out)[|sent + out| - d] {
      if d <= |out| {
        assert Slot(n, d) == wnext + |out| - d;
      } else {
        var e := d - |out|;
        assert data[Slot(wnext, e)] == sent[|sent| - e];
        assert Slot(n, d) == Slot(wnext, e);
      }
    }
  }

  /** Otherwise it wraps around: the first part ends the window, the rest starts it. */
  lemma Wrap(data: seq<byte>, wsize: nat, wnext: nat, whave: nat, sent: seq<byte>, out: seq<byte>)
    requires Holds(data, wsize, wnext, whave, sent) && |out| < WSIZE < wnext + |out|
    ensures var dist := WSIZE - wnext;
      Holds(Put(Put(data, wnext, out[..dist]), 0, out[dist..]), WSIZE, |out| - dist, WSIZE, sent + out)
  {
    var dist := WSIZE - wnext;
    var n := |out| - dist;
    var data' := Put(Put(data, wnext, out[..dist]), 0, out[dist..]);
    forall d: nat | 1 <= d <= WSIZE ensures data'[Slot(n, d)] == (sent + out)[|sent + out| - d] {
      if d <= |out| {
        assert Slot(n, d) == if d <= n then n - d else WSIZE + n - d;
      } else {
        var e := d - |out|;
        assert data[Slot(wnext, e)] == sent[|sent| - e];
        assert Slot(n, d) == Slot(wnext, e);
      }
    }
  }

  /** The window part of the inflate state. */
  class Window {
    const data: array<byte>
    var wsize: nat
    var wnext: nat
    var whave: nat

    constructor ()
      ensures Holding([]) && fresh(data)
    {
      data := new byte[WSIZE](_ => 0);
      wsize, wnext, whave := 0, 0, 0;
    }

    ghost predicate Holding(sent: seq<byte>)
      reads this, data
    {
      Holds(data[..], wsize, wnext, whave, sent)
    }

    /** Called on leaving inflate() with the bytes this call produced. */
    method Update(out: seq<byte>, ghost sent: seq<byte>)
      requires Holding(sent)
      modifies this, data
      ensures wsize == WSIZE && Holding(sent + out)
    {
      hide Holds, Put;
      Bounds(data[..], wsize, wnext, whave, sent);
      if wsize == 0 { wsize, wnext, whave := WSIZE, 0, 0; }
      if |out| >= wsize {
        ReplaceAll(data[..], wnext, whave, sent, out);
        CopyInto(data, 0, out[|out| - wsize..]);
        wnext, whave := 0, wsize;
      } else {
        var dist := wsize - wnext;
        if dist > |out| { dist := |out|; }
        var copy := |out| - dist;
        if copy > 0 {
          Wrap(data[..], wsize, wnext, whave, sent, out);
          CopyInto(data, wnext, out[..dist]);
          CopyInto(data, 0, out[dist..]);
          wnext, whave := copy, wsize;
        } else {
          Append(data[..], wsize, wnext, whave, sent, out);
          assert out[..dist] == out;
          CopyInto(data, wnext, out[..dist]);
          wnext := wnext + dist;
          if wnext == wsize { wnext := 0; }
          if whave < wsize { whave := whave + dist; }
        }
      }
    }
  }
}
