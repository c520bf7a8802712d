/** Copying matches: the MATCH state of inflate() and the copy loops of inflate_fast().
    A match may start in the circular window, wrap around it, and end in the output of the
    current call; in every layout the bytes are those of the LZ77 copy over the whole output. */
module InflateCopy {
  import opened Bits
  import opened InflateSpec
  import opened InflateWindow

  /** The n window bytes from index `at` are the n bytes that start dist before the end of hist. */
  ghost predicate RunAt(data: seq<byte>, at: int, n: nat, hist: seq<byte>, dist: nat) {
    && 0 <= at && at + n <= |data| && 1 <= dist <= |hist| && n <= dist
    && data[at..at + n] == hist[|hist| - dist..|hist| - dist + n]
  }

  lemma ShorterRun(data: seq<byte>, at: int, n: nat, m: nat, hist: seq<byte>, dist: nat)
    requires RunAt(data, at, n, hist, dist) && m <= n
    ensures RunAt(data, at, m, hist, dist)
  {
    assert data[at..at + m] == data[at..at + n][..m];
    assert hist[|hist| - dist..|hist| - dist + m] == hist[|hist| - dist..|hist| - dist + n][..m];
  }

  /** A distance that reaches op bytes back into the window: a contiguous run starts at its slot. */
  lemma WindowRun(data: seq<byte>, wsize: nat, wnext: nat, whave: nat, sent: seq<byte>, out: seq<byte>,
                  op: nat, n: nat)
    requires Holds(data, wsize, wnext, whave, sent) && 1 <= op <= whave
    requires n <= if op > wnext then op - wnext else op
    ensures RunAt(data, Slot(wnext, op), n, sent + out, op + |out|)
  {
    var hist := sent + out;
    var at, from := Slot(wnext, op), |hist| - (op + |out|);
    var a, b := data[at..at + n], hist[from..from + n];
    forall i | 0 <= i < n ensures a[i] == b[i] {
      assert Slot(wnext, op - i) == at + i;
    }
    assert a == b;
  }

  /** A match that reaches before everything that was ever output is exactly one that reaches
      before the window and the output of this call. */
  lemma TooFar(data: seq<byte>, wsize: nat, wnext: nat, whave: nat, sent: seq<byte>, out: seq<byte>, dist: nat)
    requires Holds(data, wsize, wnext, whave, sent) && dist <= 32768
    ensures dist > |out| + whave <==> dist > |sent + out|
  {
  }

  /** `*put++ = *from++` n times with from in the window. */
  method FromWindow(win: Window, at: nat, n: nat, out: seq<byte>, ghost sent: seq<byte>, ghost dist: nat)
    returns (out': seq<byte>)
    requires RunAt(win.data[..], at, n, sent + out, dist)
    ensures sent + out' == Copy(sent + out, n, dist) && |out'| == |out| + n
  {
    out' := out;
    for i := 0 to n
      invariant |out'| == |out| + i && sent + out' == Copy(sent + out, i, dist)
    {
      ghost var h := sent + out';
      CopySplit(sent + out, i, 1, dist);
      ghost var from := |sent + out| - dist;
      assert h[|h| - dist] == (sent + out)[from + i] == (sent + out)[from..from + n][i];
      assert win.data[at + i] == win.data[..][at..at + n][i];
      out' := out' + [win.data[at + i]];
      assert sent + out' == h + [h[|h| - dist]];
      assert Copy(h, 1, dist) == h + [h[|h| - dist]];
    }
  }

  /** `*put++ = *from++` n times with from in the output of this call; the two may overlap. */
  method FromOutput(n: nat, out: seq<byte>, ghost sent: seq<byte>, dist: nat) returns (out': seq<byte>)
    requires 1 <= dist <= |out|
    ensures sent + out' == Copy(sent + out, n, dist) && |out'| == |out| + n
  {
    out' := out;
    for i := 0 to n
      invariant |out'| == |out| + i && sent + out' == Copy(sent + out, i, dist)
    {
      ghost var h := sent + out';
      CopySplit(sent + out, i, 1, dist);
      out' := out' + [out'[|out'| - dist]];
      assert sent + out' == h + [h[|h| - dist]];
      assert Copy(h, 1, dist) == h + [h[|h| - dist]];
    }
  }

  /** The rest of a match that starts op bytes back in the window and continues in the output. */
  method WindowThenOutput(win: Window, at: nat, op: nat, len: nat, dist: nat, out: seq<byte>, ghost sent: seq<byte>)
    returns (out': seq<byte>)
    requires op + |out| == dist
    requires RunAt(win.data[..], at, op, sent + out, dist)
    ensures sent + out' == Copy(sent + out, len, dist) && |out'| == |out| + len
  {
    if op < len {
      out' := FromWindow(win, at, op, out, sent, dist);
      out' := FromOutput(len - op, out', sent, dist);
      CopySplit(sent + out, op, len - op, dist);
    } else {
      ShorterRun(win.data[..], at, op, len, sent + out, dist);
      out' := FromWindow(win, at, len, out, sent, dist);
    }
  }

  /** The copy of inflate_fast(): everything in the output, or one of three window layouts. */
  method FastCopy(win: Window, len: nat, dist: nat, out: seq<byte>, ghost sent: seq<byte>)
    returns (ok: bool, out': seq<byte>)
    requires win.Holding(sent) && 1 <= dist <= 32768
    ensures ok <==> dist <= |sent + out|
    ensures ok ==> sent + out' == Copy(sent + out, len, dist) && |out'| == |out| + len
    ensures !ok ==> out' == out
  {
    hide Holds, Copy;
    TooFar(win.data[..], win.wsize, win.wnext, win.whave, sent, out, dist);
    Bounds(win.data[..], win.wsize, win.wnext, win.whave, sent);
    ok, out' := true, out;
    if dist > |out| {
      var op := dist - |out|;
      if op > win.whave { return false, out; }
      InUse(win.data[..], win.wsize, win.wnext, win.whave, sent);
      if win.wnext == 0 {
        WindowRun(win.data[..], win.wsize, win.wnext, win.whave, sent, out, op, op);
        out' := WindowThenOutput(win, win.wsize - op, op, len, dist, out, sent);
      } else if win.wnext < op {
        out' := AroundWindow(win, op, len, dist, out, sent);
      } else {
        WindowRun(win.data[..], win.wsize, win.wnext, win.whave, sent, out, op, op);
        out' := WindowThenOutput(win, win.wnext - op, op, len, dist, out, sent);
      }
    } else {
      out' := FromOutput(len, out, sent, dist);
    }
  }

  lemma InUse(data: seq<byte>, wsize: nat, wnext: nat, whave: nat, sent: seq<byte>)
    requires Holds(data, wsize, wnext, whave, sent) && whave > 0
    ensures wsize == WSIZE
  {
  }

  /** Some from the end of the window, some from its start, the rest from the output. */
  method AroundWindow(win: Window, op: nat, len: nat, dist: nat, out: seq<byte>, ghost sent: seq<byte>)
    returns (out': seq<byte>)
    requires win.Holding(sent) && win.wsize == WSIZE && op == dist - |out| && 0 < win.wnext < op <= win.whave
    ensures sent + out' == Copy(sent + out, len, dist) && |out'| == |out| + len
  {
    hide Holds, Copy;
    Bounds(win.data[..], win.wsize, win.wnext, win.whave, sent);
    var from := win.wsize + win.wnext - op;
    var op1 := op - win.wnext;
    WindowRun(win.data[..], win.wsize, win.wnext, win.whave, sent, out, op, op1);
    if op1 < len {
      out' := FromWindow(win, from, op1, out, sent, dist);
      CopySplit(sent + out, op1, len - op1, dist);
      WindowRun(win.data[..], win.wsize, win.wnext, win.whave, sent, out', win.wnext, win.wnext);
      out' := WindowThenOutput(win, 0, win.wnext, len - op1, dist, out', sent);
    } else {
      ShorterRun(win.data[..], from, op1, len, sent + out, dist);
      out' := FromWindow(win, from, len, out, sent, dist);
    }
  }

  /** The MATCH state: copy as much as fits from one contiguous place, and come back for the rest. */
  method SlowCopy(win: Window, length: nat, offset: nat, left: nat, out: seq<byte>, ghost sent: seq<byte>)
    returns (ok: bool, copy: nat, out': seq<byte>)
    requires win.Holding(sent) && 1 <= offset <= 32768 && length >= 1 && left >= 1
    ensures ok <==> offset <= |sent + out|
    ensures ok ==> 1 <= copy <= length && copy <= left
    ensures ok ==> sent + out' == Copy(sent + out, copy, offset) && |out'| == |out| + copy
    ensures !ok ==> out' == out
  {
    hide Holds, Copy;
    TooFar(win.data[..], win.wsize, win.wnext, win.whave, sent, out, offset);
    Bounds(win.data[..], win.wsize, win.wnext, win.whave, sent);
    ok, copy, out' := true, |out|, out;
    if offset > copy {
      copy := offset - copy;
      if copy > win.whave { return false, 0, out; }
      InUse(win.data[..], win.wsize, win.wnext, win.whave, sent);
      ghost var op := copy;
      var from;
      if copy > win.wnext {
        copy := copy - win.wnext;
        from := win.wsize - copy;
      } else {
        from := win.wnext - copy;
      }
      if copy > length { copy := length; }
      if copy > left { copy := left; }
      WindowRun(win.data[..], win.wsize, win.wnext, win.whave, sent, out, op, copy);
      out' := FromWindow(win, from, copy, out, sent, offset);
    } else {
      copy := length;
      if copy > left { copy := left; }
      out' := FromOutput(copy, out, sent, offset);
    }
  }
}
