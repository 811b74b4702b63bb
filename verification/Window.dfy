// The circular 32K window of loader/src/inflate.c and the output it is flushed to.
module Window {
  import opened Bits
  import opened Deflate
  import opened RamMemory

  const WSIZE := 0x8000

  // The window holds the last 32K of the output, byte i at i modulo the window size.
  ghost predicate Holds(win: seq<byte>, out: seq<byte>)
  {
    && |win| == WSIZE
    && forall i :: 0 <= i < |out| && |out| - WSIZE <= i ==> win[i % WSIZE] == out[i]
  }

  lemma ModApart(i: int, n: int)
    requires n - WSIZE < i < n
    ensures i % WSIZE != n % WSIZE
  {
  }

  lemma PutHolds(win: seq<byte>, out: seq<byte>, x: byte)
    requires Holds(win, out)
    ensures Holds(win[|out| % WSIZE := x], out + [x])
  {
    var w := |out| % WSIZE;
    var win', out' := win[w := x], out + [x];
    forall i | 0 <= i < |out'| && |out'| - WSIZE <= i ensures win'[i % WSIZE] == out'[i] {
      if i < |out| { ModApart(i, |out|); }
    }
  }

  // ---- copying inside the window ----

  // slide[w++] = slide[d++], e times.
  function Forward(win: seq<byte>, w: nat, d: nat, e: nat): (r: seq<byte>)
    requires w + e <= |win| && d + e <= |win|
    ensures |r| == |win|
    decreases e
  {
    if e == 0 then win else Forward(win[w := win[d]], w + 1, d + 1, e - 1)
  }

  // Copying byte by byte inside the window is the LZ77 copy on the output.
  lemma {:induction false} ForwardHolds(win: seq<byte>, out: seq<byte>, d: nat, e: nat, dist: nat)
    requires Holds(win, out) && 1 <= dist <= |out| && dist <= WSIZE
    requires |out| % WSIZE + e <= WSIZE && d + e <= WSIZE && (e > 0 ==> d == (|out| - dist) % WSIZE)
    ensures Holds(Forward(win, |out| % WSIZE, d, e), LzCopy(out, e, dist))
    decreases e
  {
    hide Holds;
    if e > 0 {
      var w := |out| % WSIZE;
      HeldByte(win, out, |out| - dist);
      var x := win[d];
      PutHolds(win, out, x);
      if e > 1 {
        NextPlace(|out|);
        NextPlace(|out| - dist);
        ForwardHolds(win[w := x], out + [x], d + 1, e - 1, dist);
      }
    }
  }

  lemma NextPlace(n: int)
    ensures n % WSIZE + 1 < WSIZE ==> (n + 1) % WSIZE == n % WSIZE + 1
  {
  }

  lemma HeldByte(win: seq<byte>, out: seq<byte>, i: int)
    requires Holds(win, out) && 0 <= i < |out| && |out| - WSIZE <= i
    ensures |win| == WSIZE && win[i % WSIZE] == out[i]
  {
  }

  // When the source lies ahead of the target or does not overlap it, copying all bytes
  // at once is the same as copying them one after the other.
  lemma {:induction false} AtOnceIsForward(win: seq<byte>, w: nat, d: nat, e: nat, j: nat)
    requires w + e <= |win| && d + e <= |win| && j < |win| && (d > w || w - d >= e)
    ensures Forward(win, w, d, e)[j] == if w <= j < w + e then win[d + (j - w)] else win[j]
    decreases e
  {
    if e > 0 { AtOnceIsForward(win[w := win[d]], w + 1, d + 1, e - 1, j); }
  }

  lemma {:induction false} LzCopyAdd(out: seq<byte>, a: nat, b: nat, dist: nat)
    requires 1 <= dist <= |out|
    ensures LzCopy(LzCopy(out, a, dist), b, dist) == LzCopy(out, a + b, dist)
    decreases a
  {
    if a > 0 { LzCopyAdd(out + [out[|out| - dist]], a - 1, b, dist); }
  }

  class Output {
    const window: array<byte>
    const outputData: int        // output_data
    var outcnt: nat              // bytes in the window that are not flushed yet (wp)
    var outputPtr: nat           // output_ptr
    const mem: Ram
    ghost var out: seq<byte>     // everything produced so far
    ghost const ram0: map<int, byte>     // memory before anything was written

    // The window holds the last 32K of out, all but its last outcnt bytes are in memory.
    ghost predicate Filled()
      reads this, window, mem
    {
      && window.Length == WSIZE && outcnt <= WSIZE && outputPtr % WSIZE == 0
      && outputPtr + outcnt == |out|
      && Holds(window[..], out)
      && mem.bytes == Written(ram0, outputData, out[..outputPtr])
    }

    ghost predicate Valid()
      reads this, window, mem
    {
      Filled() && outcnt < WSIZE
    }

    constructor (outputData: int, mem: Ram, window: array<byte>)
      requires window.Length == WSIZE
      ensures Valid() && out == [] && ram0 == mem.bytes && this.mem == mem && this.window == window
              && this.outputData == outputData
      ensures outcnt == 0 && outputPtr == 0
    {
      this.window, this.outputData, this.mem, this.ram0 := window, outputData, mem, mem.bytes;
      outcnt, outputPtr, out := 0, 0, [];
    }

    // flush_window
    method FlushWindow()
      requires Filled()
      modifies this, mem
      ensures outcnt == 0 && outputPtr == |out| && out == old(out)
      ensures mem.bytes == Written(ram0, outputData, out)
      ensures old(outcnt) == WSIZE ==> Valid()
    {
      hide Written;
      var n := 0;
      assert out[..outputPtr + 0] == out[..outputPtr];
      while n < outcnt
        invariant 0 <= n <= outcnt && outcnt == old(outcnt) && outputPtr == old(outputPtr) && out == old(out)
        invariant mem.bytes == Written(ram0, outputData, out[..outputPtr + n])
      {
        FlushByte(window[..], out, outputPtr, n);
        WrittenStep(ram0, outputData, out, outputPtr + n);
        var addr := outputData + outputPtr + n;
        if addr >= RAM_START { mem.bytes := mem.bytes[addr := window[n]]; }
        n := n + 1;
      }
      assert out[..outputPtr + outcnt] == out;
      outputPtr := outputPtr + outcnt;
      outcnt := 0;
    }

    // slide[w++] = x, flushing a full window.
    method Put(x: byte)
      requires Valid()
      modifies this, window, mem
      ensures Valid() && out == old(out) + [x]
    {
      hide Written;
      PutHolds(window[..], out, x);
      ghost var win := window[..];
      window[outcnt] := x;
      assert window[..] == win[outcnt := x];
      assert (out + [x])[..outputPtr] == out[..outputPtr];
      out := out + [x];
      outcnt := outcnt + 1;
      if outcnt == WSIZE { FlushWindow(); }
    }

    // memcpy(slide + w, slide + d, e), on ranges where the order of the copy does not matter.
    method Memcpy(w: nat, d: nat, e: nat)
      requires w + e <= window.Length && d + e <= window.Length && (d > w || w - d >= e)
      modifies window
      ensures window[..] == Forward(old(window[..]), w, d, e)
    {
      ghost var win := window[..];
      var t := 0;
      while t < e
        invariant 0 <= t <= e
        invariant forall j :: 0 <= j < window.Length && !(w <= j < w + t) ==> window[j] == win[j]
        invariant forall j :: w <= j < w + t ==> window[j] == win[d + (j - w)]
      {
        window[w + t] := window[d + t];
        t := t + 1;
      }
      forall j | 0 <= j < |win| ensures window[..][j] == Forward(win, w, d, e)[j] { AtOnceIsForward(win, w, d, e, j); }
    }

    // Lines 620-622: the copy done slowly.
    method CopySlow(w: nat, d: nat, e: nat)
      requires w + e <= window.Length && d + e <= window.Length
      modifies window
      ensures window[..] == Forward(old(window[..]), w, d, e)
    {
      ghost var goal := Forward(window[..], w, d, e);
      var t := 0;
      while t < e
        invariant 0 <= t <= e && Forward(window[..], w + t, d + t, e - t) == goal
      {
        ghost var win := window[..];
        window[w + t] := window[d + t];
        assert window[..] == win[w + t := win[d + t]];
        t := t + 1;
      }
    }

    // One turn of the loop at inflate.c:609-628 without the flush.
    method CopyChunk(d: nat, e: nat, ghost dist: nat)
      requires Valid() && 1 <= dist <= |out| && dist <= WSIZE
      requires d == (|out| - dist) % WSIZE && 1 <= e && outcnt + e <= WSIZE && d + e <= WSIZE
      modifies this, window, mem
      ensures Filled() && out == LzCopy(old(out), e, dist) && outcnt == old(outcnt) + e && outputPtr == old(outputPtr)
    {
      hide Written, Forward, LzCopy;
      assert |out| % WSIZE == outcnt;
      ForwardHolds(window[..], out, d, e, dist);
      if d > outcnt || outcnt - d >= e {   // w - d >= e on unsigned numbers
        Memcpy(outcnt, d, e);
      } else {
        CopySlow(outcnt, d, e);
      }
      TakeOfCopy(out, e, dist, outputPtr);
      out := LzCopy(out, e, dist);
      outcnt := outcnt + e;
    }

    // One turn with the flush; n' bytes are left to copy.
    method CopyTurn(n: nat, d0: int, ghost dist: nat) returns (n': nat, d': int)
      requires Valid() && 1 <= dist <= |out| && dist <= WSIZE && n >= 1
      requires d0 % WSIZE == (|out| - dist) % WSIZE
      modifies this, window, mem
      ensures Valid() && n' < n && out == LzCopy(old(out), n - n', dist)
      ensures d' % WSIZE == (|out| - dist) % WSIZE
    {
      hide Written, LzCopy, Holds;
      var d := d0 % WSIZE;
      var e := WSIZE - if d > outcnt then d else outcnt;
      if e > n { e := n; }
      n' := n - e;
      CopyChunk(d, e, dist);
      d' := d + e;
      if outcnt == WSIZE { FlushWindow(); }
    }

    // inflate.c:605-628: copy n0 bytes from dist back.
    method CopyMatch(n0: nat, dist: nat)
      requires Valid() && 1 <= dist <= |out| && dist <= WSIZE && n0 >= 1
      modifies this, window, mem
      ensures Valid() && out == LzCopy(old(out), n0, dist)
    {
      hide Written, LzCopy, Holds;
      var n, d: int := n0, outcnt - dist;
      StartOfCopy(outputPtr, outcnt, dist);
      while n > 0
        invariant Valid() && 0 <= n <= n0 && 1 <= dist <= |out| && dist <= WSIZE
        invariant d % WSIZE == (|out| - dist) % WSIZE
        invariant LzCopy(out, n, dist) == LzCopy(old(out), n0, dist)
        decreases n
      {
        ghost var out0, n1 := out, n;
        n, d := CopyTurn(n, d, dist);
        LzCopyAdd(out0, n1 - n, n, dist);
      }
      LzCopyNone(out, dist);
    }
  }

  lemma StartOfCopy(ptr: nat, w: nat, dist: nat)
    requires ptr % WSIZE == 0
    ensures (w - dist) % WSIZE == (ptr + w - dist) % WSIZE
  {
  }

  lemma LzCopyNone(out: seq<byte>, dist: nat)
    requires 1 <= dist <= |out|
    ensures LzCopy(out, 0, dist) == out
  {
  }

  lemma TakeOfCopy(out: seq<byte>, e: nat, dist: nat, k: nat)
    requires 1 <= dist <= |out| && k <= |out|
    ensures LzCopy(out, e, dist)[..k] == out[..k]
  {
    var r := LzCopy(out, e, dist);
    LzCopyPrefix(out, e, dist);
    assert r[..k] == r[..|out|][..k];
  }

  lemma FlushByte(win: seq<byte>, out: seq<byte>, ptr: nat, n: nat)
    requires Holds(win, out) && ptr % WSIZE == 0 && ptr + n < |out| <= ptr + WSIZE
    ensures n < |win| && win[n] == out[ptr + n]
  {
    assert (ptr + n) % WSIZE == n;
  }

  lemma WrittenStep(ram: map<int, byte>, base: int, out: seq<byte>, k: nat)
    requires k < |out|
    ensures Written(ram, base, out[..k + 1]) ==
            if base + k >= RAM_START then Written(ram, base, out[..k])[base + k := out[k]]
            else Written(ram, base, out[..k])
  {
    assert out[..k + 1][..k] == out[..k];
  }
}
