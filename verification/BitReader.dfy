// The bit buffer of loader/src/inflate.c: NEEDBITS and DUMPBITS over zinbuf.
module BitReader {
  import opened Bits
  import opened RamMemory

  class Reader {
    const mem: Ram
    const addr: int    // where the input is (zinbuf)
    ghost const zinbuf: seq<byte>
    var inptr: nat     // index of the next byte
    var bb: nat        // bit buffer
    var bk: nat        // bits in it

    // Bits consumed so far.
    ghost function Pos(): int
      reads this
    {
      8 * inptr - bk
    }

    // The buffer holds the bits between the consumed ones and the next byte; never
    // more than 23, so that shifting a byte in stays within 32 bits.
    ghost predicate Buffered()
      reads this
    {
      && inptr <= |zinbuf| && bk <= 23 && bk <= 8 * inptr
      && bb == Num(Stream(zinbuf)[8 * inptr - bk..8 * inptr])
    }

    // The input that has not been read is still in memory.
    ghost predicate Valid()
      reads this, mem
    {
      Buffered() && SitsFrom(mem.bytes, addr, zinbuf, inptr)
    }

    constructor (mem: Ram, addr: int, ghost zinbuf: seq<byte>, inptr: nat)
      requires inptr <= |zinbuf| && Sits(mem.bytes, addr, zinbuf)
      ensures Valid() && this.zinbuf == zinbuf && this.inptr == inptr && Pos() == 8 * inptr && fresh(this)
      ensures this.mem == mem && this.addr == addr
    {
      this.mem, this.addr, this.zinbuf, this.inptr, bb, bk := mem, addr, zinbuf, inptr, 0, 0;
    }

    // inflate.c:1067-1068: start at a byte boundary with an empty buffer.
    method Restart()
      requires inptr <= |zinbuf| && SitsFrom(mem.bytes, addr, zinbuf, inptr)
      modifies this
      ensures Valid() && inptr == old(inptr) && Pos() == 8 * inptr
    {
      bk := 0;
      bb := 0;
    }

    // NEEDBITS(n)
    method NeedBits(n: nat)
      requires Valid() && n <= 16 && Pos() + n <= 8 * |zinbuf|
      modifies this
      ensures Valid() && Pos() == old(Pos()) && bk >= n
      ensures bb < Pow2(bk)
    {
      hide Num, Pow2, Shl, Stream, SitsFrom;
      while bk < n
        invariant Valid() && Pos() == old(Pos())
        decreases n - bk
      {
        assert inptr < |zinbuf|;
        SitsFromAt(mem.bytes, addr, zinbuf, inptr);
        SitsFromLess(mem.bytes, addr, zinbuf, inptr, inptr + 1);
        ShiftIn(zinbuf, inptr, bk);
        bb := bb + Shl(mem.bytes[addr + inptr], bk);   // b |= byte << k: the bits are disjoint
        inptr := inptr + 1;
        bk := bk + 8;
      }
      NumBound(Stream(zinbuf)[8 * inptr - bk..8 * inptr]);
    }

    // DUMPBITS(n)
    method DumpBits(n: nat)
      requires Valid() && n <= bk
      modifies this
      ensures Valid() && Pos() == old(Pos()) + n && bk == old(bk) - n && inptr == old(inptr)
    {
      hide Num, High, Low, Stream, SitsFrom;
      var s := Stream(zinbuf);
      NumSplit(s[8 * inptr - bk..8 * inptr], n);
      SliceDrop(s, 8 * inptr - bk, 8 * inptr, n);
      bb := High(bb, n);
      bk := bk - n;
    }

    // b & mask_bits[n] is the next n bits of the stream.
    lemma PeekIs(n: nat)
      requires Valid() && n <= bk
      ensures Pos() + n <= 8 * |zinbuf| && Low(bb, n) == Num(Stream(zinbuf)[Pos()..Pos() + n])
    {
      hide Num, High, Low, Stream, SitsFrom;
      var s := Stream(zinbuf);
      NumSplit(s[8 * inptr - bk..8 * inptr], n);
      SliceTake(s, 8 * inptr - bk, 8 * inptr, n);
    }

    // The usual three steps: need, mask, dump.
    method GetBits(n: nat) returns (x: nat)
      requires Valid() && n <= 16 && Pos() + n <= 8 * |zinbuf|
      modifies this
      ensures Valid() && Pos() == old(Pos()) + n
      ensures x == Num(Stream(zinbuf)[old(Pos())..old(Pos()) + n])
    {
      hide Num, Low, Stream;
      NeedBits(n);
      PeekIs(n);
      x := Low(bb, n);
      DumpBits(n);
    }

    // inflate.c:1090-1093: unread whole bytes go back.
    method GiveBack()
      requires Valid()
      modifies this
      ensures bk < 8 && Pos() == old(Pos())
      ensures inptr == (old(Pos()) + 7) / 8
    {
      while bk >= 8
        invariant Pos() == old(Pos()) && bk <= 8 * inptr
        decreases bk
      {
        bk := bk - 8;
        inptr := inptr - 1;
      }
    }
  }

  // A byte shifted in behind k bits.
  lemma ShiftIn(input: seq<byte>, i: nat, k: nat)
    requires i < |input| && k <= 8 * i
    ensures var s := Stream(input);
            Num(s[8 * i - k..8 * (i + 1)]) == Num(s[8 * i - k..8 * i]) + Shl(input[i], k)
  {
    hide Num, Shl, Stream;
    var s := Stream(input);
    var a, b := s[8 * i - k..8 * i], s[8 * i..8 * i + 8];
    assert s[8 * i - k..8 * (i + 1)] == a + b;
    NumAppendShl(a, b);
    StreamByte(input, i);
  }
}
