// Whether output that goes to the memory its input is read from stays behind the reading: a
// condition on the states the reference decoder passes through.
module Pace {
  import opened Bits
  import opened Canonical
  import opened Deflate
  import opened Window
  import opened RamMemory

  // Where size bytes of input are, and where output goes.
  datatype Places = Places(addr: int, size: nat, base: int)

  // Output is written a window at a time.
  function Flushed(n: nat): (r: nat)
    ensures r <= n
  {
    n / WSIZE * WSIZE
  }

  // The first byte that lies wholly behind bit pos.
  function NextByte(pos: nat): nat { (pos + 7) / 8 }

  // After n bytes of output, none of the input behind bit pos is overwritten.
  predicate Kept(pl: Places, pos: nat, n: nat)
  {
    NextByte(pos) <= pl.size ==> Apart(pl.base, Flushed(n), pl.addr + NextByte(pos), pl.size - NextByte(pos))
  }

  ghost predicate CodesKept(pl: Places, lit: seq<nat>, dist: seq<nat>, bits: seq<bool>, pos: nat, out: seq<byte>)
    decreases |bits| - pos
  {
    match CodeStep(lit, dist, bits, pos, out)
    case Next(p, o) => Kept(pl, p, |o|) && CodesKept(pl, lit, dist, bits, p, o)
    case End(_) => true
  }

  // After i of the bytes of a stored block whose header is read at bit pos.
  predicate KeptAt(pl: Places, pos: nat, n: nat, i: nat) { Kept(pl, ByteAlign(pos) + 32 + 8 * i, n + i) }

  ghost predicate StoredKept(pl: Places, bits: seq<bool>, pos: nat, out: seq<byte>)
  {
    Stored(bits, pos, out).Done? ==>
      forall i :: 0 <= i <= |Stored(bits, pos, out).out| - |out| ==> KeptAt(pl, pos, |out|, i)
  }

  ghost predicate FinishKept(pl: Places, s: Setup, bits: seq<bool>, out: seq<byte>)
  {
    s.Ready? ==> CodesKept(pl, s.lit, s.dist, bits, s.pos, out)
  }

  ghost predicate BlockKept(pl: Places, bits: seq<bool>, pos: nat, out: seq<byte>)
  {
    pos + 3 <= |bits| ==>
      var t := Field(bits, pos + 1, 2);
      if t == 2 then FinishKept(pl, SetUp(bits, pos + 3), bits, out)
      else if t == 0 then StoredKept(pl, bits, pos + 3, out)
      else t == 1 ==> CodesKept(pl, FixedLit(), FixedDist(), bits, pos + 3, out)
  }

  // At every step of decompression, what is flushed leaves what is not read alone.
  ghost predicate InflatedKept(pl: Places, bits: seq<bool>, pos: nat, out: seq<byte>)
    decreases |bits| - pos
  {
    && BlockKept(pl, bits, pos, out)
    && var b := OneBlock(bits, pos, out);
       b.Done? && pos < |bits| && !bits[pos] ==> InflatedKept(pl, bits, b.pos, b.out)
  }

  // ---- output that stays clear of the input altogether ----

  lemma ApartKept(pl: Places, n: nat, pos: nat, n': nat)
    requires Apart(pl.base, n, pl.addr, pl.size) && n' <= n
    ensures Kept(pl, pos, n')
  {
    if NextByte(pos) <= pl.size { ApartLess(pl.base, n, Flushed(n'), pl.addr, pl.size, NextByte(pos)); }
  }

  lemma {:induction false} ApartCodes(pl: Places, lit: seq<nat>, dist: seq<nat>, bits: seq<bool>, pos: nat,
                                      out: seq<byte>)
    requires Codes(lit, dist, bits, pos, out) != OffSpec
    requires Apart(pl.base, |Codes(lit, dist, bits, pos, out).out|, pl.addr, pl.size)
    ensures CodesKept(pl, lit, dist, bits, pos, out)
    decreases |bits| - pos
  {
    hide CodeStep, Kept, Apart;
    match CodeStep(lit, dist, bits, pos, out)
    case Next(p, o) =>
      ApartCodes(pl, lit, dist, bits, p, o);
      ApartKept(pl, |Codes(lit, dist, bits, pos, out).out|, p, |o|);
    case End(_) =>
  }

  lemma ApartBlock(pl: Places, bits: seq<bool>, pos: nat, out: seq<byte>)
    requires OneBlock(bits, pos, out) != OffSpec
    requires Apart(pl.base, |OneBlock(bits, pos, out).out|, pl.addr, pl.size)
    ensures BlockKept(pl, bits, pos, out)
  {
    hide SetUp, Codes, CodesKept, Stored, Kept, Apart, Field, FixedLit, FixedDist;
    var t := Field(bits, pos + 1, 2);
    if t == 2 {
      var s := SetUp(bits, pos + 3);
      if s.Ready? { ApartCodes(pl, s.lit, s.dist, bits, s.pos, out); }
    } else if t == 0 {
      var r := Stored(bits, pos + 3, out);
      var p := pos + 3;
      forall i | 0 <= i <= |r.out| - |out| ensures KeptAt(pl, p, |out|, i) {
        ApartKept(pl, |r.out|, ByteAlign(p) + 32 + 8 * i, |out| + i);
      }
    } else if t == 1 {
      ApartCodes(pl, FixedLit(), FixedDist(), bits, pos + 3, out);
    }
  }

  // If the whole output stays clear of the input, so does every step.
  lemma {:induction false} ApartInflated(pl: Places, bits: seq<bool>, pos: nat, out: seq<byte>)
    requires Inflated(bits, pos, out) != OffSpec
    requires Apart(pl.base, |Inflated(bits, pos, out).out|, pl.addr, pl.size)
    ensures InflatedKept(pl, bits, pos, out)
    decreases |bits| - pos
  {
    hide OneBlock, BlockKept, Apart;
    var b := OneBlock(bits, pos, out);
    if b.Done? && pos < |bits| && !bits[pos] {
      ApartInflated(pl, bits, b.pos, b.out);
      LessApart(pl, |Inflated(bits, pos, out).out|, |b.out|);
    }
    ApartBlock(pl, bits, pos, out);
  }

  lemma LessApart(pl: Places, n: nat, n': nat)
    requires Apart(pl.base, n, pl.addr, pl.size) && n' <= n
    ensures Apart(pl.base, n', pl.addr, pl.size)
  {
  }
}
